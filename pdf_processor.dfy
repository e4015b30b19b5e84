/** `buscador_estados/core/pdf_processor.py`: lists the PDF files of a folder, extracts
    their text page by page, and finds the files whose text contains a case number. */
module PdfProcessing {
  import opened Wrappers
  import opened Text
  import opened Seqs
  import opened Paths
  import opened FileSystem

  /** A scanner bound to one PDF folder; the folder is checked once, when it is built. */
  datatype PdfProcessor = PdfProcessor(carpetaPdf: string)

  /** `PDFProcessor(carpeta)` with its `_validar_carpeta` check: a missing path is reported
      before a path that is not a folder. */
  function ValidarCarpeta(s: Instantanea, carpeta: string): (r: Result<PdfProcessor>)
    ensures r.Ok? <==> carpeta in s.folders
    ensures r.Ok? ==> r.value.carpetaPdf == carpeta
    ensures r == Err(FileNotFound(carpeta)) <==> !s.Exists(carpeta)
    ensures r == Err(NotADirectory(carpeta)) <==> s.Exists(carpeta) && carpeta !in s.folders
  {
    if !s.Exists(carpeta) then Err(FileNotFound(carpeta))
    else if carpeta !in s.folders then Err(NotADirectory(carpeta))
    else Ok(PdfProcessor(carpeta))
  }

  /** A name counts as a PDF when, lower-cased, it ends with ".pdf". */
  predicate EsPdf(nombre: string) {
    EndsWith(Lower(nombre), ".pdf")
  }

  /** `get_pdf_files`: the PDF names of the folder in listing order; a folder that cannot
      be listed gives no files. */
  function GetPdfFiles(p: PdfProcessor, listings: map<string, seq<string>>): (r: seq<string>)
    ensures p.carpetaPdf !in listings ==> r == []
    ensures p.carpetaPdf in listings ==> IsSubsequence(r, listings[p.carpetaPdf])
    ensures forall n :: n in r <==> p.carpetaPdf in listings && n in listings[p.carpetaPdf] && EsPdf(n)
  {
    if p.carpetaPdf !in listings then []
    else
      var listado := listings[p.carpetaPdf];
      FilterIsSubsequence(EsPdf, listado);
      Filter(EsPdf, listado)
  }

  /** What one page adds to the extracted text: its text and a newline when the text is
      non-empty, nothing for an empty or missing text, failure for a page that raises. */
  function Aporte(pg: Pagina): Option<string> {
    match pg
    case Ilegible => None
    case SinTexto => Some("")
    case Texto(s) => Some(if s == "" then "" else s + "\n")
  }

  /** The text of a document's pages, in page order. */
  function Contenido(ps: seq<Pagina>): Option<string> {
    if ps == [] then Some("")
    else
      match (Contenido(ps[..|ps| - 1]), Aporte(ps[|ps| - 1]))
      case (Some(c), Some(a)) => Some(c + a)
      case _ => None
  }

  /** `extract_text_from_pdf`'s result for the file at `ruta`: `None` when the file cannot
      be opened or one of its pages raises. */
  function TextoExtraido(pdfs: map<string, Documento>, ruta: string): Option<string> {
    if ruta !in pdfs then None
    else match pdfs[ruta]
      case Corrupto => None
      case Legible(ps) => Contenido(ps)
  }

  /** Text extraction is compositional: the text of two runs of pages is the text of the
      first followed by the text of the second, and fails when either fails. */
  lemma {:induction false} ContenidoAppend(a: seq<Pagina>, b: seq<Pagina>)
    ensures Contenido(a + b) ==
      (if Contenido(a).Some? && Contenido(b).Some? then Some(Contenido(a).value + Contenido(b).value) else None)
    decreases |b|
  {
    if b == [] {
      assert a + b == a;
      if Contenido(a).Some? {
        assert Contenido(a).value + "" == Contenido(a).value;
      }
    } else {
      var b' := b[..|b| - 1];
      ContenidoAppend(a, b');
      assert (a + b)[..|a + b| - 1] == a + b';
      assert (a + b)[|a + b| - 1] == b[|b| - 1];
      if Contenido(a).Some? && Contenido(b').Some? && Aporte(b[|b| - 1]).Some? {
        assert Contenido(a).value + Contenido(b').value + Aporte(b[|b| - 1]).value
            == Contenido(a).value + (Contenido(b').value + Aporte(b[|b| - 1]).value);
      }
    }
  }

  /** Extraction fails exactly when some page raises. */
  lemma {:induction false} ContenidoFalla(ps: seq<Pagina>)
    ensures Contenido(ps).None? <==> exists i :: 0 <= i < |ps| && ps[i] == Ilegible
    decreases |ps|
  {
    if ps != [] {
      var init := ps[..|ps| - 1];
      ContenidoFalla(init);
      if i :| 0 <= i < |init| && init[i] == Ilegible {
        assert ps[i] == Ilegible;
      }
      if i :| 0 <= i < |ps| && ps[i] == Ilegible {
        if i < |init| {
          assert init[i] == Ilegible;
        }
      }
    }
  }

  /** Pages with an empty or missing text contribute nothing. */
  lemma PaginaVaciaNoAporta(a: seq<Pagina>, b: seq<Pagina>)
    ensures Contenido(a + [SinTexto] + b) == Contenido(a + b)
    ensures Contenido(a + [Texto("")] + b) == Contenido(a + b)
  {
    assert Contenido([SinTexto]) == Some("") && Contenido([Texto("")]) == Some("") by {
      assert [SinTexto][..0] == [] && [Texto("")][..0] == [];
      assert Contenido([]) == Some("");
      assert "" + "" == "";
    }
    ContenidoAppend(a, [SinTexto]);
    ContenidoAppend(a + [SinTexto], b);
    ContenidoAppend(a, [Texto("")]);
    ContenidoAppend(a + [Texto("")], b);
    ContenidoAppend(a, b);
    if Contenido(a).Some? {
      assert Contenido(a).value + "" == Contenido(a).value;
      assert Contenido(a + [SinTexto]) == Contenido(a);
      assert Contenido(a + [Texto("")]) == Contenido(a);
    }
  }

  /** A query found in the text of one page is found in the document's text. */
  lemma PaginaEnContenido(ps: seq<Pagina>, i: int, q: string)
    requires 0 <= i < |ps| && ps[i].Texto? && Contains(ps[i].s, q)
    requires Contenido(ps).Some?
    ensures Contains(Contenido(ps).value, q)
  {
    var pre, post := ps[..i], ps[i + 1..];
    assert ps == pre + [ps[i]] + post;
    ContenidoAppend(pre + [ps[i]], post);
    ContenidoAppend(pre, [ps[i]]);
    assert [ps[i]][..0] == [];
    var s := ps[i].s;
    var x, z := Contenido(pre).value, Contenido(post).value;
    if s == "" {
      assert q <= s;
      assert q == "";
      assert q <= Contenido(ps).value;
    } else {
      ContainsSelf(s + "\n");
      ContainsWithin("", s, "\n", s);
      ContainsTrans(s + "\n", s, q);
      ContainsWithin(x, s + "\n", z, q);
      assert Contenido(ps).value == x + (s + "\n") + z;
    }
  }

  /** `extract_text_from_pdf`: opens the file and concatenates, page by page, each
      non-empty page text followed by a newline. */
  method ExtractTextFromPdf(p: PdfProcessor, disk: Disk, nombre: string) returns (r: Option<string>)
    ensures r == TextoExtraido(disk.pdfs, PathJoin(p.carpetaPdf, nombre))
  {
    var ruta := PathJoin(p.carpetaPdf, nombre);
    if ruta !in disk.pdfs || disk.pdfs[ruta].Corrupto? {
      return None;
    }
    var paginas := disk.pdfs[ruta].paginas;
    var contenido := "";
    for i := 0 to |paginas|
      invariant Contenido(paginas[..i]) == Some(contenido)
    {
      assert paginas[..i + 1][..i] == paginas[..i];
      assert paginas[..i + 1][i] == paginas[i];
      match paginas[i]
      case Ilegible =>
        assert Contenido(paginas[..i + 1]) == None;
        ContenidoAppend(paginas[..i + 1], paginas[i + 1..]);
        assert paginas[..i + 1] + paginas[i + 1..] == paginas;
        return None;
      case SinTexto =>
        assert contenido + "" == contenido;
      case Texto(s) =>
        if s != "" {
          assert contenido + (s + "\n") == contenido + s + "\n";
          contenido := contenido + s + "\n";
        } else {
          assert contenido + "" == contenido;
        }
    }
    assert paginas[..|paginas|] == paginas;
    return Some(contenido);
  }

  /** `search_text_in_pdf`'s answer: the extraction succeeded and its text contains `q`. */
  predicate Coincide(pdfs: map<string, Documento>, ruta: string, q: string) {
    match TextoExtraido(pdfs, ruta)
    case None => false
    case Some(c) => Contains(c, q)
  }

  /** `search_text_in_pdf`: a file whose text cannot be extracted does not match. */
  method SearchTextInPdf(p: PdfProcessor, disk: Disk, nombre: string, q: string) returns (b: bool)
    ensures b == Coincide(disk.pdfs, PathJoin(p.carpetaPdf, nombre), q)
  {
    var contenido := ExtractTextFromPdf(p, disk, nombre);
    if contenido.None? {
      return false;
    }
    b := Contains(contenido.value, q);
  }

  /** `search_text_in_all_pdfs`'s answer: the PDF files of the folder that match `q`, in
      listing order. */
  function Coincidencias(p: PdfProcessor, listings: map<string, seq<string>>, pdfs: map<string, Documento>,
                         q: string): (r: seq<string>)
    ensures |r| <= |GetPdfFiles(p, listings)|
    ensures IsSubsequence(r, GetPdfFiles(p, listings))
    ensures forall n :: n in r <==> n in GetPdfFiles(p, listings) && Coincide(pdfs, PathJoin(p.carpetaPdf, n), q)
  {
    var archivos := GetPdfFiles(p, listings);
    var coincide := (n: string) => Coincide(pdfs, PathJoin(p.carpetaPdf, n), q);
    FilterIsSubsequence(coincide, archivos);
    Filter(coincide, archivos)
  }

  /** `search_text_in_all_pdfs`: tests each PDF file in listing order and keeps the
      matching names. */
  method SearchTextInAllPdfs(p: PdfProcessor, disk: Disk, q: string) returns (r: seq<string>)
    ensures r == Coincidencias(p, disk.listings, disk.pdfs, q)
  {
    var archivos := GetPdfFiles(p, disk.listings);
    ghost var pdfs := disk.pdfs;
    ghost var coincide := (n: string) => Coincide(pdfs, PathJoin(p.carpetaPdf, n), q);
    r := [];
    for i := 0 to |archivos|
      invariant r == Filter(coincide, archivos[..i])
    {
      FilterSnoc(coincide, archivos, i);
      var encontrado := SearchTextInPdf(p, disk, archivos[i], q);
      if encontrado {
        r := r + [archivos[i]];
      }
    }
    assert archivos[..|archivos|] == archivos;
  }

  /** A case number written on some page of a readable PDF file is reported for that file. */
  lemma NumeroEnPaginaEsEncontrado(p: PdfProcessor, listings: map<string, seq<string>>,
                                   pdfs: map<string, Documento>, q: string, n: string, i: int)
    requires n in GetPdfFiles(p, listings)
    requires PathJoin(p.carpetaPdf, n) in pdfs
    requires pdfs[PathJoin(p.carpetaPdf, n)].Legible?
    requires var ps := pdfs[PathJoin(p.carpetaPdf, n)].paginas;
      (forall j :: 0 <= j < |ps| ==> ps[j] != Ilegible) && 0 <= i < |ps| && ps[i].Texto? && Contains(ps[i].s, q)
    ensures n in Coincidencias(p, listings, pdfs, q)
  {
    var ps := pdfs[PathJoin(p.carpetaPdf, n)].paginas;
    ContenidoFalla(ps);
    PaginaEnContenido(ps, i, q);
  }

  /** A file that cannot be opened, or that has a page that raises, is never reported,
      whatever the query. */
  lemma IlegibleNoCoincide(p: PdfProcessor, listings: map<string, seq<string>>,
                           pdfs: map<string, Documento>, q: string, n: string)
    requires var ruta := PathJoin(p.carpetaPdf, n);
      ruta !in pdfs || pdfs[ruta].Corrupto? || exists j :: 0 <= j < |pdfs[ruta].paginas| && pdfs[ruta].paginas[j] == Ilegible
    ensures n !in Coincidencias(p, listings, pdfs, q)
  {
    var ruta := PathJoin(p.carpetaPdf, n);
    if ruta in pdfs && pdfs[ruta].Legible? {
      ContenidoFalla(pdfs[ruta].paginas);
    }
  }
}
