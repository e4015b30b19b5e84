/** `buscador_rama/search.py`: the older, script-style search. It applies the same rule as
    the scanner in `PdfProcessing` with two differences: only names ending exactly in
    ".pdf" are scanned, and page texts are joined with nothing between them. It has no
    error handling, so the first failure ends the whole run. */
module BuscadorRama {
  import opened Wrappers
  import opened Text
  import opened Seqs
  import opened Dates
  import opened Paths
  import opened FileSystem
  import opened Models
  import opened PdfProcessing
  import opened Reports

  const PDF_SUFFIX := ".pdf"
  const LEGACY_NOT_FOUND_PREFIX := "No se encontro el número "

  /** The case-sensitive `nombre_archivo.endswith(".pdf")`. */
  predicate EsPdfLegacy(nombre: string) {
    EndsWith(nombre, PDF_SUFFIX)
  }

  /** `contenido += pagina.extract_text()` over the pages: a page without text raises a
      `TypeError`, a page that cannot be read raises, and the first failure wins. */
  function ContenidoLegacy(ruta: string, ps: seq<Pagina>): (r: Result<string>)
    ensures r.Err? ==> r.error in {TypeError(ruta), PdfError(ruta)}
  {
    if ps == [] then Ok("")
    else
      match ContenidoLegacy(ruta, ps[..|ps| - 1])
      case Err(e) => Err(e)
      case Ok(c) =>
        match ps[|ps| - 1]
        case Texto(s) => Ok(c + s)
        case SinTexto => Err(TypeError(ruta))
        case Ilegible => Err(PdfError(ruta))
  }

  /** The text of the file at `ruta`; a file that cannot be opened raises. */
  function TextoLegacy(pdfs: map<string, Documento>, ruta: string): (r: Result<string>)
    ensures ruta !in pdfs || pdfs[ruta].Corrupto? ==> r == Err(PdfError(ruta))
  {
    if ruta !in pdfs then Err(PdfError(ruta))
    else match pdfs[ruta]
      case Corrupto => Err(PdfError(ruta))
      case Legible(ps) => ContenidoLegacy(ruta, ps)
  }

  /** The loop of `buscar_numero_en_pdfs` over a listing: the names ending in ".pdf" whose
      text contains `numero`, in listing order, or the first failure. */
  function BusquedaLegacy(pdfs: map<string, Documento>, carpeta: string, nombres: seq<string>,
                          numero: string): (r: Result<seq<string>>)
    ensures r.Ok? ==> IsSubsequence(r.value, nombres)
    ensures r.Ok? ==> forall i :: 0 <= i < |r.value| ==> EsPdfLegacy(r.value[i])
  {
    if nombres == [] then Ok([])
    else
      var init, n := nombres[..|nombres| - 1], nombres[|nombres| - 1];
      assert nombres == init + [n];
      match BusquedaLegacy(pdfs, carpeta, init, numero)
      case Err(e) => Err(e)
      case Ok(encontrados) =>
        if !EsPdfLegacy(n) then
          SubsequenceSnoc(encontrados, init, n, false);
          Ok(encontrados)
        else
          match TextoLegacy(pdfs, PathJoin(carpeta, n))
          case Err(e) => Err(e)
          case Ok(contenido) =>
            SubsequenceSnoc(encontrados, init, n, Contains(contenido, numero));
            Ok(if Contains(contenido, numero) then encontrados + [n] else encontrados)
  }

  /** Appending one element to the longer sequence, and possibly to the shorter one,
      keeps the subsequence relation. */
  lemma {:induction false} SubsequenceSnoc(ys: seq<string>, xs: seq<string>, x: string, tomar: bool)
    requires IsSubsequence(ys, xs)
    ensures IsSubsequence(if tomar then ys + [x] else ys, xs + [x])
    decreases |xs|
  {
    if xs == [] {
      assert ys == [];
      assert ([x])[1..] == [];
      if tomar {
        assert ([] + [x])[0] == x && ([] + [x])[1..] == [];
      }
    } else if ys != [] && ys[0] == xs[0] && IsSubsequence(ys[1..], xs[1..]) {
      SubsequenceSnoc(ys[1..], xs[1..], x, tomar);
      assert (xs + [x])[1..] == xs[1..] + [x];
      if tomar {
        assert (ys + [x])[1..] == ys[1..] + [x];
      }
    } else {
      SubsequenceSnoc(ys, xs[1..], x, tomar);
      assert (xs + [x])[1..] == xs[1..] + [x];
    }
  }

  /** The names the old search keeps are exactly the listed ".pdf" names whose text,
      pages joined with nothing between them, contains the number. */
  lemma {:induction false} BusquedaLegacyMiembros(pdfs: map<string, Documento>, carpeta: string,
                                                   nombres: seq<string>, numero: string, x: string)
    requires BusquedaLegacy(pdfs, carpeta, nombres, numero).Ok?
    ensures x in BusquedaLegacy(pdfs, carpeta, nombres, numero).value <==>
      x in nombres && EsPdfLegacy(x) && TextoLegacy(pdfs, PathJoin(carpeta, x)).Ok?
      && Contains(TextoLegacy(pdfs, PathJoin(carpeta, x)).value, numero)
    decreases |nombres|
  {
    if nombres != [] {
      var init, n := nombres[..|nombres| - 1], nombres[|nombres| - 1];
      assert nombres == init + [n];
      BusquedaLegacyMiembros(pdfs, carpeta, init, numero, x);
      var encontrados := BusquedaLegacy(pdfs, carpeta, init, numero).value;
      assert x in nombres <==> x in init || x == n;
      if EsPdfLegacy(n) {
        var contenido := TextoLegacy(pdfs, PathJoin(carpeta, n)).value;
        assert BusquedaLegacy(pdfs, carpeta, nombres, numero).value
               == if Contains(contenido, numero) then encontrados + [n] else encontrados;
      }
    }
  }

  /** `buscar_numero_en_pdfs(numero, carpeta)`: a folder that cannot be listed raises. */
  function BuscarLegacy(listings: map<string, seq<string>>, pdfs: map<string, Documento>, numero: string,
                        carpeta: string): (r: Result<seq<string>>)
    ensures carpeta !in listings ==> r == Err(OsError(carpeta))
    ensures r.Ok? ==> IsSubsequence(r.value, listings[carpeta])
  {
    if carpeta !in listings then Err(OsError(carpeta))
    else BusquedaLegacy(pdfs, carpeta, listings[carpeta], numero)
  }

  /** A name is in the answer of `buscar_numero_en_pdfs` exactly when the folder lists it,
      it ends in ".pdf", and its text contains the number. */
  lemma BuscarLegacyMiembros(listings: map<string, seq<string>>, pdfs: map<string, Documento>, numero: string,
                             carpeta: string, x: string)
    requires BuscarLegacy(listings, pdfs, numero, carpeta).Ok?
    ensures carpeta in listings
    ensures x in BuscarLegacy(listings, pdfs, numero, carpeta).value <==>
      x in listings[carpeta] && EsPdfLegacy(x) && TextoLegacy(pdfs, PathJoin(carpeta, x)).Ok?
      && Contains(TextoLegacy(pdfs, PathJoin(carpeta, x)).value, numero)
  {
    BusquedaLegacyMiembros(pdfs, carpeta, listings[carpeta], numero, x);
  }

  /** The page loop of `buscar_numero_en_pdfs`. */
  method ExtraerTextoLegacy(disk: Disk, ruta: string) returns (r: Result<string>)
    ensures r == TextoLegacy(disk.pdfs, ruta)
  {
    if ruta !in disk.pdfs || disk.pdfs[ruta].Corrupto? {
      return Err(PdfError(ruta));
    }
    var paginas := disk.pdfs[ruta].paginas;
    var contenido := "";
    for i := 0 to |paginas|
      invariant ContenidoLegacy(ruta, paginas[..i]) == Ok(contenido)
    {
      assert paginas[..i + 1][..i] == paginas[..i];
      match paginas[i]
      case SinTexto =>
        ContenidoLegacyAborta(ruta, paginas, i + 1);
        return Err(TypeError(ruta));
      case Ilegible =>
        ContenidoLegacyAborta(ruta, paginas, i + 1);
        return Err(PdfError(ruta));
      case Texto(s) =>
        contenido := contenido + s;
    }
    assert paginas[..|paginas|] == paginas;
    return Ok(contenido);
  }

  /** Once a prefix of the pages fails, the whole document fails with the same error. */
  lemma {:induction false} ContenidoLegacyAborta(ruta: string, ps: seq<Pagina>, k: int)
    requires 0 <= k <= |ps| && ContenidoLegacy(ruta, ps[..k]).Err?
    ensures ContenidoLegacy(ruta, ps) == ContenidoLegacy(ruta, ps[..k])
    decreases |ps| - k
  {
    if k < |ps| {
      assert ps[..k + 1][..k] == ps[..k];
      ContenidoLegacyAborta(ruta, ps, k + 1);
    } else {
      assert ps[..k] == ps;
    }
  }

  /** `buscar_numero_en_pdfs`. */
  method BuscarNumeroEnPdfs(disk: Disk, numero: string, carpeta: string) returns (r: Result<seq<string>>)
    ensures r == BuscarLegacy(disk.listings, disk.pdfs, numero, carpeta)
  {
    if carpeta !in disk.listings {
      return Err(OsError(carpeta));
    }
    var nombres := disk.listings[carpeta];
    var encontrados := [];
    for i := 0 to |nombres|
      invariant BusquedaLegacy(disk.pdfs, carpeta, nombres[..i], numero) == Ok(encontrados)
    {
      assert nombres[..i + 1][..i] == nombres[..i];
      assert nombres[..i + 1][i] == nombres[i];
      if EsPdfLegacy(nombres[i]) {
        var contenido := ExtraerTextoLegacy(disk, PathJoin(carpeta, nombres[i]));
        if contenido.Err? {
          BusquedaLegacyAborta(disk.pdfs, carpeta, nombres, numero, i + 1);
          return Err(contenido.error);
        }
        if Contains(contenido.value, numero) {
          encontrados := encontrados + [nombres[i]];
        }
      }
    }
    assert nombres[..|nombres|] == nombres;
    return Ok(encontrados);
  }

  /** Once a prefix of the listing fails, the whole search fails with the same error. */
  lemma {:induction false} BusquedaLegacyAborta(pdfs: map<string, Documento>, carpeta: string,
                                                 nombres: seq<string>, numero: string, k: int)
    requires 0 <= k <= |nombres| && BusquedaLegacy(pdfs, carpeta, nombres[..k], numero).Err?
    ensures BusquedaLegacy(pdfs, carpeta, nombres, numero) == BusquedaLegacy(pdfs, carpeta, nombres[..k], numero)
    decreases |nombres| - k
  {
    if k < |nombres| {
      assert nombres[..k + 1][..k] == nombres[..k];
      BusquedaLegacyAborta(pdfs, carpeta, nombres, numero, k + 1);
    } else {
      assert nombres[..k] == nombres;
    }
  }

  /** One PDF file that cannot be read aborts the whole search, whatever the other files
      hold. */
  lemma UnPdfIlegibleAborta(pdfs: map<string, Documento>, carpeta: string, nombres: seq<string>,
                            numero: string, i: int)
    requires 0 <= i < |nombres| && EsPdfLegacy(nombres[i])
    requires TextoLegacy(pdfs, PathJoin(carpeta, nombres[i])).Err?
    ensures BusquedaLegacy(pdfs, carpeta, nombres, numero).Err?
  {
    var pre := nombres[..i + 1];
    assert pre[..i] == nombres[..i] && pre[i] == nombres[i];
    assert BusquedaLegacy(pdfs, carpeta, pre, numero).Err?;
    BusquedaLegacyAborta(pdfs, carpeta, nombres, numero, i + 1);
  }

  /** Every name the old scanner keeps, the new scanner keeps too. */
  lemma EsPdfLegacyImplicaEsPdf(nombre: string)
    ensures EsPdfLegacy(nombre) ==> EsPdf(nombre)
  {
    if EsPdfLegacy(nombre) {
      var l, k := Lower(nombre), |nombre| - 4;
      assert nombre[k..] == ".pdf";
      assert nombre[k] == '.' && nombre[k + 1] == 'p' && nombre[k + 2] == 'd' && nombre[k + 3] == 'f';
      assert l[k..] == ".pdf";
    }
  }

  /** The converse fails: an upper-case extension is scanned by the new scanner only. */
  lemma ExtensionMayuscula()
    ensures EsPdf("A.PDF") && !EsPdfLegacy("A.PDF")
  {
    var l := Lower("A.PDF");
    assert l[1..] == ".pdf";
    assert "A.PDF"[1..] != ".pdf" by {
      assert "A.PDF"[1..][1] == 'P';
    }
  }

  /** A newline of the text lies outside any newline-free occurrence. */
  lemma SaltoFueraDeOcurrencia(s: string, q: string, k: int, j: int)
    requires OccursAt(s, q, k) && '\n' !in q
    requires 0 <= j < |s| && s[j] == '\n'
    ensures j < k || k + |q| <= j
  {
    var c := s[j];
    assert k <= j < k + |q| ==> c in q;
  }

  /** A text that ends with a newline, or is empty, cannot share a newline-free
      occurrence with what follows it. */
  lemma SplitAtNewline(a: string, b: string, q: string)
    requires '\n' !in q
    requires a == [] || a[|a| - 1] == '\n'
    requires Contains(a + b, q)
    ensures Contains(a, q) || Contains(b, q)
  {
    var s := a + b;
    var k := ContainsWitness(s, q);
    if a != [] {
      SaltoFueraDeOcurrencia(s, q, k, |a| - 1);
    }
    if k + |q| <= |a| {
      assert s[k..k + |q|] == a[k..k + |q|];
      OccursContains(a, q, k);
    } else {
      assert |a| <= k && k + |q| <= |s|;
      assert s[k..k + |q|] == b[k - |a|..k - |a| + |q|];
      OccursContains(b, q, k - |a|);
    }
  }

  /** A trailing newline adds no newline-free occurrence. */
  lemma DropNewline(s: string, q: string)
    requires '\n' !in q
    requires Contains(s + "\n", q)
    ensures Contains(s, q)
  {
    var t := s + "\n";
    var k := ContainsWitness(t, q);
    if q == [] {
      assert q <= s;
    } else {
      SaltoFueraDeOcurrencia(t, q, k, |s|);
      assert t[k..k + |q|] == s[k..k + |q|];
      OccursContains(s, q, k);
    }
  }

  /** The new scanner's text is empty or ends with a newline. */
  lemma {:induction false} ContenidoTerminaEnSalto(ps: seq<Pagina>)
    requires Contenido(ps).Some?
    ensures Contenido(ps).value == [] || Contenido(ps).value[|Contenido(ps).value| - 1] == '\n'
    decreases |ps|
  {
    if ps != [] {
      ContenidoTerminaEnSalto(ps[..|ps| - 1]);
    }
  }

  /** For a number without newlines, on documents whose pages all have a text, every match
      of the new scanner is a match of the old one. */
  lemma {:induction false} NuevoImplicaLegacy(ruta: string, ps: seq<Pagina>, q: string)
    requires forall i :: 0 <= i < |ps| ==> ps[i].Texto?
    requires '\n' !in q
    requires Contenido(ps).Some? && Contains(Contenido(ps).value, q)
    ensures ContenidoLegacy(ruta, ps).Ok? && Contains(ContenidoLegacy(ruta, ps).value, q)
    decreases |ps|
  {
    if ps == [] {
      assert q <= "";
    } else {
      var init, s := ps[..|ps| - 1], ps[|ps| - 1].s;
      assert forall i :: 0 <= i < |init| ==> init[i] == ps[i];
      ContenidoFalla(init);
      var n := Contenido(init).value;
      LegacySinFallos(ruta, init);
      var l := ContenidoLegacy(ruta, init).value;
      assert ContenidoLegacy(ruta, ps) == Ok(l + s);
      if s == "" {
        assert Contenido(ps).value == n + "";
        assert n + "" == n;
        NuevoImplicaLegacy(ruta, init, q);
        ContainsWithin("", l, s, q);
        assert "" + l + s == l + s;
      } else {
        assert Contenido(ps).value == n + (s + "\n");
        ContenidoTerminaEnSalto(init);
        SplitAtNewline(n, s + "\n", q);
        if Contains(n, q) {
          NuevoImplicaLegacy(ruta, init, q);
          ContainsWithin("", l, s, q);
          assert "" + l + s == l + s;
        } else {
          DropNewline(s, q);
          ContainsWithin(l, s, "", q);
          assert l + s + "" == l + s;
        }
      }
    }
  }

  /** Pages that all have a text never make the old scanner fail. */
  lemma {:induction false} LegacySinFallos(ruta: string, ps: seq<Pagina>)
    requires forall i :: 0 <= i < |ps| ==> ps[i].Texto?
    ensures ContenidoLegacy(ruta, ps).Ok?
    decreases |ps|
  {
    if ps != [] {
      var init := ps[..|ps| - 1];
      assert forall i :: 0 <= i < |init| ==> init[i] == ps[i];
      LegacySinFallos(ruta, init);
    }
  }

  /** The converse fails: the old scanner matches a number across a page break, the new
      one does not. */
  lemma CruceDePagina()
    ensures ContenidoLegacy("a.pdf", [Texto("12"), Texto("34")]) == Ok("1234")
    ensures Contenido([Texto("12"), Texto("34")]) == Some("12\n34\n")
    ensures Contains("1234", "23") && !Contains("12\n34\n", "23")
  {
    var ps := [Texto("12"), Texto("34")];
    assert ps[..1] == [Texto("12")] && ps[..1][..0] == [];
    assert ContenidoLegacy("a.pdf", ps[..1]) == Ok("" + "12");
    assert "" + "12" + "34" == "1234";
    var uno := [Texto("12")];
    assert uno[..0] == [] && uno[0] == Texto("12");
    assert Aporte(Texto("12")) == Some("12" + "\n") && Aporte(Texto("34")) == Some("34" + "\n");
    assert Contenido(uno[..0]) == Some("");
    assert "12" + "\n" == "12\n" && "34" + "\n" == "34\n";
    assert Contenido(uno) == Some("" + "12\n");
    assert ps[1] == Texto("34");
    assert "" + "12\n" + "34\n" == "12\n34\n";
    CruceContains();
  }

  lemma CruceContains()
    ensures Contains("1234", "23") && !Contains("12\n34\n", "23")
  {
    assert "1234"[1..3] == "23";
    OccursContains("1234", "23", 1);
    var t := "12\n34\n";
    assert !Contains(t[6..], "23");
    PasoSinCoincidencia(t, 5, "23");
    assert t[4..][0] == '4';
    PasoSinCoincidencia(t, 4, "23");
    PasoSinCoincidencia(t, 3, "23");
    PasoSinCoincidencia(t, 2, "23");
    PasoSinCoincidencia(t, 1, "23");
    PasoSinCoincidencia(t, 0, "23");
    assert t[0..] == t;
  }

  /** One step of scanning for a needle: no match from `k + 1` on and no match at `k`. */
  lemma PasoSinCoincidencia(t: string, k: int, q: string)
    requires 0 <= k < |t| && !Contains(t[k + 1..], q) && !(q <= t[k..])
    ensures !Contains(t[k..], q)
  {
    assert t[k..][1..] == t[k + 1..];
  }

  /** The sentence the old script appends for one record. */
  function FraseLegacy(numero: string, radicado: string, archivos: seq<string>): string {
    if archivos != [] then
      FOUND_PREFIX + numero + " con radicado " + radicado + " en los archivos: " + Join(", ", archivos)
    else
      LEGACY_NOT_FOUND_PREFIX + numero + " con radicado " + radicado + " en ningun archivo."
  }

  /** The old "found" sentence is the new one; the old "not found" sentence differs from
      the new one (it lacks the accent in "encontró"). */
  lemma FraseLegacyComparada(r: ResultadoBusqueda)
    ensures r.Encontrado() ==> FraseLegacy(r.estado.numero, r.estado.radicado, r.archivosEncontrados) == r.Render()
    ensures !r.Encontrado() ==> FraseLegacy(r.estado.numero, r.estado.radicado, r.archivosEncontrados) != r.Render()
  {
    var vieja := FraseLegacy(r.estado.numero, r.estado.radicado, r.archivosEncontrados);
    if !r.Encontrado() {
      assert vieja[13] == LEGACY_NOT_FOUND_PREFIX[13] == 'o';
      assert r.Render()[13] == NOT_FOUND_PREFIX[13] == 'ó';
    }
  }

  /** `escribir_resultado`: appends the sentence and a blank line to today's report. */
  method EscribirResultadoLegacy(disk: Disk, carpetaRevision: string, numero: string, radicado: string,
                                 archivos: seq<string>, hoy: FechaValida) returns (r: Result<()>)
    modifies disk
    ensures var ruta := PathJoin(carpetaRevision, NombreRevision(hoy));
      && r.Ok? == old(disk.Writable(carpetaRevision, NombreRevision(hoy)))
      && (r.Err? ==> r.error == OsError(ruta) && unchanged(disk))
      && (r.Ok? ==>
        && disk.texts == old(disk.texts)[ruta := (if ruta in old(disk.texts) then old(disk.texts)[ruta] else "")
                                                 + Entrada(FraseLegacy(numero, radicado, archivos))]
        && disk.listings == old(disk.ListingsAfterCreate(carpetaRevision, NombreRevision(hoy)))
        && disk.folders == old(disk.folders) && disk.pdfs == old(disk.pdfs) && disk.locked == old(disk.locked))
  {
    var nombre := NombreRevision(hoy);
    var ruta := PathJoin(carpetaRevision, nombre);
    ghost var previo := if ruta in disk.texts then disk.texts[ruta] else "";
    var ok := disk.Open(carpetaRevision, nombre, false);
    if !ok {
      return Err(OsError(ruta));
    }
    var frase := FraseLegacy(numero, radicado, archivos);
    disk.Write(ruta, frase + "\n");
    disk.Write(ruta, "\n");
    assert previo + (frase + "\n") + "\n" == previo + Entrada(frase);
    r := Ok(());
  }

  /** The sentences of the rows, searched in order, or the first search failure. */
  function FrasesLegacy(listings: map<string, seq<string>>, pdfs: map<string, Documento>, carpetaPdf: string,
                        filas: seq<EstadoProcesal>): (r: Result<seq<string>>)
    ensures r.Ok? ==> |r.value| == |filas|
  {
    if filas == [] then Ok([])
    else
      var fila := filas[|filas| - 1];
      match FrasesLegacy(listings, pdfs, carpetaPdf, filas[..|filas| - 1])
      case Err(e) => Err(e)
      case Ok(frases) =>
        match BuscarLegacy(listings, pdfs, fila.numero, carpetaPdf)
        case Err(e) => Err(e)
        case Ok(archivos) => Ok(frases + [FraseLegacy(fila.numero, fila.radicado, archivos)])
  }

  /** One row of `main`: search the PDF folder for the row's number, then append the
      row's sentence to today's report. Returns the sentence written. */
  method FilaLegacy(disk: Disk, carpetaPdf: string, carpetaRevision: string, fila: EstadoProcesal,
                    hoy: FechaValida) returns (r: Result<string>)
    modifies disk
    requires carpetaPdf != carpetaRevision
    ensures var archivos := old(BuscarLegacy(disk.listings, disk.pdfs, fila.numero, carpetaPdf));
      var ruta := PathJoin(carpetaRevision, NombreRevision(hoy));
      && (archivos.Err? ==> r == Err(archivos.error))
      && (archivos.Ok? ==> (r.Ok? <==> old(disk.Writable(carpetaRevision, NombreRevision(hoy)))))
      && (r.Err? ==> unchanged(disk))
      && (r.Ok? ==>
            && archivos.Ok? && r.value == FraseLegacy(fila.numero, fila.radicado, archivos.value)
            && disk.texts == old(disk.texts)[ruta := (if ruta in old(disk.texts) then old(disk.texts)[ruta] else "")
                                                     + Entrada(r.value)])
      && disk.folders == old(disk.folders) && disk.pdfs == old(disk.pdfs) && disk.locked == old(disk.locked)
      && (carpetaPdf in disk.listings <==> carpetaPdf in old(disk.listings))
      && (carpetaPdf in disk.listings ==> disk.listings[carpetaPdf] == old(disk.listings[carpetaPdf]))
  {
    var archivos := BuscarNumeroEnPdfs(disk, fila.numero, carpetaPdf);
    if archivos.Err? {
      return Err(archivos.error);
    }
    var escrito := EscribirResultadoLegacy(disk, carpetaRevision, fila.numero, fila.radicado, archivos.value, hoy);
    if escrito.Err? {
      return Err(escrito.error);
    }
    r := Ok(FraseLegacy(fila.numero, fila.radicado, archivos.value));
  }

  /** `main` after reading the spreadsheet: the PDF folder and the report folder are
      `pdf` and `revision` under the root, and each row is processed in order. On
      success the report has gained exactly one entry per row, in row order. */
  method MainLegacy(disk: Disk, raiz: string, filas: seq<EstadoProcesal>, hoy: FechaValida) returns (r: Result<()>)
    modifies disk
    ensures filas == [] ==> r.Ok? && unchanged(disk)
    ensures var carpetaPdf, carpetaRevision := PathJoin(raiz, "pdf"), PathJoin(raiz, "revision");
      var ruta := PathJoin(carpetaRevision, NombreRevision(hoy));
      var frases := old(FrasesLegacy(disk.listings, disk.pdfs, carpetaPdf, filas));
      && (filas != [] ==> (r.Ok? <==> frases.Ok? && old(disk.Writable(carpetaRevision, NombreRevision(hoy)))))
      && (r.Ok? && filas != [] ==>
            disk.texts == old(disk.texts)[ruta := (if ruta in old(disk.texts) then old(disk.texts)[ruta] else "")
                                                  + Concat(Entradas(frases.value))])
      && disk.folders == old(disk.folders) && disk.pdfs == old(disk.pdfs) && disk.locked == old(disk.locked)
  {
    if filas == [] {
      return Ok(());
    }
    PathJoinInjective(raiz, "pdf", "revision");
    r := ProcesarFilasLegacy(disk, PathJoin(raiz, "pdf"), PathJoin(raiz, "revision"), filas, hoy);
  }

  /** The row loop of `main`: for each row, search the PDF folder, then append the row's
      sentence to today's report; the first failure ends the run. */
  method ProcesarFilasLegacy(disk: Disk, carpetaPdf: string, carpetaRevision: string, filas: seq<EstadoProcesal>,
                             hoy: FechaValida) returns (r: Result<()>)
    modifies disk
    requires carpetaPdf != carpetaRevision && filas != []
    ensures var ruta := PathJoin(carpetaRevision, NombreRevision(hoy));
      var frases := old(FrasesLegacy(disk.listings, disk.pdfs, carpetaPdf, filas));
      && (r.Ok? <==> frases.Ok? && old(disk.Writable(carpetaRevision, NombreRevision(hoy))))
      && (r.Ok? ==>
            disk.texts == old(disk.texts)[ruta := (if ruta in old(disk.texts) then old(disk.texts)[ruta] else "")
                                                  + Concat(Entradas(frases.value))])
      && disk.folders == old(disk.folders) && disk.pdfs == old(disk.pdfs) && disk.locked == old(disk.locked)
  {
    var nombre := NombreRevision(hoy);
    var ruta := PathJoin(carpetaRevision, nombre);
    ghost var listings0, texts0, pdfs0 := disk.listings, disk.texts, disk.pdfs;
    ghost var escribible := disk.Writable(carpetaRevision, nombre);
    ghost var previo := if ruta in disk.texts then disk.texts[ruta] else "";
    assert filas[..0] == [];
    for i := 0 to |filas|
      invariant disk.folders == old(disk.folders) && disk.pdfs == pdfs0 && disk.locked == old(disk.locked)
      invariant carpetaPdf in disk.listings <==> carpetaPdf in listings0
      invariant carpetaPdf in listings0 ==> disk.listings[carpetaPdf] == listings0[carpetaPdf]
      invariant disk.Writable(carpetaRevision, nombre) == escribible
      invariant FrasesLegacy(listings0, pdfs0, carpetaPdf, filas[..i]).Ok?
      invariant i == 0 ==> disk.texts == texts0
      invariant i > 0 ==> escribible && disk.texts == texts0[ruta := previo
                            + Concat(Entradas(FrasesLegacy(listings0, pdfs0, carpetaPdf, filas[..i]).value))]
    {
      ghost var antes := FrasesLegacy(listings0, pdfs0, carpetaPdf, filas[..i]).value;
      ghost var hasta := previo + Concat(Entradas(antes));
      ghost var busqueda := BuscarLegacy(listings0, pdfs0, filas[i].numero, carpetaPdf);
      FrasesLegacySnoc(listings0, pdfs0, carpetaPdf, filas, i);
      if i == 0 {
        assert antes == [] && Entradas(antes) == [];
        assert hasta == previo + "" == previo;
      }
      assert (if ruta in disk.texts then disk.texts[ruta] else "") == hasta;
      assert BuscarLegacy(disk.listings, disk.pdfs, filas[i].numero, carpetaPdf) == busqueda;
      ghost var textos := disk.texts;
      var fila := FilaLegacy(disk, carpetaPdf, carpetaRevision, filas[i], hoy);
      if fila.Err? {
        if busqueda.Err? {
          FrasesLegacyAborta(listings0, pdfs0, carpetaPdf, filas, i + 1);
        }
        return Err(fila.error);
      }
      InformeCrece(previo, antes, fila.value);
      ghost var nuevas := FrasesLegacy(listings0, pdfs0, carpetaPdf, filas[..i + 1]).value;
      assert nuevas == antes + [fila.value];
      ghost var informe := hasta + Entrada(fila.value);
      assert disk.texts == textos[ruta := informe];
      assert textos[ruta := informe] == texts0[ruta := informe];
    }
    assert filas[..|filas|] == filas;
    r := Ok(());
  }

  /** Appending one entry to a report that holds the entries of `frases` gives the report
      holding the entries of `frases + [f]`. */
  lemma InformeCrece(previo: string, frases: seq<string>, f: string)
    ensures previo + Concat(Entradas(frases)) + Entrada(f) == previo + Concat(Entradas(frases + [f]))
  {
    EntradasSnoc(frases + [f], |frases|);
    assert (frases + [f])[..|frases|] == frases;
    assert (frases + [f])[..|frases| + 1] == frases + [f];
  }

  /** One more row: its search fails, or its sentence is added after the earlier ones. */
  lemma FrasesLegacySnoc(listings: map<string, seq<string>>, pdfs: map<string, Documento>, carpetaPdf: string,
                         filas: seq<EstadoProcesal>, i: int)
    requires 0 <= i < |filas| && FrasesLegacy(listings, pdfs, carpetaPdf, filas[..i]).Ok?
    ensures var busqueda := BuscarLegacy(listings, pdfs, filas[i].numero, carpetaPdf);
      && (busqueda.Err? ==> FrasesLegacy(listings, pdfs, carpetaPdf, filas[..i + 1]) == Err(busqueda.error))
      && (busqueda.Ok? ==>
            FrasesLegacy(listings, pdfs, carpetaPdf, filas[..i + 1])
            == Ok(FrasesLegacy(listings, pdfs, carpetaPdf, filas[..i]).value
                  + [FraseLegacy(filas[i].numero, filas[i].radicado, busqueda.value)]))
  {
    assert filas[..i + 1][..i] == filas[..i];
    assert filas[..i + 1][i] == filas[i];
  }

  /** Once a prefix of the rows fails, the whole run fails with the same error. */
  lemma {:induction false} FrasesLegacyAborta(listings: map<string, seq<string>>, pdfs: map<string, Documento>,
                                               carpetaPdf: string, filas: seq<EstadoProcesal>, k: int)
    requires 0 <= k <= |filas| && FrasesLegacy(listings, pdfs, carpetaPdf, filas[..k]).Err?
    ensures FrasesLegacy(listings, pdfs, carpetaPdf, filas) == FrasesLegacy(listings, pdfs, carpetaPdf, filas[..k])
    decreases |filas| - k
  {
    if k < |filas| {
      assert filas[..k + 1][..k] == filas[..k];
      FrasesLegacyAborta(listings, pdfs, carpetaPdf, filas, k + 1);
    } else {
      assert filas[..k] == filas;
    }
  }
}
