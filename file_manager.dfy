/** `buscador_estados/core/file_manager.py`: the daily revision report of one court office,
    stored as `<revision folder>/<YYYY-MM-DD>_revision.txt`. */
module Reports {
  import opened Wrappers
  import opened Text
  import opened Seqs
  import opened Ordering
  import opened Dates
  import opened Paths
  import opened FileSystem
  import opened Models

  const REVISION_SUFFIX := "_revision.txt"
  const HEADER_PREFIX := "=== REVISIÓN DEL "
  const HEADER_SUFFIX := " ===\n\n"
  const FOOTER_PREFIX := "\n=== FIN DE REVISIÓN - "
  const FOOTER_SUFFIX := " estados procesados ===\n"

  /** A report writer bound to one revision folder. */
  datatype FileManager = FileManager(carpetaRevision: string)

  /** `FileManager(carpeta)` on a state of the disk: the writer and the disk it leaves. A
      path that does not exist yet is created as an empty folder; a path that exists,
      folder or not, is taken as it is. */
  function CrearFileManager(s: Instantanea, carpeta: string): (res: (Result<FileManager>, Instantanea))
    ensures res.0.Ok? <==> s.Exists(carpeta) || carpeta !in s.locked
    ensures res.0.Ok? ==> res.0.value == FileManager(carpeta) && res.1.Exists(carpeta)
    ensures res.0.Err? ==> res.0.error == OsError(carpeta) && res.1 == s
    ensures s.Exists(carpeta) ==> res.1 == s
    ensures res.1.texts == s.texts && res.1.pdfs == s.pdfs && res.1.locked == s.locked
    ensures s.folders <= res.1.folders && res.1.folders <= s.folders + {carpeta}
    ensures res.1.listings - {carpeta} == s.listings - {carpeta}
  {
    if s.Exists(carpeta) then (Ok(FileManager(carpeta)), s)
    else if carpeta in s.locked then (Err(OsError(carpeta)), s)
    else (Ok(FileManager(carpeta)), s.(folders := s.folders + {carpeta}, listings := s.listings[carpeta := []]))
  }

  /** `FileManager(carpeta)`. */
  method NuevoFileManager(disk: Disk, carpeta: string) returns (r: Result<FileManager>)
    modifies disk
    ensures (r, disk.Foto()) == old(CrearFileManager(disk.Foto(), carpeta))
  {
    if !disk.Exists(carpeta) {
      var ok := disk.MakeDirs(carpeta);
      if !ok {
        return Err(OsError(carpeta));
      }
    }
    return Ok(FileManager(carpeta));
  }

  /** The report's file name for a date. */
  function NombreRevision(f: FechaValida): (s: string)
    ensures |s| == 10 + |REVISION_SUFFIX|
    ensures EndsWith(s, REVISION_SUFFIX)
    ensures !IsAbsolute(s)
  {
    var iso := IsoFormat(f);
    EndsWithConcat(iso, REVISION_SUFFIX);
    assert '0' <= iso[0] <= '9';
    iso + REVISION_SUFFIX
  }

  /** The report's path for a date. */
  function RutaRevision(fm: FileManager, f: FechaValida): (s: string)
    ensures |s| > |fm.carpetaRevision|
    ensures EndsWith(s, NombreRevision(f))
  {
    PathJoinEndsWithName(fm.carpetaRevision, NombreRevision(f));
    PathJoin(fm.carpetaRevision, NombreRevision(f))
  }

  /** `get_archivo_revision(fecha)`: a missing date means today. */
  function GetArchivoRevision(fm: FileManager, fecha: Option<FechaValida>, hoy: FechaValida): (s: string)
    ensures fecha.None? ==> s == RutaRevision(fm, hoy)
    ensures fecha.Some? ==> s == RutaRevision(fm, fecha.value)
  {
    RutaRevision(fm, fecha.GetOr(hoy))
  }

  /** Each day has its own report: distinct dates never share a path. */
  lemma RutaRevisionInjective(fm: FileManager, f: FechaValida, g: FechaValida)
    ensures RutaRevision(fm, f) == RutaRevision(fm, g) ==> f == g
  {
    PathJoinInjective(fm.carpetaRevision, NombreRevision(f), NombreRevision(g));
    if NombreRevision(f) == NombreRevision(g) {
      assert IsoFormat(f) == NombreRevision(f)[..10];
      assert IsoFormat(g) == NombreRevision(g)[..10];
      IsoFormatInjective(f, g);
    }
  }

  /** Report names sort chronologically: the text order of two names is the order of
      their dates. */
  lemma RevisionesCronologicas(f: FechaValida, g: FechaValida)
    ensures LexLeq(NombreRevision(f), NombreRevision(g)) <==> FechaLeq(f, g)
  {
    IsoOrder(f, g, REVISION_SUFFIX);
  }

  /** One result as the report holds it: its sentence, then a blank line. */
  function Entrada(frase: string): string {
    frase + "\n" + "\n"
  }

  /** The sentences of several results, in order. */
  function Frases(rs: seq<ResultadoBusqueda>): (fs: seq<string>)
    ensures |fs| == |rs|
    ensures forall i :: 0 <= i < |rs| ==> fs[i] == rs[i].Render()
  {
    seq(|rs|, i requires 0 <= i < |rs| => rs[i].Render())
  }

  function Entradas(fs: seq<string>): (es: seq<string>)
    ensures |es| == |fs|
    ensures forall i :: 0 <= i < |fs| ==> es[i] == Entrada(fs[i])
  {
    seq(|fs|, i requires 0 <= i < |fs| => Entrada(fs[i]))
  }

  /** The entries of several results, in order. */
  function Cuerpo(rs: seq<ResultadoBusqueda>): string {
    Concat(Entradas(Frases(rs)))
  }

  function Cabecera(f: FechaValida): string {
    HEADER_PREFIX + IsoFormat(f) + HEADER_SUFFIX
  }

  function Pie(n: nat): string {
    FOOTER_PREFIX + Decimal(n) + FOOTER_SUFFIX
  }

  /** The file `escribir_resultados` leaves: a header dated by the first result, one entry
      per result, and a footer with their number. */
  function Informe(rs: seq<ResultadoBusqueda>): string
    requires rs != []
  {
    Cabecera(rs[0].fechaBusqueda) + Cuerpo(rs) + Pie(|rs|)
  }

  /** The entries of a batch are the entries of its parts: writing a batch at once lays
      down the same text as appending its results one at a time. */
  lemma CuerpoConcat(a: seq<ResultadoBusqueda>, b: seq<ResultadoBusqueda>)
    ensures Cuerpo(a + b) == Cuerpo(a) + Cuerpo(b)
  {
    assert Frases(a + b) == Frases(a) + Frases(b);
    var fa, fb := Frases(a), Frases(b);
    assert Entradas(fa + fb) == Entradas(fa) + Entradas(fb);
    ConcatAppend(Entradas(fa), Entradas(fb));
  }

  lemma EntradasSnoc(fs: seq<string>, i: int)
    requires 0 <= i < |fs|
    ensures Concat(Entradas(fs[..i + 1])) == Concat(Entradas(fs[..i])) + Entrada(fs[i])
  {
    var es := Entradas(fs[..i + 1]);
    assert es[..i] == Entradas(fs[..i]);
    assert es[i] == Entrada(fs[i]);
  }

  /** Every result's sentence is in the report. */
  lemma InformeContieneCadaResultado(rs: seq<ResultadoBusqueda>, i: int)
    requires 0 <= i < |rs|
    ensures Contains(Informe(rs), rs[i].Render())
  {
    var s := rs[i].Render();
    ConcatContainsEach(Entradas(Frases(rs)), i);
    ContainsSelf(s);
    ContainsWithin("", s, "\n" + "\n", s);
    assert "" + s + ("\n" + "\n") == Entrada(s);
    ContainsTrans(Cuerpo(rs), Entrada(s), s);
    ContainsWithin(Cabecera(rs[0].fechaBusqueda), Cuerpo(rs), Pie(|rs|), s);
  }

  /** The footer states the number of results: two footers are equal only for equal counts. */
  lemma PieCuenta(n: nat, m: nat)
    ensures Pie(n) == Pie(m) <==> n == m
  {
    if Pie(n) == Pie(m) {
      var dn, dm := Decimal(n), Decimal(m);
      assert FOOTER_PREFIX + dn + FOOTER_SUFFIX == FOOTER_PREFIX + dm + FOOTER_SUFFIX;
      assert |Pie(n)| == |FOOTER_PREFIX| + |dn| + |FOOTER_SUFFIX|;
      assert |Pie(m)| == |FOOTER_PREFIX| + |dm| + |FOOTER_SUFFIX|;
      assert dn == Pie(n)[|FOOTER_PREFIX|..|FOOTER_PREFIX| + |dn|];
      assert dm == Pie(m)[|FOOTER_PREFIX|..|FOOTER_PREFIX| + |dm|];
      DecimalRoundTrip(n);
      DecimalRoundTrip(m);
    }
  }

  /** `leer_revision(fecha)`: the report's text, or "" when it is missing or cannot be read. */
  function LeerRevision(fm: FileManager, disk: Disk, fecha: Option<FechaValida>, hoy: FechaValida): (s: string)
    reads disk
    ensures !disk.Exists(GetArchivoRevision(fm, fecha, hoy)) ==> s == ""
    ensures disk.Readable(GetArchivoRevision(fm, fecha, hoy)) ==> s == disk.texts[GetArchivoRevision(fm, fecha, hoy)]
    ensures !disk.Readable(GetArchivoRevision(fm, fecha, hoy)) ==> s == ""
  {
    var ruta := GetArchivoRevision(fm, fecha, hoy);
    if !disk.Exists(ruta) then ""
    else if disk.Readable(ruta) then disk.texts[ruta]
    else ""
  }

  /** `escribir_resultado`: appends one result's entry to the report of its date, creating
      the report when it is missing. */
  method EscribirResultado(fm: FileManager, disk: Disk, r: ResultadoBusqueda) returns (res: Result<()>)
    modifies disk
    ensures var ruta := RutaRevision(fm, r.fechaBusqueda);
      && res.Ok? == old(disk.Writable(fm.carpetaRevision, NombreRevision(r.fechaBusqueda)))
      && (res.Err? ==> res.error == OsError(ruta) && unchanged(disk))
      && (res.Ok? ==>
        && disk.texts == old(disk.texts)[ruta := (if ruta in old(disk.texts) then old(disk.texts)[ruta] else "") + Entrada(r.Render())]
        && disk.listings == old(disk.ListingsAfterCreate(fm.carpetaRevision, NombreRevision(r.fechaBusqueda)))
        && disk.folders == old(disk.folders) && disk.pdfs == old(disk.pdfs) && disk.locked == old(disk.locked))
    ensures res.Ok? ==> LeerRevision(fm, disk, Some(r.fechaBusqueda), r.fechaBusqueda)
                        == old(LeerRevision(fm, disk, Some(r.fechaBusqueda), r.fechaBusqueda)) + Entrada(r.Render())
  {
    var nombre := NombreRevision(r.fechaBusqueda);
    var ruta := RutaRevision(fm, r.fechaBusqueda);
    ghost var previo := if ruta in disk.texts then disk.texts[ruta] else "";
    ghost var entrada := Entrada(r.Render());
    var ok := disk.Open(fm.carpetaRevision, nombre, false);
    if !ok {
      return Err(OsError(ruta));
    }
    var linea := r.Render() + "\n";
    disk.Write(ruta, linea);
    disk.Write(ruta, "\n");
    assert previo + linea + "\n" == previo + entrada;
    res := Ok(());
  }

  /** `escribir_resultados`: replaces the report of the first result's date with the header,
      every result's entry and the footer; an empty list writes nothing. */
  method EscribirResultados(fm: FileManager, disk: Disk, rs: seq<ResultadoBusqueda>) returns (res: Result<()>)
    modifies disk
    ensures rs == [] ==> res.Ok? && unchanged(disk)
    ensures rs != [] ==> var ruta := RutaRevision(fm, rs[0].fechaBusqueda);
      && res.Ok? == old(disk.Writable(fm.carpetaRevision, NombreRevision(rs[0].fechaBusqueda)))
      && (res.Err? ==> res.error == OsError(ruta) && unchanged(disk))
      && (res.Ok? ==>
        && disk.texts == old(disk.texts)[ruta := Informe(rs)]
        && disk.listings == old(disk.ListingsAfterCreate(fm.carpetaRevision, NombreRevision(rs[0].fechaBusqueda)))
        && disk.folders == old(disk.folders) && disk.pdfs == old(disk.pdfs) && disk.locked == old(disk.locked))
    ensures rs != [] && res.Ok? ==> LeerRevision(fm, disk, Some(rs[0].fechaBusqueda), rs[0].fechaBusqueda) == Informe(rs)
  {
    if rs == [] {
      return Ok(());
    }
    var fecha := rs[0].fechaBusqueda;
    var nombre := NombreRevision(fecha);
    var ruta := RutaRevision(fm, fecha);
    var ok := disk.Open(fm.carpetaRevision, nombre, true);
    if !ok {
      return Err(OsError(ruta));
    }
    EscribirInforme(disk, ruta, Cabecera(fecha), Frases(rs), Pie(|rs|));
    res := Ok(());
  }

  /** The `with` block of `escribir_resultados` on a freshly emptied file. */
  method EscribirInforme(disk: Disk, ruta: string, cabecera: string, frases: seq<string>, pie: string)
    requires ruta in disk.texts && disk.texts[ruta] == ""
    modifies disk
    ensures disk.texts == old(disk.texts)[ruta := cabecera + Concat(Entradas(frases)) + pie]
    ensures disk.listings == old(disk.listings) && disk.folders == old(disk.folders)
    ensures disk.pdfs == old(disk.pdfs) && disk.locked == old(disk.locked)
  {
    disk.Write(ruta, cabecera);
    assert disk.texts[ruta] == cabecera;
    EscribirEntradas(disk, ruta, frases);
    disk.Write(ruta, pie);
  }

  /** The loop of `escribir_resultados`: appends each result's sentence and a blank line. */
  method EscribirEntradas(disk: Disk, ruta: string, frases: seq<string>)
    requires ruta in disk.texts
    modifies disk
    ensures disk.texts == old(disk.texts)[ruta := old(disk.texts)[ruta] + Concat(Entradas(frases))]
    ensures disk.listings == old(disk.listings) && disk.folders == old(disk.folders)
    ensures disk.pdfs == old(disk.pdfs) && disk.locked == old(disk.locked)
  {
    ghost var previo := disk.texts[ruta];
    assert previo + Concat(Entradas(frases[..0])) == previo;
    for i := 0 to |frases|
      invariant disk.texts == old(disk.texts)[ruta := previo + Concat(Entradas(frases[..i]))]
      invariant disk.listings == old(disk.listings) && disk.folders == old(disk.folders)
      invariant disk.pdfs == old(disk.pdfs) && disk.locked == old(disk.locked)
    {
      ghost var antes := Concat(Entradas(frases[..i]));
      EntradasSnoc(frases, i);
      var linea := frases[i] + "\n";
      assert previo + antes + linea + "\n" == previo + Concat(Entradas(frases[..i + 1]));
      disk.Write(ruta, linea);
      disk.Write(ruta, "\n");
    }
    assert frases[..|frases|] == frases;
  }

  predicate EsRevision(nombre: string) {
    EndsWith(nombre, REVISION_SUFFIX)
  }

  /** `get_archivos_revision`: the report names of the folder, sorted; a folder that cannot
      be listed gives none. */
  function GetArchivosRevision(fm: FileManager, listings: map<string, seq<string>>): (r: seq<string>)
    ensures Sorted(r)
    ensures fm.carpetaRevision !in listings ==> r == []
    ensures fm.carpetaRevision in listings ==>
      multiset(r) == multiset(Filter(EsRevision, listings[fm.carpetaRevision]))
    ensures forall n :: n in r <==> fm.carpetaRevision in listings && n in listings[fm.carpetaRevision] && EsRevision(n)
  {
    if fm.carpetaRevision !in listings then []
    else
      var archivos := Filter(EsRevision, listings[fm.carpetaRevision]);
      var r := Sort(archivos);
      assert forall n :: n in r <==> n in multiset(archivos);
      r
  }

  /** The answer does not depend on the order in which the operating system lists the
      folder, only on which names it holds. */
  lemma ListadoIndependienteDelOrden(fm: FileManager, l1: map<string, seq<string>>, l2: map<string, seq<string>>)
    requires fm.carpetaRevision in l1 && fm.carpetaRevision in l2
    requires multiset(l1[fm.carpetaRevision]) == multiset(l2[fm.carpetaRevision])
    ensures GetArchivosRevision(fm, l1) == GetArchivosRevision(fm, l2)
  {
    var a1, a2 := l1[fm.carpetaRevision], l2[fm.carpetaRevision];
    forall x
      ensures multiset(Filter(EsRevision, a1))[x] == multiset(Filter(EsRevision, a2))[x]
    {
      FilterCount(EsRevision, a1, x);
      FilterCount(EsRevision, a2, x);
    }
    assert multiset(Filter(EsRevision, a1)) == multiset(Filter(EsRevision, a2));
    SortedUnique(GetArchivosRevision(fm, l1), GetArchivosRevision(fm, l2));
  }
}
