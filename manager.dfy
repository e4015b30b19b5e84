/** `buscador_estados/juzgados/manager.py`: runs the search for one court office (its
    configuration, folder check, one result per case record and the daily report) and
    for every configured office in turn. */
module Juzgados {
  import opened Wrappers
  import opened Seqs
  import opened Dates
  import opened Paths
  import opened FileSystem
  import opened Models
  import opened PdfProcessing
  import opened Reports

  /** The records database: `None` when the connection fails; otherwise the records of
      each collection, a collection that was never filled giving none. */
  type BaseDatos = Option<map<string, seq<EstadoProcesal>>>

  /** `get_estados_procesales(coleccion)` on a connection. */
  function Registros(db: BaseDatos, coleccion: string): (r: Option<seq<EstadoProcesal>>)
    ensures r.None? <==> db.None?
    ensures db.Some? && coleccion !in db.value ==> r == Some([])
    ensures db.Some? && coleccion in db.value ==> r == Some(db.value[coleccion])
  {
    match db
    case None => None
    case Some(colecciones) => Some(if coleccion in colecciones then colecciones[coleccion] else [])
  }

  /** `_crear_configuracion`: an office missing from the configuration is rejected;
      otherwise its folders sit under its base folder and its records are in the
      collection named after it. */
  function CrearConfiguracion(juzgados: map<string, string>, nombre: string): (r: Result<ConfiguracionJuzgado>)
    ensures r.Err? <==> nombre !in juzgados
    ensures r.Err? ==> r.error == UnknownJuzgado(nombre)
    ensures r.Ok? ==>
      && r.value.nombre == nombre && r.value.coleccionDb == nombre
      && r.value.carpetaBase == juzgados[nombre]
      && r.value.carpetaPdf == PathJoin(juzgados[nombre], "pdf")
      && r.value.carpetaRevision == PathJoin(juzgados[nombre], "revision")
  {
    if nombre !in juzgados then Err(UnknownJuzgado(nombre))
    else
      var base := juzgados[nombre];
      Ok(ConfiguracionJuzgado(nombre, base, PathJoin(base, "pdf"), PathJoin(base, "revision"), nombre))
  }

  /** The three folders of an office are three different paths, so the report never lands
      among the PDF files it is built from. */
  lemma CarpetasDistintas(juzgados: map<string, string>, nombre: string)
    requires nombre in juzgados
    ensures var c := CrearConfiguracion(juzgados, nombre).value;
      c.carpetaPdf != c.carpetaRevision && c.carpetaPdf != c.carpetaBase && c.carpetaRevision != c.carpetaBase
  {
    var base := juzgados[nombre];
    PathJoinInjective(base, "pdf", "revision");
    PathJoinEndsWithName(base, "pdf");
    PathJoinEndsWithName(base, "revision");
  }

  /** A manager for one office, with its scanner and its report writer. */
  datatype JuzgadoManager = JuzgadoManager(nombre: string, config: ConfiguracionJuzgado,
                                           pdfProcessor: PdfProcessor, fileManager: FileManager)

  /** `JuzgadoManager(nombre)` on a state of the disk: the configuration, then the scanner
      (which checks the PDF folder), then the report writer (which may create the revision
      folder). The first failure is returned and leaves the disk as it was. */
  function ConstruirManager(s: Instantanea, juzgados: map<string, string>, nombre: string)
    : (res: (Result<JuzgadoManager>, Instantanea))
    ensures nombre !in juzgados ==> res == (Err(UnknownJuzgado(nombre)), s)
    ensures res.0.Err? ==> res.1 == s
    ensures nombre in juzgados ==> var c := CrearConfiguracion(juzgados, nombre).value;
      && (ValidarCarpeta(s, c.carpetaPdf).Err? ==> res.0 == Err(ValidarCarpeta(s, c.carpetaPdf).error))
      && (ValidarCarpeta(s, c.carpetaPdf).Ok? ==>
            && (res.0.Ok? <==> s.Exists(c.carpetaRevision) || c.carpetaRevision !in s.locked)
            && (res.0.Err? ==> res.0.error == OsError(c.carpetaRevision))
            && (res.0.Ok? ==>
                  && res.0.value == JuzgadoManager(nombre, c, PdfProcessor(c.carpetaPdf), FileManager(c.carpetaRevision))
                  && res.1.Exists(c.carpetaPdf) && res.1.Exists(c.carpetaRevision)
                  && res.1.texts == s.texts && res.1.pdfs == s.pdfs && res.1.locked == s.locked
                  && s.folders <= res.1.folders && res.1.folders <= s.folders + {c.carpetaRevision}
                  && res.1.listings - {c.carpetaRevision} == s.listings - {c.carpetaRevision}))
  {
    match CrearConfiguracion(juzgados, nombre)
    case Err(e) => (Err(e), s)
    case Ok(c) =>
      match ValidarCarpeta(s, c.carpetaPdf)
      case Err(e) => (Err(e), s)
      case Ok(procesador) =>
        var (archivos, t) := CrearFileManager(s, c.carpetaRevision);
        match archivos
        case Err(e) => (Err(e), s)
        case Ok(fm) => (Ok(JuzgadoManager(nombre, c, procesador, fm)), t)
  }

  /** `JuzgadoManager(nombre)`. */
  method NuevoJuzgadoManager(disk: Disk, juzgados: map<string, string>, nombre: string)
    returns (r: Result<JuzgadoManager>)
    modifies disk
    ensures (r, disk.Foto()) == old(ConstruirManager(disk.Foto(), juzgados, nombre))
  {
    var config := CrearConfiguracion(juzgados, nombre);
    if config.Err? {
      return Err(config.error);
    }
    var c := config.value;
    var procesador := ValidarCarpeta(disk.Foto(), c.carpetaPdf);
    if procesador.Err? {
      return Err(procesador.error);
    }
    var archivos := NuevoFileManager(disk, c.carpetaRevision);
    if archivos.Err? {
      return Err(archivos.error);
    }
    r := Ok(JuzgadoManager(nombre, c, procesador.value, archivos.value));
  }

  function CarpetasRequeridas(m: JuzgadoManager): seq<string> {
    [m.config.carpetaBase, m.config.carpetaPdf, m.config.carpetaRevision]
  }

  /** The folder structure is usable: the three folders exist and there is a PDF to scan. */
  predicate EstructuraValida(m: JuzgadoManager, s: Instantanea) {
    (forall i :: 0 <= i < |CarpetasRequeridas(m)| ==> s.Exists(CarpetasRequeridas(m)[i]))
    && GetPdfFiles(m.pdfProcessor, s.listings) != []
  }

  /** `validar_estructura`: checks the folders one by one, then the PDF list. */
  method ValidarEstructura(m: JuzgadoManager, disk: Disk) returns (b: bool)
    ensures b == EstructuraValida(m, disk.Foto())
  {
    var carpetas := CarpetasRequeridas(m);
    for i := 0 to |carpetas|
      invariant forall j :: 0 <= j < i ==> disk.Exists(carpetas[j])
    {
      if !disk.Exists(carpetas[i]) {
        return false;
      }
    }
    var archivos := GetPdfFiles(m.pdfProcessor, disk.listings);
    b := archivos != [];
  }

  /** A valid structure has a listed PDF folder holding at least one PDF name. */
  lemma EstructuraValidaTienePdf(m: JuzgadoManager, s: Instantanea)
    requires EstructuraValida(m, s)
    ensures m.pdfProcessor.carpetaPdf in s.listings
    ensures exists i :: 0 <= i < |s.listings[m.pdfProcessor.carpetaPdf]|
                        && EsPdf(s.listings[m.pdfProcessor.carpetaPdf][i])
  {
    var archivos := GetPdfFiles(m.pdfProcessor, s.listings);
    var n := archivos[0];
    assert n in archivos;
    var listado := s.listings[m.pdfProcessor.carpetaPdf];
    var i :| 0 <= i < |listado| && listado[i] == n;
  }

  /** `procesar_estado`'s result: the record with the PDF files whose text holds its number. */
  function Resultado(m: JuzgadoManager, listings: map<string, seq<string>>, pdfs: map<string, Documento>,
                     estado: EstadoProcesal, hoy: FechaValida): (r: ResultadoBusqueda)
    ensures r.estado == estado && r.fechaBusqueda == hoy
    ensures r.Encontrado() <==>
      exists n :: n in GetPdfFiles(m.pdfProcessor, listings)
               && Coincide(pdfs, PathJoin(m.pdfProcessor.carpetaPdf, n), estado.numero)
  {
    var archivos := Coincidencias(m.pdfProcessor, listings, pdfs, estado.numero);
    assert |archivos| > 0 ==> archivos[0] in archivos;
    ResultadoBusqueda(estado, archivos, hoy)
  }

  /** `procesar_estado`. */
  method ProcesarEstado(m: JuzgadoManager, disk: Disk, estado: EstadoProcesal, hoy: FechaValida)
    returns (r: ResultadoBusqueda)
    ensures r == Resultado(m, disk.listings, disk.pdfs, estado, hoy)
  {
    var archivos := SearchTextInAllPdfs(m.pdfProcessor, disk, estado.numero);
    r := ResultadoBusqueda(estado, archivos, hoy);
  }

  /** One result per record, in record order. */
  function Resultados(m: JuzgadoManager, listings: map<string, seq<string>>, pdfs: map<string, Documento>,
                      estados: seq<EstadoProcesal>, hoy: FechaValida): (rs: seq<ResultadoBusqueda>)
    ensures |rs| == |estados|
    ensures forall i :: 0 <= i < |estados| ==> rs[i] == Resultado(m, listings, pdfs, estados[i], hoy)
  {
    seq(|estados|, i requires 0 <= i < |estados| => Resultado(m, listings, pdfs, estados[i], hoy))
  }

  /** `procesar_todos_los_estados`: fails on an invalid structure before reading any
      record, fails when the database cannot be reached, and otherwise gives one result
      per record, result `i` carrying record `i`. */
  method ProcesarTodosLosEstados(m: JuzgadoManager, disk: Disk, db: BaseDatos, hoy: FechaValida)
    returns (r: Result<seq<ResultadoBusqueda>>)
    ensures !EstructuraValida(m, disk.Foto()) ==> r == Err(InvalidStructure(m.nombre))
    ensures EstructuraValida(m, disk.Foto()) && db.None? ==> r == Err(DatabaseUnavailable(m.config.coleccionDb))
    ensures r.Ok? <==> EstructuraValida(m, disk.Foto()) && db.Some?
    ensures r.Ok? ==> var estados := Registros(db, m.config.coleccionDb).value;
      && |r.value| == |estados|
      && (forall i :: 0 <= i < |estados| ==> r.value[i].estado == estados[i] && r.value[i].fechaBusqueda == hoy)
      && r.value == Resultados(m, disk.listings, disk.pdfs, estados, hoy)
  {
    var valida := ValidarEstructura(m, disk);
    if !valida {
      return Err(InvalidStructure(m.nombre));
    }
    var fuente := Registros(db, m.config.coleccionDb);
    if fuente.None? {
      return Err(DatabaseUnavailable(m.config.coleccionDb));
    }
    var estados := fuente.value;
    if estados == [] {
      return Ok([]);
    }
    var resultados := ProcesarEstados(m, disk, estados, hoy);
    return Ok(resultados);
  }

  /** The loop of `procesar_todos_los_estados`: processes the records in order. */
  method ProcesarEstados(m: JuzgadoManager, disk: Disk, estados: seq<EstadoProcesal>, hoy: FechaValida)
    returns (resultados: seq<ResultadoBusqueda>)
    ensures resultados == Resultados(m, disk.listings, disk.pdfs, estados, hoy)
  {
    resultados := [];
    for i := 0 to |estados|
      invariant |resultados| == i
      invariant forall j :: 0 <= j < i ==> resultados[j] == Resultado(m, disk.listings, disk.pdfs, estados[j], hoy)
    {
      var resultado := ProcesarEstado(m, disk, estados[i], hoy);
      resultados := resultados + [resultado];
    }
  }

  /** How many results found their number somewhere. */
  function NumEncontrados(rs: seq<ResultadoBusqueda>): (n: nat)
    ensures n <= |rs|
  {
    if rs == [] then 0
    else NumEncontrados(rs[..|rs| - 1]) + (if rs[|rs| - 1].Encontrado() then 1 else 0)
  }

  /** The count is zero exactly when no result found its number, which is when the run
      reports that nothing was found. */
  lemma {:induction false} NumEncontradosCero(rs: seq<ResultadoBusqueda>)
    ensures NumEncontrados(rs) == 0 <==> forall i :: 0 <= i < |rs| ==> !rs[i].Encontrado()
    decreases |rs|
  {
    if rs != [] {
      var init := rs[..|rs| - 1];
      NumEncontradosCero(init);
      assert forall i :: 0 <= i < |init| ==> init[i] == rs[i];
    }
  }

  /** The count is the number of found results: it equals the length of the found ones. */
  lemma {:induction false} NumEncontradosFilter(rs: seq<ResultadoBusqueda>)
    ensures NumEncontrados(rs) == |Filter((r: ResultadoBusqueda) => r.Encontrado(), rs)|
    decreases |rs|
  {
    var p := (r: ResultadoBusqueda) => r.Encontrado();
    if rs != [] {
      var init := rs[..|rs| - 1];
      NumEncontradosFilter(init);
      assert rs == init + [rs[|rs| - 1]];
      FilterAppend(p, init, [rs[|rs| - 1]]);
      assert [rs[|rs| - 1]][1..] == [];
    }
  }

  /** `sum(1 for r in resultados if r.encontrado)`. */
  method ContarEncontrados(rs: seq<ResultadoBusqueda>) returns (n: nat)
    ensures n == NumEncontrados(rs)
    ensures n <= |rs|
  {
    n := 0;
    for i := 0 to |rs|
      invariant n == NumEncontrados(rs[..i])
    {
      assert rs[..i + 1][..i] == rs[..i];
      if rs[i].Encontrado() {
        n := n + 1;
      }
    }
    assert rs[..|rs|] == rs;
  }

  /** `ejecutar_revision_completa` on a state of the disk: the found count and the total,
      and the disk it leaves. An invalid structure or an unreachable database fails before
      anything is written, and no records write nothing; otherwise the day's report is
      replaced by the header, one entry per record and the footer. */
  function Revision(m: JuzgadoManager, s: Instantanea, db: BaseDatos, hoy: FechaValida)
    : (res: (Result<(nat, nat)>, Instantanea))
    ensures res.0.Err? ==> res.1 == s
    ensures res.0.Ok? <==>
      && EstructuraValida(m, s) && db.Some?
      && (Registros(db, m.config.coleccionDb).value == [] || s.Writable(m.fileManager.carpetaRevision, NombreRevision(hoy)))
    ensures res.0.Ok? ==> res.0.value.0 <= res.0.value.1
    ensures res.1.folders == s.folders && res.1.pdfs == s.pdfs && res.1.locked == s.locked
    ensures res.1.texts - {RutaRevision(m.fileManager, hoy)} == s.texts - {RutaRevision(m.fileManager, hoy)}
  {
    if !EstructuraValida(m, s) then (Err(InvalidStructure(m.nombre)), s)
    else if db.None? then (Err(DatabaseUnavailable(m.config.coleccionDb)), s)
    else
      var estados := Registros(db, m.config.coleccionDb).value;
      Guardado(m.fileManager, s, hoy, Resultados(m, s.listings, s.pdfs, estados, hoy))
  }

  /** The non-empty branch of `ejecutar_revision_completa` on a state of the disk: the
      report of `hoy` is written, then the results are counted. */
  function Guardado(fm: FileManager, s: Instantanea, hoy: FechaValida, rs: seq<ResultadoBusqueda>)
    : (res: (Result<(nat, nat)>, Instantanea))
    ensures res.0.Err? ==> res.1 == s
    ensures res.0.Ok? <==> rs == [] || s.Writable(fm.carpetaRevision, NombreRevision(hoy))
    ensures res.0.Ok? ==> res.0.value.0 <= res.0.value.1
    ensures res.1.folders == s.folders && res.1.pdfs == s.pdfs && res.1.locked == s.locked
    ensures res.1.texts - {RutaRevision(fm, hoy)} == s.texts - {RutaRevision(fm, hoy)}
  {
    if rs == [] then (Ok((0, 0)), s)
    else if !s.Writable(fm.carpetaRevision, NombreRevision(hoy)) then (Err(OsError(RutaRevision(fm, hoy))), s)
    else (Ok((NumEncontrados(rs), |rs|)), s.ConArchivo(fm.carpetaRevision, NombreRevision(hoy), Informe(rs)))
  }

  /** `ejecutar_revision_completa`: processes every record, writes the report only when
      there are results, and gives the found count and the total. */
  method EjecutarRevisionCompleta(m: JuzgadoManager, disk: Disk, db: BaseDatos, hoy: FechaValida)
    returns (r: Result<(nat, nat)>)
    modifies disk
    ensures (r, disk.Foto()) == old(Revision(m, disk.Foto(), db, hoy))
  {
    var procesados := ProcesarTodosLosEstados(m, disk, db, hoy);
    if procesados.Err? {
      return Err(procesados.error);
    }
    var resultados := procesados.value;
    if resultados == [] {
      return Ok((0, 0));
    }
    assert resultados[0].fechaBusqueda == hoy;
    r := GuardarResultados(m.fileManager, disk, resultados);
  }

  /** The non-empty branch of `ejecutar_revision_completa`: writes the report, then counts. */
  method GuardarResultados(fm: FileManager, disk: Disk, rs: seq<ResultadoBusqueda>) returns (r: Result<(nat, nat)>)
    requires rs != []
    modifies disk
    ensures r.Ok? <==> old(disk.Writable(fm.carpetaRevision, NombreRevision(rs[0].fechaBusqueda)))
    ensures r.Err? ==> r.error == OsError(RutaRevision(fm, rs[0].fechaBusqueda)) && unchanged(disk)
    ensures r.Ok? ==> r.value == (NumEncontrados(rs), |rs|)
                      && disk.texts == old(disk.texts)[RutaRevision(fm, rs[0].fechaBusqueda) := Informe(rs)]
                      && disk.listings == old(disk.ListingsAfterCreate(fm.carpetaRevision, NombreRevision(rs[0].fechaBusqueda)))
                      && disk.folders == old(disk.folders) && disk.pdfs == old(disk.pdfs) && disk.locked == old(disk.locked)
  {
    var escrito := EscribirResultados(fm, disk, rs);
    if escrito.Err? {
      return Err(escrito.error);
    }
    var encontrados := ContarEncontrados(rs);
    r := Ok((encontrados, |rs|));
  }

  /** `get_juzgados_disponibles`: every configured office once. The configuration is a map
      here, so the order of the list is left open. */
  method GetJuzgadosDisponibles(juzgados: map<string, string>) returns (nombres: seq<string>)
    ensures |nombres| == |juzgados|
    ensures forall n :: n in nombres <==> n in juzgados
  {
    nombres := [];
    var restantes := juzgados.Keys;
    while restantes != {}
      invariant restantes !! set n | n in nombres
      invariant forall n :: n in juzgados <==> n in restantes || n in nombres
      invariant |nombres| + |restantes| == |juzgados|
      decreases |restantes|
    {
      var n :| n in restantes;
      nombres := nombres + [n];
      restantes := restantes - {n};
    }
  }

  /** `procesar_juzgado(nombre)` on a state of the disk: builds the office's manager, then
      runs its full review on the disk the manager left. */
  function ProcesoJuzgado(s: Instantanea, juzgados: map<string, string>, nombre: string, db: BaseDatos,
                          hoy: FechaValida): (res: (Result<(nat, nat)>, Instantanea))
    ensures nombre !in juzgados ==> res == (Err(UnknownJuzgado(nombre)), s)
    ensures res.0.Ok? ==> nombre in juzgados && res.0.value.0 <= res.0.value.1
    ensures res.1.pdfs == s.pdfs && res.1.locked == s.locked
  {
    var (m, t) := ConstruirManager(s, juzgados, nombre);
    match m
    case Err(e) => (Err(e), s)
    case Ok(manager) => Revision(manager, t, db, hoy)
  }

  /** Creating the revision folder leaves the PDF folder's listing, and so every result,
      as it was. */
  lemma ResultadosMismaCarpeta(m: JuzgadoManager, l1: map<string, seq<string>>, l2: map<string, seq<string>>,
                               pdfs: map<string, Documento>, estados: seq<EstadoProcesal>, hoy: FechaValida)
    requires m.pdfProcessor.carpetaPdf in l1 <==> m.pdfProcessor.carpetaPdf in l2
    requires m.pdfProcessor.carpetaPdf in l1 ==> l1[m.pdfProcessor.carpetaPdf] == l2[m.pdfProcessor.carpetaPdf]
    ensures Resultados(m, l1, pdfs, estados, hoy) == Resultados(m, l2, pdfs, estados, hoy)
  {
    assert GetPdfFiles(m.pdfProcessor, l1) == GetPdfFiles(m.pdfProcessor, l2);
    assert forall i :: 0 <= i < |estados| ==>
      Resultado(m, l1, pdfs, estados[i], hoy) == Resultado(m, l2, pdfs, estados[i], hoy);
  }

  /** A successful review gives the number of records whose number was found and the
      number of records, and leaves the day's report holding exactly the header, one entry
      per record and the footer (no records write nothing). A failed review changes nothing. */
  lemma RevisionInforme(m: JuzgadoManager, s: Instantanea, db: BaseDatos, hoy: FechaValida)
    ensures var (r, t) := Revision(m, s, db, hoy);
      && (r.Err? ==> t == s)
      && (r.Ok? ==>
            && db.Some?
            && var rs := Resultados(m, s.listings, s.pdfs, Registros(db, m.config.coleccionDb).value, hoy);
            && r.value == (NumEncontrados(rs), |rs|)
            && t.texts == (if rs == [] then s.texts else s.texts[RutaRevision(m.fileManager, hoy) := Informe(rs)]))
  {
    if EstructuraValida(m, s) && db.Some? {
      var rs := Resultados(m, s.listings, s.pdfs, Registros(db, m.config.coleccionDb).value, hoy);
      var fm := m.fileManager;
      if rs != [] && s.Writable(fm.carpetaRevision, NombreRevision(hoy)) {
        var t := s.ConArchivo(fm.carpetaRevision, NombreRevision(hoy), Informe(rs));
        assert Revision(m, s, db, hoy) == (Ok((NumEncontrados(rs), |rs|)), t);
        assert t.texts == s.texts[RutaRevision(fm, hoy) := Informe(rs)];
      }
    }
  }

  /** The same for a whole office run, stated on the disk before the manager was built: a
      successful run counts the office's records and writes their report, and a failed run
      changes no file. */
  lemma ProcesoJuzgadoInforme(s: Instantanea, juzgados: map<string, string>, nombre: string, db: BaseDatos,
                              hoy: FechaValida)
    ensures var (r, t) := ProcesoJuzgado(s, juzgados, nombre, db, hoy);
      && (r.Err? ==> t.texts == s.texts)
      && (r.Ok? ==>
            && nombre in juzgados && db.Some?
            && var c := CrearConfiguracion(juzgados, nombre).value;
            var fm := FileManager(c.carpetaRevision);
            var m := JuzgadoManager(nombre, c, PdfProcessor(c.carpetaPdf), fm);
            var rs := Resultados(m, s.listings, s.pdfs, Registros(db, nombre).value, hoy);
            && r.value == (NumEncontrados(rs), |rs|)
            && t.texts == (if rs == [] then s.texts else s.texts[RutaRevision(fm, hoy) := Informe(rs)]))
  {
    var (m, t) := ConstruirManager(s, juzgados, nombre);
    if m.Ok? {
      var c := CrearConfiguracion(juzgados, nombre).value;
      CarpetasDistintas(juzgados, nombre);
      assert t.listings - {c.carpetaRevision} == s.listings - {c.carpetaRevision};
      assert c.carpetaPdf in t.listings <==> c.carpetaPdf in t.listings - {c.carpetaRevision};
      assert c.carpetaPdf in s.listings <==> c.carpetaPdf in s.listings - {c.carpetaRevision};
      RevisionInforme(m.value, t, db, hoy);
      if db.Some? {
        ResultadosMismaCarpeta(m.value, t.listings, s.listings, s.pdfs, Registros(db, nombre).value, hoy);
      }
    }
  }

  /** `procesar_juzgado`: builds the office's manager and runs its review. */
  method ProcesarJuzgado(disk: Disk, juzgados: map<string, string>, nombre: string, db: BaseDatos,
                         hoy: FechaValida) returns (r: Result<(nat, nat)>)
    modifies disk
    ensures (r, disk.Foto()) == old(ProcesoJuzgado(disk.Foto(), juzgados, nombre, db, hoy))
  {
    var manager := NuevoJuzgadoManager(disk, juzgados, nombre);
    if manager.Err? {
      return Err(manager.error);
    }
    r := EjecutarRevisionCompleta(manager.value, disk, db, hoy);
  }

  /** The loop of `procesar_todos_los_juzgados` over `nombres` on a state of the disk: each
      office runs on the disk the previous one left, and a failing office does not stop the
      others. The per-office outcomes, in order, and the final disk. */
  function ProcesoTodos(s: Instantanea, juzgados: map<string, string>, nombres: seq<string>, db: BaseDatos,
                        hoy: FechaValida): (res: (seq<Result<(nat, nat)>>, Instantanea))
    ensures |res.0| == |nombres|
    ensures res.1.pdfs == s.pdfs && res.1.locked == s.locked
    decreases |nombres|
  {
    if nombres == [] then ([], s)
    else
      var (rs, t) := ProcesoTodos(s, juzgados, nombres[..|nombres| - 1], db, hoy);
      var (r, u) := ProcesoJuzgado(t, juzgados, nombres[|nombres| - 1], db, hoy);
      (rs + [r], u)
  }

  /** The outcome of office `i` is that of `procesar_juzgado` on the disk the offices before
      it left. */
  lemma {:induction false} ProcesoTodosPaso(s: Instantanea, juzgados: map<string, string>, nombres: seq<string>,
                                             db: BaseDatos, hoy: FechaValida, i: int)
    requires 0 <= i < |nombres|
    ensures ProcesoTodos(s, juzgados, nombres, db, hoy).0[i]
            == ProcesoJuzgado(ProcesoTodos(s, juzgados, nombres[..i], db, hoy).1, juzgados, nombres[i], db, hoy).0
    decreases |nombres|
  {
    var init := nombres[..|nombres| - 1];
    if i < |nombres| - 1 {
      ProcesoTodosPaso(s, juzgados, init, db, hoy, i);
      assert init[..i] == nombres[..i];
    }
  }

  /** How many offices succeeded. */
  function NumExitosos(rs: seq<Result<(nat, nat)>>): (n: nat)
    ensures n <= |rs|
  {
    if rs == [] then 0
    else NumExitosos(rs[..|rs| - 1]) + (if rs[|rs| - 1].Ok? then 1 else 0)
  }

  /** How many offices failed. */
  function NumFallidos(rs: seq<Result<(nat, nat)>>): (n: nat)
    ensures n <= |rs|
  {
    if rs == [] then 0
    else NumFallidos(rs[..|rs| - 1]) + (if rs[|rs| - 1].Err? then 1 else 0)
  }

  /** Every office is counted once, as a success or as a failure. */
  lemma {:induction false} ExitososMasFallidos(rs: seq<Result<(nat, nat)>>)
    ensures NumExitosos(rs) + NumFallidos(rs) == |rs|
    decreases |rs|
  {
    if rs != [] {
      ExitososMasFallidos(rs[..|rs| - 1]);
    }
  }

  /** `procesar_todos_los_juzgados`: runs every office even when some fail, counting
      successes and failures. */
  method ProcesarTodosLosJuzgados(disk: Disk, juzgados: map<string, string>, db: BaseDatos, hoy: FechaValida)
    returns (nombres: seq<string>, exitosos: nat, fallidos: nat)
    modifies disk
    ensures forall n :: n in nombres <==> n in juzgados
    ensures |nombres| == |juzgados|
    ensures var (rs, final) := old(ProcesoTodos(disk.Foto(), juzgados, nombres, db, hoy));
      && disk.Foto() == final
      && exitosos == NumExitosos(rs) && fallidos == NumFallidos(rs)
    ensures exitosos + fallidos == |juzgados|
  {
    nombres := GetJuzgadosDisponibles(juzgados);
    exitosos, fallidos := 0, 0;
    ghost var inicio := disk.Foto();
    ghost var rs: seq<Result<(nat, nat)>> := [];
    for i := 0 to |nombres|
      invariant (rs, disk.Foto()) == ProcesoTodos(inicio, juzgados, nombres[..i], db, hoy)
      invariant exitosos == NumExitosos(rs) && fallidos == NumFallidos(rs)
      invariant exitosos + fallidos == i
    {
      assert nombres[..i + 1][..i] == nombres[..i];
      var r := ProcesarJuzgado(disk, juzgados, nombres[i], db, hoy);
      assert (rs + [r])[..|rs|] == rs;
      rs := rs + [r];
      if r.Ok? {
        exitosos := exitosos + 1;
      } else {
        fallidos := fallidos + 1;
      }
    }
    assert nombres[..|nombres|] == nombres;
  }
}
