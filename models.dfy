/** The records of `buscador_estados/core/models.py`: a case record and the outcome of
    searching for it, with the sentence the report shows for that outcome. */
module Models {
  import opened Wrappers
  import opened Text
  import opened Dates

  /** A case record: its number (searched for) and docket (carried to the report).
      `id` defaults to `None` when a record is built from its two text fields. */
  datatype EstadoProcesal = EstadoProcesal(numero: string, radicado: string, id: Option<string> := None)

  /** One court office: its name, its folders and the database collection of its records. */
  datatype ConfiguracionJuzgado = ConfiguracionJuzgado(nombre: string, carpetaBase: string, carpetaPdf: string,
                                                       carpetaRevision: string, coleccionDb: string)

  const FOUND_PREFIX := "Se encontró el numero "
  const NOT_FOUND_PREFIX := "No se encontró el número "

  /** The files where one record's number was found, on the date of the search. */
  datatype ResultadoBusqueda = ResultadoBusqueda(estado: EstadoProcesal, archivosEncontrados: seq<string>,
                                                 fechaBusqueda: FechaValida)
  {
    predicate Encontrado() {
      |archivosEncontrados| > 0
    }

    /** `str(resultado)`. */
    function Render(): string {
      if Encontrado() then
        FOUND_PREFIX + estado.numero + " con radicado " + estado.radicado
        + " en los archivos: " + Join(", ", archivosEncontrados)
      else
        NOT_FOUND_PREFIX + estado.numero + " con radicado " + estado.radicado + " en ningún archivo."
    }
  }

  /** The sentence says which outcome it reports: it opens with the "found" words exactly
      when some file matched, and with the "not found" words exactly when none did. */
  lemma RenderDistinguishesOutcome(r: ResultadoBusqueda)
    ensures r.Encontrado() <==> FOUND_PREFIX <= r.Render()
    ensures !r.Encontrado() <==> NOT_FOUND_PREFIX <= r.Render()
  {
    var s := r.Render();
    if r.Encontrado() {
      assert s[..|FOUND_PREFIX|] == FOUND_PREFIX;
      assert s[0] != NOT_FOUND_PREFIX[0];
    } else {
      assert s[..|NOT_FOUND_PREFIX|] == NOT_FOUND_PREFIX;
      assert s[0] != FOUND_PREFIX[0];
    }
  }

  /** The sentence reads only the number, the docket and the file list: neither the
      search date nor the record's id changes it. */
  lemma RenderIgnoresDateAndId(a: ResultadoBusqueda, b: ResultadoBusqueda)
    requires a.estado.numero == b.estado.numero && a.estado.radicado == b.estado.radicado
    requires a.archivosEncontrados == b.archivosEncontrados
    ensures a.Render() == b.Render()
  {
  }

  /** Every matched file name appears verbatim in the sentence. */
  lemma RenderListsEveryFile(r: ResultadoBusqueda, i: int)
    requires 0 <= i < |r.archivosEncontrados|
    ensures Contains(r.Render(), r.archivosEncontrados[i])
  {
    var fs := r.archivosEncontrados;
    var head := FOUND_PREFIX + r.estado.numero + " con radicado " + r.estado.radicado + " en los archivos: ";
    JoinContainsEach(", ", fs, i);
    ContainsWithin(head, Join(", ", fs), "", fs[i]);
    assert head + Join(", ", fs) + "" == r.Render();
  }

  /** Both outcomes name the record: its number and its docket appear verbatim. */
  lemma RenderNamesRecord(r: ResultadoBusqueda)
    ensures Contains(r.Render(), r.estado.numero)
    ensures Contains(r.Render(), r.estado.radicado)
  {
    var n, d := r.estado.numero, r.estado.radicado;
    var prefix := if r.Encontrado() then FOUND_PREFIX else NOT_FOUND_PREFIX;
    var tail := if r.Encontrado() then " en los archivos: " + Join(", ", r.archivosEncontrados)
                else " en ningún archivo.";
    assert r.Render() == prefix + n + (" con radicado " + d + tail);
    assert r.Render() == (prefix + n + " con radicado ") + d + tail;
    ContainsSelf(n);
    ContainsWithin(prefix, n, " con radicado " + d + tail, n);
    ContainsSelf(d);
    ContainsWithin(prefix + n + " con radicado ", d, tail, d);
  }
}
