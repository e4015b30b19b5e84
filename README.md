# Buscador de estados procesales: a verified model

The system cross-references court case records against the PDF bulletins a court office
publishes. Each record has a case number (`numero`) and a docket (`radicado`). For each
record, every file in the office's `pdf` folder whose name ends in `.pdf` is scanned. A
file matches when the case number occurs, case-sensitively, in the text extracted from its
pages. The matching files are collected in listing order. Each record then becomes one
Spanish sentence in a dated report, `revision/<YYYY-MM-DD>_revision.txt`.

The model covers:

- the result record and its sentence (`Models`);
- the PDF scanner (`PdfProcessing`);
- the report writer (`Reports`);
- the per-office and all-offices orchestration (`Juzgados`);
- the older script-style search (`BuscadorRama`), with the exact differences from the
  newer scanner;
- the migration script that rewrites old launchers (`Migracion`).

The operating system is one mutable object, `FileSystem.Disk`. It holds the folders, the
text files and their contents, the PDF documents as the PDF library reads them, each
folder's listing in OS order, and the paths that refuse to be opened. The code that
changes files becomes methods that `modify` that object. Each such method is proved
against a specification function, and the properties are proved about those functions.

The Python objects that are never changed after `__init__` are datatypes: `PDFProcessor`,
`FileManager`, `JuzgadoManager` and `ConfiguracionJuzgado`. A constructor that can raise
becomes a function or method returning `Result`. Exceptions are `Err` values that carry
the kind of error raised.

Collaborators that cannot be seen become parameters:

- the PDF library is a map from path to `Documento` (the pages, or a failure to open),
  and each page is `Texto(s)`, `SinTexto` (`extract_text()` gives `None`) or `Ilegible`
  (extraction raises);
- `date.today()` is the parameter `hoy`;
- the office configuration is a map from office name to base folder;
- the records database is `BaseDatos`: `None` for a connection failure, otherwise a map
  from collection to records;
- the migration template is the parameter `plantilla`.

Supporting modules:

- `Text`: substring search, suffixes, ASCII lower-casing, `join`, decimal numerals.
- `Seqs`: order-preserving filters.
- `Ordering`: code-point string order and sorting.
- `Dates`: valid dates and their ISO text.
- `Paths`: `os.path.join`.
- `Wrappers`: `Option`, `Result` and the error kinds.

## Model

| member | source | states |
|---|---|---|
| Models.RenderDistinguishesOutcome | buscador_estados/core/models.py:21-35 | The sentence starts with "Se encontró el numero " exactly when the file list is non-empty, and with "No se encontró el número " exactly when it is empty. |
| Models.RenderListsEveryFile | buscador_estados/core/models.py:28-32 | Every matched file name occurs verbatim in the sentence. |
| Models.RenderNamesRecord | buscador_estados/core/models.py:26-35 | Both sentences contain the record's number and its docket. |
| Models.RenderIgnoresDateAndId | buscador_estados/core/models.py:26-35 | Two results with the same number, docket and file list render the same sentence, whatever their search date and record id. |
| Text.ContainsIffOccurs | buscador_estados/core/pdf_processor.py:91 | `q in s` holds exactly when `q` occurs as a contiguous slice of `s` at some index. |
| Text.ContainsWithin | buscador_estados/core/pdf_processor.py:91 | A substring of a piece is a substring of any text built around that piece. |
| Text.Lower | buscador_estados/core/pdf_processor.py:40 | Lower-casing keeps the length and changes exactly the ASCII capitals, each to its lower-case letter. |
| Text.JoinContainsEach | buscador_estados/core/models.py:29 | Every element of a list occurs in its `", ".join`. |
| Text.ConcatAppend | buscador_estados/core/file_manager.py:83-85 | The text written by consecutive writes is compositional: writing `a` then `b` gives the text of `a` followed by the text of `b`. |
| Text.DecimalRoundTrip | buscador_estados/core/file_manager.py:87 | The decimal numeral of a count parses back to that count. |
| Seqs.Filter | buscador_estados/core/pdf_processor.py:38-41 | A comprehension filter never outputs more than its input; every output element is in the input and passes the test; every passing input element is output. |
| Seqs.FilterIsSubsequence | buscador_estados/core/pdf_processor.py:38-41 | A comprehension filter keeps the input order. |
| Seqs.FilterCount | buscador_estados/core/file_manager.py:130-133 | A comprehension filter keeps the multiplicity of each passing element and drops the others. |
| Ordering.Sort | buscador_estados/core/file_manager.py:134 | `list.sort()` on names gives a list sorted in code-point order that is a permutation of its input. |
| Ordering.SortedUnique | buscador_estados/core/file_manager.py:134 | Two sorted permutations of the same names are equal, so the sorted order is fully determined. |
| Dates.IsoOrder | buscador_estados/core/file_manager.py:42 | Comparing two ISO dates that carry the same suffix in string order is the same as comparing the dates. |
| Dates.IsoFormatInjective | buscador_estados/core/file_manager.py:42 | Different valid dates have different ISO texts. |
| Paths.PathJoinInjective | buscador_estados/juzgados/manager.py:41-42 | Joining one folder with two different relative names gives two different paths. |
| Paths.PathJoinEndsWithName | buscador_estados/core/file_manager.py:43 | A path joined from a folder and a relative name is longer than the folder and ends with the name. |
| FileSystem.Disk.Open | buscador_estados/core/file_manager.py:55 | Opening for writing succeeds exactly when the folder exists and the path is not a folder, a PDF or locked. A missing file is created empty and listed last in its folder; mode 'w' empties an existing file; nothing else changes. |
| FileSystem.Disk.Write | buscador_estados/core/file_manager.py:56-57 | A write appends its text to the open file and changes nothing else. |
| FileSystem.Disk.MakeDirs | buscador_estados/core/file_manager.py:26 | `makedirs(exist_ok=True)` succeeds when the folder exists (nothing changes) or when the path is free (an empty listed folder is created). |
| FileSystem.Instantanea.ConArchivo | buscador_estados/core/file_manager.py:80-87 | Writing a whole file changes only that file's text: folders, PDFs, locked paths and every other text stay as they were. |
| FileSystem.Disk.Rename | migrar.py:87 | Renaming a readable file onto a free name moves its content, and changes nothing when it fails. |
| PdfProcessing.ValidarCarpeta | buscador_estados/core/pdf_processor.py:22-28 | On a state of the disk, the scanner is built exactly when the path is a folder. The error is FileNotFound exactly when the path does not exist, and NotADirectory exactly when the path exists but is not a folder (existence is checked first). |
| PdfProcessing.GetPdfFiles | buscador_estados/core/pdf_processor.py:37-46 | The result is a subsequence of the folder listing. A name is in it exactly when it is listed and its lower-cased form ends in ".pdf". A folder that cannot be listed gives []. |
| PdfProcessing.ContenidoAppend | buscador_estados/core/pdf_processor.py:61-69 | The text of two runs of pages is the first run's text followed by the second's, and it fails when either run fails. |
| PdfProcessing.ContenidoFalla | buscador_estados/core/pdf_processor.py:60-73 | Extraction gives None exactly when some page raises. |
| PdfProcessing.PaginaVaciaNoAporta | buscador_estados/core/pdf_processor.py:64-66 | A page with no text, or with empty text, contributes nothing. |
| PdfProcessing.PaginaEnContenido | buscador_estados/core/pdf_processor.py:61-69 | Anything found in one page's text is found in the extracted text of a document that extracts. |
| PdfProcessing.ExtractTextFromPdf | buscador_estados/core/pdf_processor.py:48-73 | The page loop returns None when the file cannot be opened or a page raises. Otherwise it returns each non-empty page text followed by "\n", in page order. |
| PdfProcessing.SearchTextInPdf | buscador_estados/core/pdf_processor.py:75-94 | The result is true exactly when extraction succeeds and the query is a substring of the extracted text. |
| PdfProcessing.Coincidencias | buscador_estados/core/pdf_processor.py:106-116 | The matches never outnumber the PDF files and are a subsequence of the PDF list. A name is a match exactly when it is a PDF file whose text contains the query. |
| PdfProcessing.SearchTextInAllPdfs | buscador_estados/core/pdf_processor.py:96-116 | The loop returns exactly the matches above, in listing order. |
| PdfProcessing.NumeroEnPaginaEsEncontrado | buscador_estados/core/pdf_processor.py:106-116 | A PDF file whose pages all extract, one of which contains the number, is reported. |
| PdfProcessing.IlegibleNoCoincide | buscador_estados/core/pdf_processor.py:86-89 | A file that cannot be opened, or has a page that raises, is never reported. |
| Reports.CrearFileManager | buscador_estados/core/file_manager.py:20-27 | On a state of the disk: the writer is built exactly when the revision folder exists or can be created. A failure is an OS error on that folder and leaves the disk as it was; an existing path changes nothing; otherwise only that folder is added, with an empty listing, and every file stays as it was. |
| Reports.NuevoFileManager | buscador_estados/core/file_manager.py:13-27 | The constructor gives exactly the writer and the new disk described above. |
| Reports.NombreRevision | buscador_estados/core/file_manager.py:42 | The report name is the 10-character ISO date followed by "_revision.txt", and is a relative name. |
| Reports.GetArchivoRevision | buscador_estados/core/file_manager.py:39-43 | No date means today's report; otherwise it is that date's report. |
| Reports.RutaRevisionInjective | buscador_estados/core/file_manager.py:39-43 | Different dates have different report paths. |
| Reports.RevisionesCronologicas | buscador_estados/core/file_manager.py:134 | The string order of report names is the chronological order of their dates. |
| Reports.LeerRevision | buscador_estados/core/file_manager.py:95-120 | Gives "" when the report is missing or unreadable, and its full content otherwise. |
| Reports.EscribirResultado | buscador_estados/core/file_manager.py:45-63 | The write succeeds exactly when the date's report can be opened for appending, and changes nothing when it fails. On success the file gains exactly the sentence, "\n" and "\n", the prior content is kept, and reading back gives the old content followed by that entry. |
| Reports.EscribirResultados | buscador_estados/core/file_manager.py:65-93 | An empty list writes nothing. Otherwise the report dated by the first result holds exactly: header, then one entry per result in order, then the footer with the count. Reading back gives exactly that. |
| Reports.EscribirInforme | buscador_estados/core/file_manager.py:80-87 | Writing to an emptied file leaves exactly header, entries and footer. |
| Reports.EscribirEntradas | buscador_estados/core/file_manager.py:83-85 | The loop appends one sentence-plus-blank-line entry per result, in order. |
| Reports.CuerpoConcat | buscador_estados/core/file_manager.py:83-85 | The entries of two lists of results, written in turn, are the entries of the joined list. |
| Reports.InformeContieneCadaResultado | buscador_estados/core/file_manager.py:80-87 | Every result's sentence appears in the report. |
| Reports.PieCuenta | buscador_estados/core/file_manager.py:87 | Footers for different counts are different, so the footer identifies the count. |
| Reports.GetArchivosRevision | buscador_estados/core/file_manager.py:129-139 | The result is sorted and is a permutation of the listed names ending in "_revision.txt"; a folder that cannot be listed gives []. |
| Reports.ListadoIndependienteDelOrden | buscador_estados/core/file_manager.py:129-135 | The listing of reports does not depend on the order in which the OS lists the folder. |
| Juzgados.Registros | buscador_estados/core/database.py:36-71 | With no connection there are no records. A collection that was never filled gives []; otherwise its records are given in order. |
| Juzgados.CrearConfiguracion | buscador_estados/juzgados/manager.py:29-44 | An unknown office is an error. Otherwise the PDF folder is base/pdf, the revision folder is base/revision, and the collection is the office name. |
| Juzgados.CarpetasDistintas | buscador_estados/juzgados/manager.py:38-44 | An office's base, PDF and revision folders are three different paths. |
| Juzgados.ConstruirManager | buscador_estados/juzgados/manager.py:17-27 | On a state of the disk, the steps run in order: configuration, then the PDF folder check, then the revision folder. An unknown office and a bad PDF folder give their own errors. After a good PDF folder, the manager is built exactly when the revision folder exists or can be created, and the error is otherwise an OS error on it. Any failure leaves the disk as it was. On success the manager holds the office's folders, both folders exist, no file changes, and at most the revision folder is added. |
| Juzgados.NuevoJuzgadoManager | buscador_estados/juzgados/manager.py:17-27 | The constructor gives exactly the manager and the new disk described above. |
| Juzgados.ValidarEstructura | buscador_estados/juzgados/manager.py:46-71 | The check changes nothing. The result is true exactly when base, pdf and revision all exist and the PDF folder lists at least one PDF file. |
| Juzgados.EstructuraValidaTienePdf | buscador_estados/juzgados/manager.py:64-71 | A valid structure has a listable PDF folder holding a PDF name. |
| Juzgados.Resultado | buscador_estados/juzgados/manager.py:95-101 | The result carries the same record and today's date, and is "found" exactly when some listed PDF file's text contains the number. |
| Juzgados.ProcesarEstado | buscador_estados/juzgados/manager.py:85-104 | Computes exactly that result. |
| Juzgados.Resultados | buscador_estados/juzgados/manager.py:123-139 | There is one result per record, and result i is the result for record i. |
| Juzgados.ProcesarTodosLosEstados | buscador_estados/juzgados/manager.py:106-139 | An invalid structure is a RuntimeError, and a missing connection is an error. Otherwise no records give []; otherwise there is one result per record, in record order. |
| Juzgados.ProcesarEstados | buscador_estados/juzgados/manager.py:123-137 | The record loop computes exactly those results. |
| Juzgados.NumEncontrados | buscador_estados/juzgados/manager.py:150 | The found count never exceeds the number of results. |
| Juzgados.NumEncontradosFilter | buscador_estados/juzgados/manager.py:150 | The found count is the number of results that were found. |
| Juzgados.NumEncontradosCero | buscador_estados/juzgados/manager.py:158-165 | The count is 0 exactly when no result was found. |
| Juzgados.ContarEncontrados | buscador_estados/juzgados/manager.py:150 | The counting loop gives the found count. |
| Juzgados.Revision | buscador_estados/juzgados/manager.py:141-172 | On a state of the disk: the review succeeds exactly when the structure is valid, the database answers, and either there are no records or the day's report can be opened. A failure leaves the disk as it was. On success the found count never exceeds the total. Folders, PDFs and locked paths never change, and no file other than the day's report does. |
| Juzgados.Guardado | buscador_estados/juzgados/manager.py:146-151 | With results, it succeeds exactly when the day's report can be opened; a failure changes nothing. Without results it succeeds and writes nothing. Only the day's report can change. |
| Juzgados.RevisionInforme | buscador_estados/juzgados/manager.py:141-172 | A failed review changes nothing. A successful one had a database, and gives (records found, records). It leaves the day's report holding exactly header, one entry per record and footer; with no records, no file changes. |
| Juzgados.EjecutarRevisionCompleta | buscador_estados/juzgados/manager.py:141-172 | The method gives exactly the outcome and the new disk of the review above. |
| Juzgados.GuardarResultados | buscador_estados/juzgados/manager.py:146-151 | It succeeds exactly when the report dated by the results can be opened. A failure is an OS error on that path and changes nothing. A success gives (found, total), and the report then holds exactly header, entries and footer. The new file is listed last in its folder, and nothing else changes. |
| Juzgados.GetJuzgadosDisponibles | buscador_estados/juzgados/manager.py:179-186 | Lists every configured office exactly once. |
| Juzgados.ProcesoJuzgado | buscador_estados/juzgados/manager.py:189-197 | On a state of the disk: an unknown office fails and changes nothing. A success comes from a configured office, with found ≤ total. PDFs and locked paths never change. |
| Juzgados.ProcesoJuzgadoInforme | buscador_estados/juzgados/manager.py:189-197 | Stated on the disk before the manager is built: a failed office run changes no file. A successful one gives (records found, records) for that office's records, scanned in its PDF folder. Its report then holds exactly header, entries and footer; with no records, no file changes. |
| Juzgados.ResultadosMismaCarpeta | buscador_estados/juzgados/manager.py:17-27 | Creating the revision folder leaves the PDF folder's listing, and so every result, as it was. |
| Juzgados.ProcesarJuzgado | buscador_estados/juzgados/manager.py:189-197 | The method gives exactly the outcome and the new disk of the office run above. |
| Juzgados.ProcesoTodos | buscador_estados/juzgados/manager.py:208-215 | One outcome per office. PDFs and locked paths never change. |
| Juzgados.ProcesoTodosPaso | buscador_estados/juzgados/manager.py:208-215 | Office i's outcome is that of the single-office run on the disk the offices before it left. A failure does not stop the loop. |
| Juzgados.NumExitosos | buscador_estados/juzgados/manager.py:212 | The success count never exceeds the number of offices. |
| Juzgados.NumFallidos | buscador_estados/juzgados/manager.py:215 | The failure count never exceeds the number of offices. |
| Juzgados.ExitososMasFallidos | buscador_estados/juzgados/manager.py:208-215 | Every office is counted once, as a success or as a failure. |
| Juzgados.ProcesarTodosLosJuzgados | buscador_estados/juzgados/manager.py:200-217 | Every configured office is processed once, even after failures. The final disk and the per-office outcomes are those of the loop above. The success count is the number of Ok outcomes, the failure count is the number of Err outcomes, and they add up to the number of offices. |
| BuscadorRama.ContenidoLegacy | buscador_rama/search.py:33-35 | Concatenating page texts fails only with the errors a page can raise. |
| BuscadorRama.LegacySinFallos | buscador_rama/search.py:33-35 | Pages that all have a text never make the old scanner fail. |
| BuscadorRama.TextoLegacy | buscador_rama/search.py:32-35 | A file that cannot be opened raises. |
| BuscadorRama.BusquedaLegacy | buscador_rama/search.py:29-38 | The matches are a subsequence of the listing, and each ends exactly in ".pdf". |
| BuscadorRama.BusquedaLegacyMiembros | buscador_rama/search.py:29-38 | A name is a match exactly when it is listed, ends in ".pdf", and its text (pages joined with no separator) contains the number. |
| BuscadorRama.BuscarLegacy | buscador_rama/search.py:28-38 | A folder that cannot be listed raises; otherwise the matches keep listing order. |
| BuscadorRama.BuscarLegacyMiembros | buscador_rama/search.py:28-38 | A successful search had a listable folder. A name is in its answer exactly when the folder lists it, it ends in ".pdf", and its text contains the number. |
| BuscadorRama.ExtraerTextoLegacy | buscador_rama/search.py:32-35 | The page loop computes the old concatenation, with no separator, or its first error. |
| BuscadorRama.BuscarNumeroEnPdfs | buscador_rama/search.py:28-38 | The listing loop computes the old search exactly. |
| BuscadorRama.BusquedaLegacyAborta | buscador_rama/search.py:30-35 | Once one file fails, the whole search fails with that error. |
| BuscadorRama.UnPdfIlegibleAborta | buscador_rama/search.py:32-35 | One unreadable ".pdf" file aborts the search, whatever the other files hold. |
| BuscadorRama.EsPdfLegacyImplicaEsPdf | buscador_rama/search.py:31 | Every name the old suffix test accepts, the new test accepts. |
| BuscadorRama.ExtensionMayuscula | buscador_rama/search.py:31 | The converse fails: "A.PDF" passes only the new test. |
| BuscadorRama.ContenidoTerminaEnSalto | buscador_estados/core/pdf_processor.py:61-69 | The new scanner's text is empty or ends in "\n". |
| BuscadorRama.SplitAtNewline | buscador_rama/search.py:36 | A number with no newline cannot straddle a newline that ends a text. |
| BuscadorRama.NuevoImplicaLegacy | buscador_rama/search.py:33-36 | For a number with no newline, on files whose pages all have text, every match of the new scanner is a match of the old one. |
| BuscadorRama.CruceDePagina | buscador_rama/search.py:33-36 | The converse fails: pages "12" and "34" match "23" in the old scanner ("1234") but not in the new one ("12\n34\n"). |
| BuscadorRama.FraseLegacyComparada | buscador_rama/search.py:43-46 | The old "found" sentence equals the new one. The old "not found" sentence differs from the new one. |
| BuscadorRama.EscribirResultadoLegacy | buscador_rama/search.py:40-47 | Appends exactly the old sentence, "\n" and "\n" to today's report; when the report cannot be opened, nothing changes. |
| BuscadorRama.FrasesLegacy | buscador_rama/search.py:57-61 | When every search succeeds, there is one sentence per row. |
| BuscadorRama.FilaLegacy | buscador_rama/search.py:58-61 | One row: a failed search leaves the disk unchanged; otherwise the row's sentence is appended to the report exactly when the report opens. |
| BuscadorRama.ProcesarFilasLegacy | buscador_rama/search.py:57-61 | The run succeeds exactly when every search succeeds and the report opens. The report then holds its old content followed by one entry per row, in row order. |
| BuscadorRama.MainLegacy | buscador_rama/search.py:49-61 | The PDF folder is root/pdf and the report goes to root/revision. No rows means no change; otherwise the result is as for the row loop. |
| BuscadorRama.FrasesLegacySnoc | buscador_rama/search.py:57-61 | Each further row either ends the run with its search's error, or adds its sentence after the earlier ones. |
| BuscadorRama.FrasesLegacyAborta | buscador_rama/search.py:57-61 | The first failing row decides the run's error. |
| Migracion.AlgunIndicador | migrar.py:66-74 | True exactly when the content contains at least one of the indicators. |
| Migracion.EsArchivoAntiguo | migrar.py:59-78 | A file is old exactly when it reads and contains one of the five indicators; a file that cannot be read is not old. |
| Migracion.ImportaPdfplumberEsAntiguo | migrar.py:66-74 | A launcher that contains "import pdfplumber" is old. |
| Migracion.AntiguoAlExtender | migrar.py:74 | Text added around an old launcher never makes it look new. |
| Migracion.RutaBackup | migrar.py:85 | The backup path is "<file>.backup", a different and longer path. |
| Migracion.MigrarArchivo | migrar.py:81-99 | The file is renamed to its backup only when no backup exists, and an existing backup is never overwritten. The call succeeds exactly when the rename (if needed) and the rewrite succeed, and then the file holds exactly the template. Any failure returns false. |
| Migracion.MainMigracion | migrar.py:102-150 | No launchers gives exit code 1 with nothing changed. Otherwise migrated + up to date + errors equals the number of launchers, and the exit code is 0 exactly when there were no errors. |

## Left out

- Logging (`logger.*`), `print` output and the percentage at buscador_estados/juzgados/manager.py:152, which is floating point and only logged.
- Environment and settings loading, credentials, and the MongoDB client. The records database is `BaseDatos`, and its records are given as already built. The field conversion in `get_estados_procesales` is not modelled (buscador_estados/core/database.py:57-65). It goes through a pandas DataFrame. A field that no document has becomes "". A field that only some documents have is NaN in the others, and `str(...)` turns it into the text "nan".
- `FileSystem.Disk.Write` cannot fail once the file is open. In Python a failing `f.write` (a full disk, an I/O error) raises at buscador_estados/core/file_manager.py:55-57 or 80-87, and the report is left partial or truncated.
- `Juzgados.GetJuzgadosDisponibles`: Python gives the offices in the configuration's insertion order. Here the configuration is a map, so the order is left open.
- `FileSystem.Disk.MakeDirs`: missing parent folders are not created, and the new folder is not added to its parent's listing.
- The PDF library itself: each document is given as its pages, as extraction sees them.
- `Juzgados.ProcesarTodosLosEstados`: the `except` branch (buscador_estados/juzgados/manager.py:128-136) is not reachable in the model, because the scanner already turns every extraction failure into "not found".
- `Text.Lower`: only ASCII capitals are lower-cased; Python's full Unicode case mapping is not modelled.
- `FileSystem.Disk.Rename` leaves folder listings as they were. The migration never lists a folder after renaming.
- `Reports.GetArchivosRevision`: Python's in-place `list.sort()` is modelled as a pure sort on a sequence. `Ordering.SortedUnique` shows the result is the same list.
- `Migracion.MigrarArchivo`: the template text written by the migration is the parameter `plantilla`, not the literal launcher source. Reading with UTF-8 decoding errors is not modelled; file contents are already strings.
- `Migracion.MainMigracion`: the directory scan `*/buscador.py` is the parameter `carpetas`. The contract counts outcomes, but does not say which launcher fell in which tally.
- `BuscadorRama.MainLegacy`: the DataFrame rows are given as records, so a missing `numero` or `radicado` column (a `KeyError`) and non-string cells are not modelled. When a row fails, the entries already written for earlier rows stay in the report; the contract does not describe that state.
- `BuscadorRama.ContenidoLegacy`: a page whose `extract_text()` gives `None` is taken to raise `TypeError` in `contenido += ...`.
- The other scripts (`cli.py`, `main.py`, `actualizar_buscadores.py` and the per-office `buscador.py` scripts) are not part of this model.
