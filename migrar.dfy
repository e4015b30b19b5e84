/** `migrar.py`: rewrites each court's `buscador.py` launcher that still uses the old
    script style, keeping a one-time backup of the original. */
module Migracion {
  import opened Text
  import opened Paths
  import opened FileSystem

  const NOMBRE_BUSCADOR := "buscador.py"
  const BACKUP_SUFFIX := ".backup"

  /** Text fragments found only in launchers of the old style. */
  const INDICADORES_ANTIGUOS: seq<string> := [
    "import pymongo",
    "import pdfplumber",
    "load_dotenv()",
    "cadena_conexion = f\"mongodb+srv",
    "from buscador_rama.search import main"
  ]

  /** `any(indicador in contenido for indicador in indicadores)`. */
  function AlgunIndicador(contenido: string, indicadores: seq<string>): (b: bool)
    ensures b <==> exists i :: 0 <= i < |indicadores| && Contains(contenido, indicadores[i])
  {
    if indicadores == [] then false
    else
      assert forall i :: 0 < i < |indicadores| ==> indicadores[i] == indicadores[1..][i - 1];
      Contains(contenido, indicadores[0]) || AlgunIndicador(contenido, indicadores[1..])
  }

  /** `es_archivo_antiguo(ruta)`: the file reads and contains one of the indicators; a file
      that cannot be read counts as not old. */
  function EsArchivoAntiguo(disk: Disk, ruta: string): (b: bool)
    reads disk
    ensures b ==> disk.Readable(ruta)
    ensures disk.Readable(ruta) ==>
      (b <==> exists i :: 0 <= i < |INDICADORES_ANTIGUOS| && Contains(disk.texts[ruta], INDICADORES_ANTIGUOS[i]))
  {
    disk.Readable(ruta) && AlgunIndicador(disk.texts[ruta], INDICADORES_ANTIGUOS)
  }

  /** A launcher that imports the PDF library directly is old. */
  lemma ImportaPdfplumberEsAntiguo(contenido: string)
    requires Contains(contenido, "import pdfplumber")
    ensures AlgunIndicador(contenido, INDICADORES_ANTIGUOS)
  {
    assert INDICADORES_ANTIGUOS[1] == "import pdfplumber";
  }

  /** The indicator test only looks for fragments: surrounding text never makes an old
      launcher look new. */
  lemma AntiguoAlExtender(a: string, contenido: string, c: string)
    requires AlgunIndicador(contenido, INDICADORES_ANTIGUOS)
    ensures AlgunIndicador(a + contenido + c, INDICADORES_ANTIGUOS)
  {
    var i :| 0 <= i < |INDICADORES_ANTIGUOS| && Contains(contenido, INDICADORES_ANTIGUOS[i]);
    ContainsWithin(a, contenido, c, INDICADORES_ANTIGUOS[i]);
  }

  /** The backup path of a file. */
  function RutaBackup(ruta: string): (b: string)
    ensures |b| > |ruta| && EndsWith(b, BACKUP_SUFFIX)
  {
    ruta + BACKUP_SUFFIX
  }

  /** `migrar_archivo(ruta)` for `ruta = carpeta/nombre`: unless a backup already exists,
      the file is first renamed to its backup; then the file is (re)created holding
      exactly `plantilla`. Any failure returns false and stops the migration there. */
  method MigrarArchivo(disk: Disk, carpeta: string, nombre: string, plantilla: string) returns (ok: bool)
    modifies disk
    ensures var ruta := PathJoin(carpeta, nombre);
      var backup := RutaBackup(ruta);
      var renombrar := !old(disk.Exists(backup));
      var renombrado := renombrar && old(disk.Readable(ruta)) && backup !in old(disk.locked);
      && ok == ((!renombrar || renombrado) && old(disk.Writable(carpeta, nombre)))
      && (renombrar && !renombrado ==> unchanged(disk))
      && (renombrado ==> backup in disk.texts && disk.texts[backup] == old(disk.texts[ruta]))
      && (!renombrar && backup in old(disk.texts) ==> backup in disk.texts && disk.texts[backup] == old(disk.texts[backup]))
      && (ok ==> ruta in disk.texts && disk.texts[ruta] == plantilla)
      && disk.texts - {ruta, backup} == old(disk.texts) - {ruta, backup}
      && disk.folders == old(disk.folders) && disk.pdfs == old(disk.pdfs) && disk.locked == old(disk.locked)
  {
    var ruta := PathJoin(carpeta, nombre);
    var backup := RutaBackup(ruta);
    if !disk.Exists(backup) {
      var renombrado := disk.Rename(ruta, backup);
      if !renombrado {
        return false;
      }
    }
    var abierto := disk.Open(carpeta, nombre, true);
    if !abierto {
      return false;
    }
    disk.Write(ruta, plantilla);
    assert "" + plantilla == plantilla;
    ok := true;
  }

  /** The outcome counts of `main`. */
  datatype Resumen = Resumen(migrados: nat, yaActualizados: nat, errores: nat)

  /** `main`: each launcher found (`carpetas` are the court folders holding a
      `buscador.py`, in the order the directory scan gives them) is migrated when old
      and skipped otherwise. Without launchers the exit code is 1; otherwise every
      launcher is counted exactly once and the exit code is 0 exactly when no migration
      failed. */
  method MainMigracion(disk: Disk, carpetas: seq<string>, plantilla: string) returns (codigo: int, resumen: Resumen)
    modifies disk
    ensures carpetas == [] ==> codigo == 1 && resumen == Resumen(0, 0, 0) && unchanged(disk)
    ensures carpetas != [] ==>
      && resumen.migrados + resumen.yaActualizados + resumen.errores == |carpetas|
      && (codigo == 0 <==> resumen.errores == 0)
      && (codigo == 0 || codigo == 1)
  {
    resumen := Resumen(0, 0, 0);
    if carpetas == [] {
      return 1, resumen;
    }
    for i := 0 to |carpetas|
      invariant resumen.migrados + resumen.yaActualizados + resumen.errores == i
    {
      if EsArchivoAntiguo(disk, PathJoin(carpetas[i], NOMBRE_BUSCADOR)) {
        var ok := MigrarArchivo(disk, carpetas[i], NOMBRE_BUSCADOR, plantilla);
        if ok {
          resumen := resumen.(migrados := resumen.migrados + 1);
        } else {
          resumen := resumen.(errores := resumen.errores + 1);
        }
      } else {
        resumen := resumen.(yaActualizados := resumen.yaActualizados + 1);
      }
    }
    codigo := if resumen.errores == 0 then 0 else 1;
  }
}
