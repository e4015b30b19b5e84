/** Optional values, results and the exceptions the pipeline raises or catches. */
module Wrappers {

  datatype Option<+T> = None | Some(value: T) {
    /** The value, or `default` when there is none (Python's `x if x is not None else d`). */
    function GetOr(default: T): T {
      match this
      case Some(v) => v
      case None => default
    }
  }

  /** The exceptions of the modelled code, by the condition that raises them. */
  datatype Error =
    | FileNotFound(path: string)          // FileNotFoundError
    | NotADirectory(path: string)         // NotADirectoryError
    | UnknownJuzgado(nombre: string)      // ValueError("Juzgado no encontrado")
    | InvalidStructure(nombre: string)    // RuntimeError("Estructura inválida")
    | DatabaseUnavailable(coleccion: string)
    | OsError(path: string)               // open/write/rename/makedirs/listdir failures
    | PdfError(path: string)              // the PDF library could not read a document
    | TypeError(path: string)             // `str += None` on a page without text

  datatype Result<+T> = Ok(value: T) | Err(error: Error)
}
