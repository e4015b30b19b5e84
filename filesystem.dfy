/** The part of the operating system the pipeline touches: folders, text files, PDF
    documents as the PDF library reads them, folder listings, and paths that refuse
    to be opened. */
module FileSystem {
  import opened Paths

  /** What `page.extract_text()` gives for one page: a text, `None`, or an exception. */
  datatype Pagina = Texto(s: string) | SinTexto | Ilegible

  /** What `pdfplumber.open(path)` gives: the pages, or an exception. */
  datatype Documento = Legible(paginas: seq<Pagina>) | Corrupto

  /** The state of the disk at one moment, as a value. */
  datatype Instantanea = Instantanea(folders: set<string>, texts: map<string, string>, pdfs: map<string, Documento>,
                                     listings: map<string, seq<string>>, locked: set<string>)
  {
    /** `os.path.exists(p)`. */
    predicate Exists(p: string) {
      p in folders || p in texts || p in pdfs
    }

    /** `open(p, 'r')` succeeds. */
    predicate Readable(p: string) {
      p in texts && p !in locked
    }

    /** `open(os.path.join(folder, name), 'w' or 'a')` succeeds. */
    predicate Writable(folder: string, name: string) {
      var p := PathJoin(folder, name);
      folder in folders && p !in folders && p !in pdfs && p !in locked
    }

    /** The listings once `name` exists in `folder`: a new file is listed last. */
    function ListingsAfterCreate(folder: string, name: string): map<string, seq<string>> {
      if PathJoin(folder, name) !in texts && folder in listings
      then listings[folder := listings[folder] + [name]]
      else listings
    }

    /** The state once `os.path.join(folder, name)` has been opened for writing and holds
        exactly `contenido`. */
    function ConArchivo(folder: string, name: string, contenido: string): (t: Instantanea)
      ensures t.folders == folders && t.pdfs == pdfs && t.locked == locked
      ensures t.texts - {PathJoin(folder, name)} == texts - {PathJoin(folder, name)}
    {
      this.(texts := texts[PathJoin(folder, name) := contenido], listings := ListingsAfterCreate(folder, name))
    }
  }

  class Disk {
    var folders: set<string>
    var texts: map<string, string>          // text files and their contents
    var pdfs: map<string, Documento>        // PDF files, as the PDF library reads them
    var listings: map<string, seq<string>>  // `os.listdir(folder)`, in the order the OS lists it;
                                            // a folder absent here cannot be listed
    var locked: set<string>                 // paths that cannot be opened, renamed or created

    constructor (folders: set<string>, texts: map<string, string>, pdfs: map<string, Documento>,
                 listings: map<string, seq<string>>, locked: set<string>)
      ensures this.folders == folders && this.texts == texts && this.pdfs == pdfs
      ensures this.listings == listings && this.locked == locked
    {
      this.folders, this.texts, this.pdfs := folders, texts, pdfs;
      this.listings, this.locked := listings, locked;
    }

    /** The whole state, as a value. */
    function Foto(): Instantanea
      reads this
    {
      Instantanea(folders, texts, pdfs, listings, locked)
    }

    /** The tests of `Instantanea`, on the current state. */
    predicate Exists(p: string)
      reads this
    {
      Foto().Exists(p)
    }

    predicate Readable(p: string)
      reads this
    {
      Foto().Readable(p)
    }

    predicate Writable(folder: string, name: string)
      reads this
    {
      Foto().Writable(folder, name)
    }

    function ListingsAfterCreate(folder: string, name: string): map<string, seq<string>>
      reads this
    {
      Foto().ListingsAfterCreate(folder, name)
    }

    /** `open(os.path.join(folder, name), 'w' if truncate else 'a')`: creates the file when it
        is missing (listing it in its folder), empties it when `truncate`. */
    method Open(folder: string, name: string, truncate: bool) returns (ok: bool)
      modifies this
      ensures ok == old(Writable(folder, name))
      ensures !ok ==> unchanged(this)
      ensures ok ==> var p := PathJoin(folder, name);
        && texts == old(texts)[p := if truncate || p !in old(texts) then "" else old(texts)[p]]
        && listings == old(ListingsAfterCreate(folder, name))
        && folders == old(folders) && pdfs == old(pdfs) && locked == old(locked)
    {
      ok := Writable(folder, name);
      if ok {
        var p := PathJoin(folder, name);
        if p !in texts && folder in listings {
          listings := listings[folder := listings[folder] + [name]];
        }
        texts := texts[p := if truncate || p !in texts then "" else texts[p]];
      }
    }

    /** `f.write(text)` on a file opened at `p`. */
    method Write(p: string, text: string)
      requires p in texts
      modifies this
      ensures texts == old(texts)[p := old(texts)[p] + text]
      ensures folders == old(folders) && pdfs == old(pdfs)
      ensures listings == old(listings) && locked == old(locked)
    {
      texts := texts[p := texts[p] + text];
    }

    /** `os.makedirs(p, exist_ok=True)`. Only `p` itself is modelled: missing parent folders
        are not created, and `p` is not added to its parent's listing. */
    method MakeDirs(p: string) returns (ok: bool)
      modifies this
      ensures ok == (p in old(folders) || (!old(Exists(p)) && p !in old(locked)))
      ensures !ok || p in old(folders) ==> unchanged(this)
      ensures ok && p !in old(folders) ==>
        && folders == old(folders) + {p}
        && listings == old(listings)[p := []]
        && texts == old(texts) && pdfs == old(pdfs) && locked == old(locked)
    {
      if p in folders {
        ok := true;
      } else if Exists(p) || p in locked {
        ok := false;
      } else {
        folders := folders + {p};
        listings := listings[p := []];
        ok := true;
      }
    }

    /** `os.rename(src, dst)` of a text file onto a free name. */
    method Rename(src: string, dst: string) returns (ok: bool)
      modifies this
      ensures ok == old(Readable(src) && !Exists(dst) && dst !in locked)
      ensures !ok ==> unchanged(this)
      ensures ok ==>
        && texts == old(texts - {src})[dst := old(texts)[src]]
        && folders == old(folders) && pdfs == old(pdfs)
        && listings == old(listings) && locked == old(locked)
    {
      ok := Readable(src) && !Exists(dst) && dst !in locked;
      if ok {
        texts := (texts - {src})[dst := texts[src]];
      }
    }
  }
}
