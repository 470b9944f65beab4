/**
 * The filesystem as the processor uses it: parsed catalogues by path and directory
 * listings by path. Reading, listing and writing are the primitives the catalogue
 * repository wraps.
 */
module FileStore {
  import opened Wrappers
  import opened Xliff

  /** No name occurs twice in `names`. */
  predicate Distinct(names: seq<string>) {
    forall i, j | 0 <= i < j < |names| :: names[i] != names[j]
  }

  /** Every directory listing names each entry once, as `readdir` returns it. */
  predicate ListingsDistinct(dirs: map<string, seq<string>>) {
    forall d | d in dirs :: Distinct(dirs[d])
  }

  /**
   * Every entry `n` of a directory `d` is a readable, parsed catalogue stored at
   * `d + "/" + n`. A directory may hold other entries (a subdirectory, a stray file);
   * this is an assumption about a particular store, not something a store keeps.
   */
  ghost predicate ListingsReadable(files: map<string, XlfDocument>, dirs: map<string, seq<string>>) {
    forall d | d in dirs :: forall n | n in dirs[d] :: d + "/" + n in files
  }

  class Store {
    /** Every readable catalogue, already parsed; a path not here fails to read or parse. */
    var files: map<string, XlfDocument>
    /** Every listable directory with its entries in listing order. */
    var dirs: map<string, seq<string>>

    ghost predicate Valid()
      reads this
    {
      ListingsDistinct(dirs)
    }

    constructor (files: map<string, XlfDocument>, dirs: map<string, seq<string>>)
      ensures this.files == files && this.dirs == dirs
      ensures ListingsDistinct(dirs) ==> Valid()
    {
      this.files := files;
      this.dirs := dirs;
    }

    /** Read and parse the catalogue at `path`. */
    method ReadXlfFile(path: string) returns (r: Result<XlfDocument, Error>)
      ensures r.Ok? <==> path in files
      ensures r.Ok? ==> r.value == files[path]
      ensures r.Err? ==> r.error == ReadFailed(path)
    {
      if path in files {
        r := Ok(files[path]);
      } else {
        r := Err(ReadFailed(path));
      }
    }

    /** List the entries of the directory `dir`. */
    method ListFiles(dir: string) returns (r: Result<seq<string>, Error>)
      ensures r.Ok? <==> dir in dirs
      ensures r.Ok? ==> r.value == dirs[dir]
      ensures r.Err? ==> r.error == ListFailed(dir)
    {
      if dir in dirs {
        r := Ok(dirs[dir]);
      } else {
        r := Err(ListFailed(dir));
      }
    }

    /** Serialize `doc` to `path`; the source's write never reports an error. */
    method CreateXlfFile(path: string, doc: XlfDocument)
      modifies this
      ensures files == old(files)[path := doc] && dirs == old(dirs)
      ensures old(Valid()) ==> Valid()
    {
      files := files[path := doc];
    }
  }
}
