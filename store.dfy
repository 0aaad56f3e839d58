/** The document directory: a map from file name to content and modification
    time, updated in place by every worker. */
module Store {
  import opened Names

  datatype Doc = Doc(content: string, mtime: int)

  type Files = map<string, Doc>

  /** A file is fresh when it was modified at most this many seconds before
      the run started. */
  const FreshnessWindow: int := 300

  /** The test a pass applies to each file, with the `now` it captured once
      at the start of the run. */
  predicate IsFresh(mtime: int, now: int) {
    mtime >= now - FreshnessWindow
  }

  /** `listing` is what `glob("*.txt")` yields at the start of a run: every
      `*.txt` name of the directory, once each, in some order. */
  predicate IsListing(files: Files, listing: seq<string>) {
    (forall i, j :: 0 <= i < j < |listing| ==> listing[i] != listing[j]) &&
    (forall n :: n in listing ==> n in files && IsTxt(n)) &&
    (forall n :: n in files && IsTxt(n) ==> n in listing)
  }

  /** `files` and `other` hold the same entry (or none) under `name`. */
  predicate SameAt(files: Files, other: Files, name: string) {
    (name in files <==> name in other) && (name in files ==> files[name] == other[name])
  }

  /** `str(DATA_ROOT / name)` when the data directory's path is `dir`. */
  function PathOf(dir: string, name: string): string {
    dir + "/" + name
  }

  /** Distinct names in one directory have distinct paths. */
  lemma PathOfInjective(dir: string, a: string, b: string)
    ensures PathOf(dir, a) == PathOf(dir, b) <==> a == b
  {
    if PathOf(dir, a) == PathOf(dir, b) {
      var n := |dir| + 1;
      assert a == PathOf(dir, a)[n..] && b == PathOf(dir, b)[n..];
    }
  }

  /** `disk`, every readable file by its full path, holds the data
      directory `files` under the path `dir`. */
  predicate Mounted(disk: Files, dir: string, files: Files) {
    forall n :: n in files ==> PathOf(dir, n) in disk && disk[PathOf(dir, n)] == files[n]
  }

  class DataRoot {
    var files: Files

    constructor (initial: Files)
      ensures files == initial
    {
      files := initial;
    }

    /** `(DATA_ROOT / name).write_text(content)`: creates or overwrites the
        file, stamping it with the time of the write. */
    method Write(name: string, content: string, mtime: int)
      modifies this
      ensures files == old(files)[name := Doc(content, mtime)]
    {
      files := files[name := Doc(content, mtime)];
    }
  }
}
