/** `IndexWorker`: rebuilds the full-text table `docs(path, content)` so that
    it holds one row per `*.txt` file of the directory and nothing else. */
module SearchIndex {
  import opened Wrappers
  import opened Names
  import opened Store
  import opened Completion

  const IndexedMessage: string := Marked(Tick, "Searchable index built")

  datatype Row = Row(path: string, content: string)

  /** The table: None while it has not been created. */
  class Table {
    var docs: Option<seq<Row>>

    constructor ()
      ensures docs == None
    {
      docs := None;
    }

    /** `CREATE VIRTUAL TABLE IF NOT EXISTS docs ...` */
    method CreateIfAbsent()
      modifies this
      ensures docs == if old(docs).None? then Some([]) else old(docs)
    {
      if docs.None? {
        docs := Some([]);
      }
    }

    /** `DELETE FROM docs` */
    method DeleteAll()
      requires docs.Some?
      modifies this
      ensures docs == Some([])
    {
      docs := Some([]);
    }

    /** `INSERT INTO docs VALUES (?, ?)` */
    method Insert(row: Row)
      requires docs.Some?
      modifies this
      ensures docs == Some(old(docs).value + [row])
    {
      docs := Some(docs.value + [row]);
    }
  }

  /** The rows of the listed files, in listing order. */
  function Rows(dir: string, files: Files, names: seq<string>): (rows: seq<Row>)
    requires forall n :: n in names ==> n in files
    ensures |rows| == |names|
    ensures forall k :: 0 <= k < |names| ==> rows[k] == Row(PathOf(dir, names[k]), files[names[k]].content)
  {
    if names == [] then []
    else
      var k := |names| - 1;
      Rows(dir, files, names[..k]) + [Row(PathOf(dir, names[k]), files[names[k]].content)]
  }

  /** No element of `s` occurs twice. */
  ghost predicate Distinct<T>(s: seq<T>) {
    forall i, j :: 0 <= i < j < |s| ==> s[i] != s[j]
  }

  /** `r` is the path and content of a `*.txt` file of the directory. */
  ghost predicate TxtRow(dir: string, files: Files, r: Row) {
    exists n :: n in files && IsTxt(n) && r == Row(PathOf(dir, n), files[n].content)
  }

  /** After a rebuild over a listing of the directory, the table holds one
      row per `*.txt` file, no two rows share a path, and a row is in the
      table exactly when it is the path and content of a `*.txt` file. */
  lemma RowsOfListing(dir: string, files: Files, listing: seq<string>)
    requires IsListing(files, listing)
    ensures var rows := Rows(dir, files, listing);
            (forall i, j :: 0 <= i < j < |rows| ==> rows[i].path != rows[j].path) &&
            forall r :: r in rows <==> TxtRow(dir, files, r)
  {
    var rows := Rows(dir, files, listing);
    forall i, j | 0 <= i < j < |rows|
      ensures rows[i].path != rows[j].path
    {
      PathOfInjective(dir, listing[i], listing[j]);
    }
    RowsMembers(dir, files, listing);
  }

  /** A row is in a rebuild exactly when it is the row of a `*.txt` file. */
  lemma RowsMembers(dir: string, files: Files, listing: seq<string>)
    requires IsListing(files, listing)
    ensures forall r :: r in Rows(dir, files, listing) <==> TxtRow(dir, files, r)
  {
    var rows := Rows(dir, files, listing);
    forall r
      ensures r in rows <==> TxtRow(dir, files, r)
    {
      if TxtRow(dir, files, r) {
        var n :| n in files && IsTxt(n) && r == Row(PathOf(dir, n), files[n].content);
        var k :| 0 <= k < |listing| && listing[k] == n;
        assert rows[k] == r;
      }
    }
  }

  /** The rows of a listing are pairwise distinct, since their paths are. */
  lemma RowsDistinct(dir: string, files: Files, listing: seq<string>)
    requires IsListing(files, listing)
    ensures Distinct(Rows(dir, files, listing))
  {
    var rows := Rows(dir, files, listing);
    forall i, j | 0 <= i < j < |rows|
      ensures rows[i] != rows[j]
    {
      assert rows[i].path == PathOf(dir, listing[i]) && rows[j].path == PathOf(dir, listing[j]);
      assert listing[i] != listing[j];
      PathOfInjective(dir, listing[i], listing[j]);
    }
  }

  /** The rebuilt table does not depend on the order `glob` lists the files
      in: two listings of the same directory give the same rows. */
  lemma RowsIgnoreOrder(dir: string, files: Files, a: seq<string>, b: seq<string>)
    requires IsListing(files, a) && IsListing(files, b)
    ensures multiset(Rows(dir, files, a)) == multiset(Rows(dir, files, b))
  {
    var ra, rb := Rows(dir, files, a), Rows(dir, files, b);
    assert Distinct(ra) by {
      RowsDistinct(dir, files, a);
    }
    assert Distinct(rb) by {
      RowsDistinct(dir, files, b);
    }
    assert forall r :: r in ra <==> r in rb by {
      RowsMembers(dir, files, a);
      RowsMembers(dir, files, b);
    }
    DistinctMultiset(ra, rb);
  }

  /** In a duplicate-free sequence every element occurs once. */
  lemma {:induction false} DistinctCount<T>(a: seq<T>, x: T)
    requires Distinct(a)
    ensures multiset(a)[x] == if x in a then 1 else 0
    decreases |a|
  {
    if a != [] {
      var a' := a[..|a| - 1];
      assert a == a' + [a[|a| - 1]];
      assert a[|a| - 1] !in a';
      DistinctCount(a', x);
    }
  }

  /** Two duplicate-free sequences with the same elements are permutations
      of each other. */
  lemma DistinctMultiset<T>(a: seq<T>, b: seq<T>)
    requires Distinct(a) && Distinct(b)
    requires forall x :: x in a <==> x in b
    ensures multiset(a) == multiset(b)
  {
    forall x
      ensures multiset(a)[x] == multiset(b)[x]
    {
      DistinctCount(a, x);
      DistinctCount(b, x);
    }
  }

  class IndexWorker {
    var running: bool
    var emitted: seq<Signal>

    constructor ()
      ensures running && emitted == []
    {
      running := true;
      emitted := [];
    }

    /** `stop()`: only a run that has not started yet is affected. */
    method Stop()
      modifies this
      ensures !running && emitted == old(emitted)
    {
      running := false;
    }

    /** `run()`: creates the table if needed, empties it, and inserts the
        path and content of every file of `listing` (the `*.txt` files of
        `root`, whose path is `dir`, in `glob` order). Whatever the table
        held before is gone. */
    method Run(root: DataRoot, dir: string, table: Table, listing: seq<string>)
      requires IsListing(root.files, listing)
      modifies this, table
      ensures running == old(running)
      ensures old(running) ==>
        table.docs == Some(Rows(dir, root.files, listing)) &&
        emitted == old(emitted) + [Done(IndexedMessage)]
      ensures !old(running) ==> table.docs == old(table.docs) && emitted == old(emitted)
    {
      if !running {
        return;
      }
      table.CreateIfAbsent();
      table.DeleteAll();
      var i := 0;
      while i < |listing|
        invariant 0 <= i <= |listing|
        invariant table.docs == Some(Rows(dir, root.files, listing[..i]))
        invariant running && emitted == old(emitted)
      {
        var name := listing[i];
        table.Insert(Row(PathOf(dir, name), root.files[name].content));
        assert listing[..i + 1][..i] == listing[..i];
        i := i + 1;
      }
      assert listing[..i] == listing;
      emitted := emitted + [Done(IndexedMessage)];
    }
  }
}
