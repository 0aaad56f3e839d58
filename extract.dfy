/** `ExtractCodeWorker`: for every `*.txt` file holding at least one fenced
    block, write the blocks' bodies, separated by blank lines, to
    `{stem}_code.sh`. No freshness test is applied. */
module Extract {
  import opened Text
  import opened Names
  import opened Store
  import opened Completion
  import opened Fences
  import Enrichment

  const ExtractedMessage: string := Marked(Tick, "Code snippets extracted")

  /** The listed file `name` has code to extract from `src`. */
  predicate HasCode(src: Files, name: string) {
    name in src && Snippets(src[name].content) != []
  }

  /** The directory `base` after the turns of `names`, each reading its file
      from `src`. */
  function Extracted(src: Files, base: Files, names: seq<string>, t: int): Files
    decreases |names|
  {
    if names == [] then base
    else
      var k := |names| - 1;
      var prev := Extracted(src, base, names[..k], t);
      if HasCode(src, names[k]) then
        prev[CodeName(Stem(names[k])) := Doc(CodeFile(src[names[k]].content), t)]
      else prev
  }

  /** Turns over `a + b` are turns over `a` followed by turns over `b`. */
  lemma {:induction false} ExtractedAppend(src: Files, base: Files, a: seq<string>, b: seq<string>, t: int)
    ensures Extracted(src, base, a + b, t) == Extracted(src, Extracted(src, base, a, t), b, t)
    decreases |b|
  {
    if b == [] {
      assert a + b == a;
    } else {
      var k := |b| - 1;
      assert (a + b)[..|a + b| - 1] == a + b[..k];
      assert (a + b)[|a + b| - 1] == b[k];
      ExtractedAppend(src, base, a, b[..k], t);
    }
  }

  /** A key that is not the code file of any listed file with code keeps its
      entry; in particular every `*.txt` file is left as it was. */
  lemma {:induction false} ExtractedKeeps(src: Files, base: Files, names: seq<string>, t: int, key: string)
    requires forall j :: 0 <= j < |names| && HasCode(src, names[j]) ==> key != CodeName(Stem(names[j]))
    ensures SameAt(Extracted(src, base, names, t), base, key)
    decreases |names|
  {
    if names != [] {
      var k := |names| - 1;
      ExtractedKeeps(src, base, names[..k], t, key);
    }
  }

  /** Only code files are written: no `*.txt` file changes. */
  lemma ExtractedKeepsText(src: Files, base: Files, names: seq<string>, t: int, key: string)
    requires IsTxt(key)
    ensures SameAt(Extracted(src, base, names, t), base, key)
  {
    forall j | 0 <= j < |names| && HasCode(src, names[j])
      ensures key != CodeName(Stem(names[j]))
    {
      DerivedNamesKinds(Stem(names[j]), "");
    }
    ExtractedKeeps(src, base, names, t, key);
  }

  /** A file with no fenced block can be dropped from the listing: it leaves
      the directory unchanged. */
  lemma ExtractedSkipsFilesWithoutCode(src: Files, base: Files, names: seq<string>, t: int, i: nat)
    requires i < |names| && !HasCode(src, names[i])
    ensures Extracted(src, base, names, t) == Extracted(src, base, Enrichment.Without(names, i), t)
  {
    var pre, post := names[..i], names[i + 1..];
    assert names == (pre + [names[i]]) + post;
    ExtractedAppend(src, base, pre + [names[i]], post, t);
    assert (pre + [names[i]])[..i] == pre;
    ExtractedAppend(src, base, pre, post, t);
  }

  /** A listed file with code, whose stem no later file shares, ends with
      its code file holding exactly its snippets joined by blank lines. */
  lemma ExtractedWrites(src: Files, base: Files, names: seq<string>, t: int, i: nat)
    requires i < |names| && HasCode(src, names[i])
    requires forall j :: i < j < |names| ==> Stem(names[j]) != Stem(names[i])
    ensures var key := CodeName(Stem(names[i]));
            key in Extracted(src, base, names, t) &&
            Extracted(src, base, names, t)[key] == Doc(CodeFile(src[names[i]].content), t)
  {
    var key := CodeName(Stem(names[i]));
    var post := names[i + 1..];
    assert names == names[..i + 1] + post;
    ExtractedAppend(src, base, names[..i + 1], post, t);
    var upto := Extracted(src, base, names[..i + 1], t);
    assert names[..i + 1][..i] == names[..i];
    forall j | 0 <= j < |post| && HasCode(src, post[j])
      ensures key != CodeName(Stem(post[j]))
    {
      assert post[j] == names[i + 1 + j];
      CodeNameInjective(Stem(post[j]), Stem(names[i]));
    }
    ExtractedKeeps(src, upto, post, t, key);
  }

  /** The directory after the first i + 1 turns is the i-th turn applied to
      the directory after the first i. */
  lemma ExtractedUpTo(src: Files, names: seq<string>, t: int, i: nat)
    requires i < |names|
    ensures var prev := Extracted(src, src, names[..i], t);
            Extracted(src, src, names[..i + 1], t) ==
              if HasCode(src, names[i]) then prev[CodeName(Stem(names[i])) := Doc(CodeFile(src[names[i]].content), t)]
              else prev
  {
    assert names[..i + 1][..i] == names[..i];
  }

  /** One loop turn: reads `name` and, when it holds fenced blocks, writes
      their bodies to its code file. */
  method Visit(root: DataRoot, name: string, t: int)
    requires name in root.files
    modifies root
    ensures root.files ==
            if HasCode(old(root.files), name) then old(root.files)[CodeName(Stem(name)) := Doc(CodeFile(old(root.files)[name].content), t)]
            else old(root.files)
  {
    var text := root.files[name].content;
    var snippets := Snippets(text);
    if snippets != [] {
      root.Write(CodeName(Stem(name)), Join("\n\n", snippets), t);
    }
  }

  class ExtractCodeWorker {
    var running: bool
    var emitted: seq<Signal>

    constructor ()
      ensures running && emitted == []
    {
      running := true;
      emitted := [];
    }

    /** `stop()`: only a run that has not started yet is affected. */
    method Stop()
      modifies this
      ensures !running && emitted == old(emitted)
    {
      running := false;
    }

    /** `run()`: visits `listing` (the `*.txt` files at the start of the run,
        in `glob` order); `t` is the modification time written files get. */
    method Run(root: DataRoot, listing: seq<string>, t: int)
      requires IsListing(root.files, listing)
      modifies this, root
      ensures running == old(running)
      ensures old(running) ==>
        root.files == Extracted(old(root.files), old(root.files), listing, t) &&
        emitted == old(emitted) + [Done(ExtractedMessage)]
      ensures !old(running) ==> root.files == old(root.files) && emitted == old(emitted)
    {
      if !running {
        return;
      }
      ghost var src := root.files;
      var i := 0;
      while i < |listing|
        invariant 0 <= i <= |listing|
        invariant root.files == Extracted(src, src, listing[..i], t)
        invariant running && emitted == old(emitted)
      {
        ExtractedKeepsText(src, src, listing[..i], t, listing[i]);
        Visit(root, listing[i], t);
        ExtractedUpTo(src, listing, t, i);
        i := i + 1;
      }
      assert listing[..i] == listing;
      emitted := emitted + [Done(ExtractedMessage)];
    }
  }
}
