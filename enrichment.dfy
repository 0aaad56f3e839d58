/** The shape shared by the Summarize and Classify passes: visit the listed
    files in order, and for each one look at the directory as it is at that
    moment, maybe post one completion request, and maybe write one derived
    file. What a pass does to one file is a `Step`; the request it posts for
    a file, if any, is a `Query`. */
module Enrichment {
  import opened Wrappers
  import opened Store
  import opened Completion
  import Text

  /** The directory after one file's turn, from the directory before it, the
      file's name and the endpoint's reply for it. */
  type Step = (Files, string, Reply) -> Files

  /** The request posted on one file's turn; None when the file is skipped
      before any request is made. */
  type Query = (Files, string) -> Option<Request>

  function OptionToSeq<T>(o: Option<T>): (r: seq<T>)
    ensures |r| <= 1
    ensures o.Some? ==> r == [o.value]
    ensures o.None? ==> r == []
  {
    if o.Some? then [o.value] else []
  }

  /** `s` with its i-th element removed. */
  function Without<T>(s: seq<T>, i: nat): (r: seq<T>)
    requires i < |s|
    ensures |r| == |s| - 1
  {
    s[..i] + s[i + 1..]
  }

  /** The directory after the turns of `names`, the i-th file getting the
      reply `replies[i]`. */
  function Pass(step: Step, files: Files, names: seq<string>, replies: seq<Reply>): Files
    requires |names| == |replies|
    decreases |names|
  {
    if names == [] then files
    else
      var k := |names| - 1;
      step(Pass(step, files, names[..k], replies[..k]), names[k], replies[k])
  }

  /** The requests posted during those turns, in order. */
  function Posted(step: Step, query: Query, files: Files, names: seq<string>, replies: seq<Reply>): seq<Request>
    requires |names| == |replies|
    decreases |names|
  {
    if names == [] then []
    else
      var k := |names| - 1;
      Posted(step, query, files, names[..k], replies[..k]) +
      OptionToSeq(query(Pass(step, files, names[..k], replies[..k]), names[k]))
  }

  /** A pass over `a + b` is a pass over `a` and then one over `b`. */
  lemma {:induction false} PassAppend(step: Step, files: Files,
                                      a: seq<string>, ra: seq<Reply>, b: seq<string>, rb: seq<Reply>)
    requires |a| == |ra| && |b| == |rb|
    ensures Pass(step, files, a + b, ra + rb) == Pass(step, Pass(step, files, a, ra), b, rb)
    decreases |b|
  {
    var ab, rab := a + b, ra + rb;
    if b == [] {
      assert ab == a && rab == ra;
    } else {
      var k := |b| - 1;
      assert ab[..|ab| - 1] == a + b[..k];
      assert rab[..|rab| - 1] == ra + rb[..k];
      assert ab[|ab| - 1] == b[k] && rab[|rab| - 1] == rb[k];
      PassAppend(step, files, a, ra, b[..k], rb[..k]);
    }
  }

  /** The requests of a pass over `a + b` are those of the pass over `a`
      followed by those of the pass over `b` that starts where it ended. */
  lemma {:induction false} PostedAppend(step: Step, query: Query, files: Files,
                                        a: seq<string>, ra: seq<Reply>, b: seq<string>, rb: seq<Reply>)
    requires |a| == |ra| && |b| == |rb|
    ensures Posted(step, query, files, a + b, ra + rb) ==
            Posted(step, query, files, a, ra) + Posted(step, query, Pass(step, files, a, ra), b, rb)
    decreases |b|
  {
    if b == [] {
      assert a + b == a && ra + rb == ra;
    } else {
      var k := |b| - 1;
      var mid := Pass(step, files, a, ra);
      var last := OptionToSeq(query(Pass(step, mid, b[..k], rb[..k]), b[k]));
      var ab, rab := a + b, ra + rb;
      assert ab[..|ab| - 1] == a + b[..k] && rab[..|rab| - 1] == ra + rb[..k];
      assert ab[|ab| - 1] == b[k] && rab[|rab| - 1] == rb[k];
      calc {
        Posted(step, query, files, ab, rab);
        Posted(step, query, files, a + b[..k], ra + rb[..k]) +
          OptionToSeq(query(Pass(step, files, a + b[..k], ra + rb[..k]), b[k]));
        { PassAppend(step, files, a, ra, b[..k], rb[..k]); }
        Posted(step, query, files, a + b[..k], ra + rb[..k]) + last;
        { PostedAppend(step, query, files, a, ra, b[..k], rb[..k]); }
        (Posted(step, query, files, a, ra) + Posted(step, query, mid, b[..k], rb[..k])) + last;
        { Text.ConcatAssoc(Posted(step, query, files, a, ra), Posted(step, query, mid, b[..k], rb[..k]), last); }
        Posted(step, query, files, a, ra) + (Posted(step, query, mid, b[..k], rb[..k]) + last);
        Posted(step, query, files, a, ra) + Posted(step, query, mid, b, rb);
      }
    }
  }

  /** When the turn of the i-th file leaves the directory as it was, every
      later file is treated exactly as if the i-th had not been listed, and
      the only trace the i-th leaves is the request (if any) posted for it. */
  lemma PassSkip(step: Step, query: Query, files: Files, names: seq<string>, replies: seq<Reply>, i: nat)
    requires |names| == |replies| && i < |names|
    requires var before := Pass(step, files, names[..i], replies[..i]);
             step(before, names[i], replies[i]) == before
    ensures Pass(step, files, names, replies) ==
            Pass(step, files, Without(names, i), Without(replies, i))
    ensures var before := Pass(step, files, names[..i], replies[..i]);
            var rest := Posted(step, query, before, names[i + 1..], replies[i + 1..]);
            Posted(step, query, files, names, replies) ==
              Posted(step, query, files, names[..i], replies[..i]) + OptionToSeq(query(before, names[i])) + rest &&
            Posted(step, query, files, Without(names, i), Without(replies, i)) ==
              Posted(step, query, files, names[..i], replies[..i]) + rest
  {
    var pre, rpre := names[..i], replies[..i];
    var post, rpost := names[i + 1..], replies[i + 1..];
    assert names == (pre + [names[i]]) + post;
    assert replies == (rpre + [replies[i]]) + rpost;
    PassAppend(step, files, pre + [names[i]], rpre + [replies[i]], post, rpost);
    PostedAppend(step, query, files, pre + [names[i]], rpre + [replies[i]], post, rpost);
    assert (pre + [names[i]])[..i] == pre && (rpre + [replies[i]])[..i] == rpre;
    assert Pass(step, files, pre + [names[i]], rpre + [replies[i]]) == Pass(step, files, pre, rpre);
    PassAppend(step, files, pre, rpre, post, rpost);
    PostedAppend(step, query, files, pre, rpre, post, rpost);
  }

  /** A turn that neither writes nor posts anything can be dropped from the
      listing without changing the pass. */
  lemma PassSkipSilent(step: Step, query: Query, files: Files, names: seq<string>, replies: seq<Reply>, i: nat)
    requires |names| == |replies| && i < |names|
    requires var before := Pass(step, files, names[..i], replies[..i]);
             step(before, names[i], replies[i]) == before && query(before, names[i]).None?
    ensures Pass(step, files, names, replies) ==
            Pass(step, files, Without(names, i), Without(replies, i))
    ensures Posted(step, query, files, names, replies) ==
            Posted(step, query, files, Without(names, i), Without(replies, i))
  {
    PassSkip(step, query, files, names, replies, i);
    var before := Pass(step, files, names[..i], replies[..i]);
    var earlier := Posted(step, query, files, names[..i], replies[..i]);
    assert earlier + OptionToSeq(query(before, names[i])) == earlier by {
      assert OptionToSeq(query(before, names[i])) == [];
    }
  }

  /** A name that no turn after the i-th writes keeps, at the end of the
      pass, the entry it had right after the i-th turn. */
  lemma PassKeepsAfter(step: Step, files: Files, names: seq<string>, replies: seq<Reply>, i: nat, name: string)
    requires |names| == |replies| && i < |names|
    requires forall f: Files, j :: i < j < |names| ==> SameAt(step(f, names[j], replies[j]), f, name)
    ensures SameAt(Pass(step, files, names, replies), Pass(step, files, names[..i + 1], replies[..i + 1]), name)
  {
    var post, rpost := names[i + 1..], replies[i + 1..];
    forall f: Files, j | 0 <= j < |post|
      ensures SameAt(step(f, post[j], rpost[j]), f, name)
    {
      assert post[j] == names[i + 1 + j] && rpost[j] == replies[i + 1 + j];
    }
    var upto := Pass(step, files, names[..i + 1], replies[..i + 1]);
    PassKeeps(step, upto, post, rpost, name);
    assert names == names[..i + 1] + post && replies == replies[..i + 1] + rpost;
    PassAppend(step, files, names[..i + 1], replies[..i + 1], post, rpost);
  }

  /** The directory right after the i-th turn. */
  lemma PassUpTo(step: Step, files: Files, names: seq<string>, replies: seq<Reply>, i: nat)
    requires |names| == |replies| && i < |names|
    ensures Pass(step, files, names[..i + 1], replies[..i + 1]) ==
            step(Pass(step, files, names[..i], replies[..i]), names[i], replies[i])
  {
    assert names[..i + 1][..i] == names[..i] && replies[..i + 1][..i] == replies[..i];
  }

  /** The requests posted up to and including the i-th turn. */
  lemma PostedUpTo(step: Step, query: Query, files: Files, names: seq<string>, replies: seq<Reply>, i: nat)
    requires |names| == |replies| && i < |names|
    ensures Posted(step, query, files, names[..i + 1], replies[..i + 1]) ==
            Posted(step, query, files, names[..i], replies[..i]) +
            OptionToSeq(query(Pass(step, files, names[..i], replies[..i]), names[i]))
  {
    assert names[..i + 1][..i] == names[..i] && replies[..i + 1][..i] == replies[..i];
  }

  /** A name that no turn writes keeps its entry through the whole pass. */
  lemma {:induction false} PassKeeps(step: Step, files: Files, names: seq<string>, replies: seq<Reply>, name: string)
    requires |names| == |replies|
    requires forall f: Files, j :: 0 <= j < |names| ==> SameAt(step(f, names[j], replies[j]), f, name)
    ensures SameAt(Pass(step, files, names, replies), files, name)
    decreases |names|
  {
    if names != [] {
      var k := |names| - 1;
      PassKeeps(step, files, names[..k], replies[..k], name);
      var before := Pass(step, files, names[..k], replies[..k]);
      assert SameAt(step(before, names[k], replies[k]), before, name);
    }
  }

  /** The query of one file depends only on that file's own entry. */
  ghost predicate Local(query: Query) {
    forall f: Files, g: Files, n: string :: SameAt(f, g, n) ==> query(f, n) == query(g, n)
  }

  /** The requests of a pass computed from the directory as it was when the
      run started. */
  function QueriesOf(query: Query, files: Files, names: seq<string>): seq<Request>
    decreases |names|
  {
    if names == [] then []
    else QueriesOf(query, files, names[..|names| - 1]) + OptionToSeq(query(files, names[|names| - 1]))
  }

  /** When no turn writes a listed file, every listed file is judged on the
      entry it had when the run started, so the requests posted are those
      computed from the initial directory, in listing order. */
  lemma {:induction false} PostedFromStart(step: Step, query: Query, files: Files, names: seq<string>, replies: seq<Reply>)
    requires |names| == |replies|
    requires Local(query)
    requires forall f: Files, j, m :: 0 <= j < |names| && 0 <= m < |names| ==>
               SameAt(step(f, names[j], replies[j]), f, names[m])
    ensures Posted(step, query, files, names, replies) == QueriesOf(query, files, names)
    decreases |names|
  {
    if names != [] {
      var k := |names| - 1;
      var pre, rpre := names[..k], replies[..k];
      assert forall f: Files, j, m :: 0 <= j < |pre| && 0 <= m < |pre| ==>
               SameAt(step(f, pre[j], rpre[j]), f, pre[m]) by {
        forall f: Files, j, m | 0 <= j < |pre| && 0 <= m < |pre|
          ensures SameAt(step(f, pre[j], rpre[j]), f, pre[m])
        {
          assert pre[j] == names[j] && rpre[j] == replies[j] && pre[m] == names[m];
        }
      }
      PostedFromStart(step, query, files, pre, rpre);
      assert forall f: Files, j :: 0 <= j < |pre| ==> SameAt(step(f, pre[j], rpre[j]), f, names[k]) by {
        forall f: Files, j | 0 <= j < |pre|
          ensures SameAt(step(f, pre[j], rpre[j]), f, names[k])
        {
          assert pre[j] == names[j] && rpre[j] == replies[j];
        }
      }
      PassKeeps(step, files, pre, rpre, names[k]);
    }
  }
}
