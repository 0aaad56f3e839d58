/** `SummarizeWorker`: for every fresh `*.txt` file, ask the endpoint for a
    summary of its first 4000 characters and save it as `{stem}_summary.txt`. */
module Summarize {
  import opened Wrappers
  import opened Text
  import opened Names
  import opened Store
  import opened Completion
  import Enrichment

  const ContextLength: nat := 4000
  const MaxTokens: nat := 200
  const TimeoutSeconds: nat := 30
  const SavedMessage: string := Marked(Tick, "Summaries saved")

  /** The prompt sent for an excerpt of a file. */
  function Prompt(excerpt: string): string {
    "Summarize concisely:\n" + excerpt + "\nSummary:"
  }

  /** The request posted on the turn of `name`: one for a fresh file, none
      for a missing or stale one. */
  function SummaryRequest(files: Files, name: string, now: int): Option<Request> {
    if name in files && IsFresh(files[name].mtime, now) then
      Some(Request(Prompt(Take(files[name].content, ContextLength)), MaxTokens, Some(TimeoutSeconds)))
    else None
  }

  /** The directory after the turn of `name`: a successful reply to a posted
      request is stripped and written to the summary file; a failure is
      swallowed. */
  function Summarized(files: Files, name: string, now: int, reply: Reply, t: int): Files {
    if SummaryRequest(files, name, now).None? then files
    else match reply
      case Failed(_) => files
      case Ok(content) => files[SummaryName(Stem(name)) := Doc(Answer(content), t)]
  }

  function Step(now: int, t: int): Enrichment.Step {
    (f: Files, n: string, r: Reply) => Summarized(f, n, now, r, t)
  }

  function Query(now: int): Enrichment.Query {
    (f: Files, n: string) => SummaryRequest(f, n, now)
  }

  /** The directory after a whole pass. */
  function Pass(files: Files, listing: seq<string>, replies: seq<Reply>, now: int, t: int): Files
    requires |listing| == |replies|
  {
    Enrichment.Pass(Step(now, t), files, listing, replies)
  }

  /** The requests posted by a whole pass, in order. */
  function Posted(files: Files, listing: seq<string>, replies: seq<Reply>, now: int, t: int): seq<Request>
    requires |listing| == |replies|
  {
    Enrichment.Posted(Step(now, t), Query(now), files, listing, replies)
  }

  /** The i-th turn of a pass: the directory after it and the requests
      posted up to it, from the directory the earlier turns left. */
  lemma Turn(files: Files, listing: seq<string>, replies: seq<Reply>, now: int, t: int, i: nat)
    requires |listing| == |replies| && i < |listing|
    ensures var before := Pass(files, listing[..i], replies[..i], now, t);
            Pass(files, listing[..i + 1], replies[..i + 1], now, t) == Summarized(before, listing[i], now, replies[i], t) &&
            Posted(files, listing[..i + 1], replies[..i + 1], now, t) ==
              Posted(files, listing[..i], replies[..i], now, t) + Enrichment.OptionToSeq(SummaryRequest(before, listing[i], now))
  {
    Enrichment.PassUpTo(Step(now, t), files, listing, replies, i);
    Enrichment.PostedUpTo(Step(now, t), Query(now), files, listing, replies, i);
  }

  /** A failed completion for the i-th file changes nothing on disk: the
      pass leaves the directory exactly as if that file had not been listed,
      and posts the same requests with only that file's request added. */
  lemma FailureIsolated(files: Files, listing: seq<string>, replies: seq<Reply>, now: int, t: int, i: nat)
    requires |listing| == |replies| && i < |listing|
    requires replies[i].Failed?
    ensures Pass(files, listing, replies, now, t) ==
            Pass(files, Enrichment.Without(listing, i), Enrichment.Without(replies, i), now, t)
    ensures var before := Pass(files, listing[..i], replies[..i], now, t);
            var rest := Enrichment.Posted(Step(now, t), Query(now), before, listing[i + 1..], replies[i + 1..]);
            Posted(files, listing, replies, now, t) ==
              Posted(files, listing[..i], replies[..i], now, t) + Enrichment.OptionToSeq(SummaryRequest(before, listing[i], now)) + rest &&
            Posted(files, Enrichment.Without(listing, i), Enrichment.Without(replies, i), now, t) ==
              Posted(files, listing[..i], replies[..i], now, t) + rest
  {
    Enrichment.PassSkip(Step(now, t), Query(now), files, listing, replies, i);
  }

  /** A listed file that no summary is written over keeps its entry. */
  lemma OnlySummariesWritten(files: Files, listing: seq<string>, replies: seq<Reply>, now: int, t: int, name: string)
    requires |listing| == |replies|
    requires forall j :: 0 <= j < |listing| ==> name != SummaryName(Stem(listing[j]))
    ensures SameAt(Pass(files, listing, replies, now, t), files, name)
  {
    forall f: Files, j | 0 <= j < |listing|
      ensures SameAt(Step(now, t)(f, listing[j], replies[j]), f, name)
    {
    }
    Enrichment.PassKeeps(Step(now, t), files, listing, replies, name);
  }

  /** A file that was stale when the run started, and that no earlier turn
      wrote a summary over, is skipped: no request, no write, and the pass
      is the pass without it. */
  lemma StaleSkipped(files: Files, listing: seq<string>, replies: seq<Reply>, now: int, t: int, i: nat)
    requires |listing| == |replies| && i < |listing|
    requires listing[i] in files && !IsFresh(files[listing[i]].mtime, now)
    requires forall j :: 0 <= j < i ==> listing[i] != SummaryName(Stem(listing[j]))
    ensures Pass(files, listing, replies, now, t) ==
            Pass(files, Enrichment.Without(listing, i), Enrichment.Without(replies, i), now, t)
    ensures Posted(files, listing, replies, now, t) ==
            Posted(files, Enrichment.Without(listing, i), Enrichment.Without(replies, i), now, t)
  {
    var before := Pass(files, listing[..i], replies[..i], now, t);
    assert Step(now, t)(before, listing[i], replies[i]) == before && Query(now)(before, listing[i]).None? by {
      OnlySummariesWritten(files, listing[..i], replies[..i], now, t, listing[i]);
    }
    Enrichment.PassSkipSilent(Step(now, t), Query(now), files, listing, replies, i);
  }

  /** A pass never removes a file, and an entry it changes carries the
      stamp `t` of the run's writes. */
  lemma {:induction false} KeptOrStamped(files: Files, listing: seq<string>, replies: seq<Reply>, now: int, t: int, name: string)
    requires |listing| == |replies| && name in files
    ensures var out := Pass(files, listing, replies, now, t);
            name in out && (out[name] == files[name] || out[name].mtime == t)
    decreases |listing|
  {
    if listing != [] {
      var k := |listing| - 1;
      KeptOrStamped(files, listing[..k], replies[..k], now, t, name);
      Enrichment.PassUpTo(Step(now, t), files, listing, replies, k);
      assert listing[..k + 1] == listing && replies[..k + 1] == replies;
    }
  }

  /** A file that was fresh when the run started, whose request succeeds and
      whose summary no later file's summary replaces, ends with its stripped
      reply saved as its summary: when no earlier turn wrote over it, or when
      the run's writes are stamped fresh (they are, the clock never being
      behind `now`), so that a rewritten file is still fresh at its turn. */
  lemma FreshSummarized(files: Files, listing: seq<string>, replies: seq<Reply>, now: int, t: int, i: nat)
    requires |listing| == |replies| && i < |listing|
    requires listing[i] in files && IsFresh(files[listing[i]].mtime, now)
    requires replies[i].Ok?
    requires IsFresh(t, now) || forall j :: 0 <= j < i ==> listing[i] != SummaryName(Stem(listing[j]))
    requires forall j :: i < j < |listing| ==> Stem(listing[j]) != Stem(listing[i])
    ensures var out := Pass(files, listing, replies, now, t);
            SummaryName(Stem(listing[i])) in out &&
            out[SummaryName(Stem(listing[i]))] == Doc(Answer(replies[i].content), t)
  {
    var target := SummaryName(Stem(listing[i]));
    var before := Pass(files, listing[..i], replies[..i], now, t);
    assert listing[i] in before && IsFresh(before[listing[i]].mtime, now) by {
      if forall j :: 0 <= j < i ==> listing[i] != SummaryName(Stem(listing[j])) {
        OnlySummariesWritten(files, listing[..i], replies[..i], now, t, listing[i]);
      } else {
        KeptOrStamped(files, listing[..i], replies[..i], now, t, listing[i]);
      }
    }
    Enrichment.PassUpTo(Step(now, t), files, listing, replies, i);
    var upto := Pass(files, listing[..i + 1], replies[..i + 1], now, t);
    assert target in upto && upto[target] == Doc(Answer(replies[i].content), t);
    forall f: Files, j | i < j < |listing|
      ensures SameAt(Step(now, t)(f, listing[j], replies[j]), f, target)
    {
      if target == SummaryName(Stem(listing[j])) {
        SummaryNameInjective(Stem(listing[i]), Stem(listing[j]));
      }
    }
    Enrichment.PassKeepsAfter(Step(now, t), files, listing, replies, i, target);
  }

  /** The requests a pass would post judging every file on its entry at the
      start of the run: one per fresh file, in listing order. */
  function FreshRequests(files: Files, listing: seq<string>, now: int): seq<Request> {
    Enrichment.QueriesOf(Query(now), files, listing)
  }

  /** When no listed file is the summary of a listed file, the pass posts
      exactly one request per file that was fresh at the start of the run,
      in listing order, each with the prompt built from that file's first
      4000 characters. */
  lemma RequestsForFreshFiles(files: Files, listing: seq<string>, replies: seq<Reply>, now: int, t: int)
    requires |listing| == |replies|
    requires forall j, m :: 0 <= j < |listing| && 0 <= m < |listing| ==> listing[m] != SummaryName(Stem(listing[j]))
    ensures Posted(files, listing, replies, now, t) == FreshRequests(files, listing, now)
  {
    forall f: Files, g: Files, n: string | SameAt(f, g, n)
      ensures Query(now)(f, n) == Query(now)(g, n)
    {
    }
    forall f: Files, j, m | 0 <= j < |listing| && 0 <= m < |listing|
      ensures SameAt(Step(now, t)(f, listing[j], replies[j]), f, listing[m])
    {
    }
    Enrichment.PostedFromStart(Step(now, t), Query(now), files, listing, replies);
  }

  /** The names and replies of `SummarizeOnlyRecent`. */
  lemma ExampleStrings()
    ensures SummaryName(Stem("new.txt")) == "new_summary.txt"
    ensures Answer(" A ") == "A"
  {
    assert Stem("new.txt") == "new" by {
      assert IsTxt("new.txt") by {
        assert "new.txt"[3..] == ".txt";
      }
      StemOfTxt("new.txt");
      assert "new.txt"[..3] == "new";
    }
    assert SummaryName("new") == "new_summary.txt";
    assert Answer(" A ") == "A" by {
      assert " A "[1..] == "A ";
      assert TrimLeft(" A ") == "A ";
      assert "A "[..1] == "A";
      assert TrimRight("A ") == "A";
    }
  }

  /** The freshness window at work: of two files, one written 10 seconds and
      one 400 seconds before the run, only the first is summarised. */
  lemma SummarizeOnlyRecent(t: int)
    ensures var files := map["new.txt" := Doc("alpha", 990), "old.txt" := Doc("beta", 600)];
            var out := Pass(files, ["new.txt", "old.txt"], [Ok(" A "), Ok("B")], 1000, t);
            out == files["new_summary.txt" := Doc("A", t)]
  {
    var files := map["new.txt" := Doc("alpha", 990), "old.txt" := Doc("beta", 600)];
    var listing: seq<string> := ["new.txt", "old.txt"];
    var replies := [Ok(" A "), Ok("B")];
    var first := files["new_summary.txt" := Doc("A", t)];
    assert Pass(files, listing[..1], replies[..1], 1000, t) == first by {
      assert Pass(files, listing[..0], replies[..0], 1000, t) == files by {
        assert listing[..0] == [] && replies[..0] == [];
      }
      Turn(files, listing, replies, 1000, t, 0);
      assert Summarized(files, "new.txt", 1000, Ok(" A "), t) == first by {
        ExampleStrings();
        assert SummaryRequest(files, "new.txt", 1000).Some?;
      }
    }
    assert Pass(files, listing[..2], replies[..2], 1000, t) == first by {
      Turn(files, listing, replies, 1000, t, 1);
      assert Summarized(first, "old.txt", 1000, Ok("B"), t) == first by {
        assert first["old.txt"] == Doc("beta", 600);
        assert SummaryRequest(first, "old.txt", 1000).None?;
      }
    }
    assert listing[..2] == listing && replies[..2] == replies;
  }

  /** The turn of `name` in `run()`, `reply` being the endpoint's answer if a
      request is posted: returns the request posted, if any. */
  method Visit(root: DataRoot, name: string, reply: Reply, now: int, t: int) returns (request: Option<Request>)
    modifies root
    ensures root.files == Summarized(old(root.files), name, now, reply, t)
    ensures request == SummaryRequest(old(root.files), name, now)
  {
    request := None;
    if name in root.files && IsFresh(root.files[name].mtime, now) {
      var excerpt := Take(root.files[name].content, ContextLength);
      request := Some(Request(Prompt(excerpt), MaxTokens, Some(TimeoutSeconds)));
      match reply {
        case Ok(content) =>
          root.Write(SummaryName(Stem(name)), Answer(content), t);
        case Failed(_) =>
      }
    }
  }

  class SummarizeWorker {
    var running: bool
    var emitted: seq<Signal>

    constructor ()
      ensures running && emitted == []
    {
      running := true;
      emitted := [];
    }

    /** `stop()`: only a run that has not started yet is affected. */
    method Stop()
      modifies this
      ensures !running && emitted == old(emitted)
    {
      running := false;
    }

    /** `run()`: captures `now` once, visits `listing` (the `*.txt` files at
        the start of the run, in `glob` order), and always ends with the
        done message. `replies[i]` is what the endpoint answers for the i-th
        listed file; `t` is the modification time written files get. */
    method Run(root: DataRoot, listing: seq<string>, replies: seq<Reply>, now: int, t: int)
      returns (posted: seq<Request>)
      requires IsListing(root.files, listing)
      requires |replies| == |listing|
      modifies this, root
      ensures running == old(running)
      ensures old(running) ==>
        root.files == Pass(old(root.files), listing, replies, now, t) &&
        posted == Posted(old(root.files), listing, replies, now, t) &&
        emitted == old(emitted) + [Done(SavedMessage)]
      ensures !old(running) ==> root.files == old(root.files) && posted == [] && emitted == old(emitted)
    {
      posted := [];
      if !running {
        return;
      }
      ghost var src := root.files;
      var i := 0;
      while i < |listing|
        invariant 0 <= i <= |listing|
        invariant root.files == Pass(src, listing[..i], replies[..i], now, t)
        invariant posted == Posted(src, listing[..i], replies[..i], now, t)
        invariant running && emitted == old(emitted)
      {
        var name := listing[i];
        var request := Visit(root, name, replies[i], now, t);
        posted := posted + Enrichment.OptionToSeq(request);
        Turn(src, listing, replies, now, t, i);
        i := i + 1;
      }
      assert listing[..i] == listing && replies[..i] == replies;
      emitted := emitted + [Done(SavedMessage)];
    }
  }
}
