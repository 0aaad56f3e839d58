/** `ClassifyWorker`: for every fresh `*.txt` file, ask the endpoint for one
    of three categories and save the file's first 2000 characters as
    `{stem}_classified_{category}.txt`. */
module Classify {
  import opened Wrappers
  import opened Text
  import opened Names
  import opened Store
  import opened Completion
  import Enrichment

  const ContextLength: nat := 2000
  const MaxTokens: nat := 10
  const TimeoutSeconds: nat := 20
  const Categories: seq<string> := ["security", "networking", "crypto"]
  const Fallback: string := "other"
  const ClassifiedMessage: string := Marked(Tick, "Files classified")

  /** The prompt sent for an excerpt of a file. */
  function Prompt(excerpt: string): string {
    "Classify into one of: " + Join(", ", Categories) + ". Text: " + excerpt + "\nCategory:"
  }

  /** The prompt lists the three categories, separated by commas. */
  lemma PromptText(excerpt: string)
    ensures Prompt(excerpt) ==
            "Classify into one of: " + "security, networking, crypto" + ". Text: " + excerpt + "\nCategory:"
  {
    CategoriesText();
  }

  /** The categories as the prompt lists them. */
  lemma CategoriesText()
    ensures Join(", ", Categories) == "security, networking, crypto"
  {
    var tail: seq<string> := ["networking", "crypto"];
    assert Categories[1..] == tail && tail[1..] == ["crypto"];
    assert Join(", ", ["crypto"]) == "crypto";
    assert Join(", ", tail) == "networking" + ", " + "crypto";
    assert Join(", ", Categories) == "security" + ", " + ("networking" + ", " + "crypto");
  }

  /** The category a reply is filed under: the stripped, lowercased reply
      when it names one of the categories, `other` otherwise. */
  function Category(reply: string): string {
    var c := Lower(Strip(reply));
    if c in Categories then c else Fallback
  }

  /** Every reply is filed under one of four names, and under the normalised
      reply itself exactly when that is one of them. */
  lemma CategoryIsClosed(reply: string)
    ensures Category(reply) in Categories || Category(reply) == Fallback
    ensures Category(reply) == Lower(Strip(reply)) <==>
            Lower(Strip(reply)) in Categories || Lower(Strip(reply)) == Fallback
  {
  }

  /** The category names are already stripped and lowercase. */
  lemma CategoryIsCanonical(c: string)
    requires c in Categories || c == Fallback
    ensures Lower(Strip(c)) == c
  {
    assert forall i :: 0 <= i < |c| ==> 'a' <= c[i] <= 'z';
    StripOfTrimmed(c);
    LowerChars(c);
  }

  /** Filing a category name again files it under itself. */
  lemma CategoryIdempotent(reply: string)
    ensures Category(Category(reply)) == Category(reply)
  {
    CategoryIsClosed(reply);
    CategoryIsCanonical(Category(reply));
  }

  /** The request posted on the turn of `name`: one for a fresh file, none
      for a missing or stale one. */
  function ClassifyRequest(files: Files, name: string, now: int): Option<Request> {
    if name in files && IsFresh(files[name].mtime, now) then
      Some(Request(Prompt(Take(files[name].content, ContextLength)), MaxTokens, Some(TimeoutSeconds)))
    else None
  }

  /** The directory after the turn of `name`: on a successful reply the
      excerpt that was sent is saved under the category's name; a failure is
      swallowed. */
  function Classified(files: Files, name: string, now: int, reply: Reply, t: int): Files {
    if ClassifyRequest(files, name, now).None? then files
    else match reply
      case Failed(_) => files
      case Ok(content) =>
        files[ClassifiedName(Stem(name), Category(content)) := Doc(Take(files[name].content, ContextLength), t)]
  }

  function Step(now: int, t: int): Enrichment.Step {
    (f: Files, n: string, r: Reply) => Classified(f, n, now, r, t)
  }

  function Query(now: int): Enrichment.Query {
    (f: Files, n: string) => ClassifyRequest(f, n, now)
  }

  /** The directory after a whole pass. */
  function Pass(files: Files, listing: seq<string>, replies: seq<Reply>, now: int, t: int): Files
    requires |listing| == |replies|
  {
    Enrichment.Pass(Step(now, t), files, listing, replies)
  }

  /** The requests posted by a whole pass, in order. */
  function Posted(files: Files, listing: seq<string>, replies: seq<Reply>, now: int, t: int): seq<Request>
    requires |listing| == |replies|
  {
    Enrichment.Posted(Step(now, t), Query(now), files, listing, replies)
  }

  /** The i-th turn of a pass: the directory after it and the requests
      posted up to it, from the directory the earlier turns left. */
  lemma Turn(files: Files, listing: seq<string>, replies: seq<Reply>, now: int, t: int, i: nat)
    requires |listing| == |replies| && i < |listing|
    ensures var before := Pass(files, listing[..i], replies[..i], now, t);
            Pass(files, listing[..i + 1], replies[..i + 1], now, t) == Classified(before, listing[i], now, replies[i], t) &&
            Posted(files, listing[..i + 1], replies[..i + 1], now, t) ==
              Posted(files, listing[..i], replies[..i], now, t) + Enrichment.OptionToSeq(ClassifyRequest(before, listing[i], now))
  {
    Enrichment.PassUpTo(Step(now, t), files, listing, replies, i);
    Enrichment.PostedUpTo(Step(now, t), Query(now), files, listing, replies, i);
  }

  /** The turn of `name` with reply `reply` may write the file `key`. */
  predicate MayWrite(name: string, reply: Reply, key: string) {
    reply.Ok? && key == ClassifiedName(Stem(name), Category(reply.content))
  }

  /** A turn that may not write `key` leaves it as it was. */
  lemma ClassifiedElsewhere(files: Files, name: string, now: int, reply: Reply, t: int, key: string)
    requires !MayWrite(name, reply, key)
    ensures SameAt(Classified(files, name, now, reply, t), files, key)
  {
  }

  /** A failed completion for the i-th file changes nothing on disk: the
      pass leaves the directory exactly as if that file had not been listed,
      and posts the same requests with only that file's request added. */
  lemma FailureIsolated(files: Files, listing: seq<string>, replies: seq<Reply>, now: int, t: int, i: nat)
    requires |listing| == |replies| && i < |listing|
    requires replies[i].Failed?
    ensures Pass(files, listing, replies, now, t) ==
            Pass(files, Enrichment.Without(listing, i), Enrichment.Without(replies, i), now, t)
    ensures var before := Pass(files, listing[..i], replies[..i], now, t);
            var rest := Enrichment.Posted(Step(now, t), Query(now), before, listing[i + 1..], replies[i + 1..]);
            Posted(files, listing, replies, now, t) ==
              Posted(files, listing[..i], replies[..i], now, t) + Enrichment.OptionToSeq(ClassifyRequest(before, listing[i], now)) + rest &&
            Posted(files, Enrichment.Without(listing, i), Enrichment.Without(replies, i), now, t) ==
              Posted(files, listing[..i], replies[..i], now, t) + rest
  {
    Enrichment.PassSkip(Step(now, t), Query(now), files, listing, replies, i);
  }

  /** A file that no turn may classify into keeps its entry. */
  lemma OnlyClassifiedWritten(files: Files, listing: seq<string>, replies: seq<Reply>, now: int, t: int, name: string)
    requires |listing| == |replies|
    requires forall j :: 0 <= j < |listing| ==> !MayWrite(listing[j], replies[j], name)
    ensures SameAt(Pass(files, listing, replies, now, t), files, name)
  {
    forall f: Files, j | 0 <= j < |listing|
      ensures SameAt(Step(now, t)(f, listing[j], replies[j]), f, name)
    {
    }
    Enrichment.PassKeeps(Step(now, t), files, listing, replies, name);
  }

  /** A file that was stale when the run started, and that no earlier turn
      wrote over, is skipped: no request, no write, and the pass is the pass
      without it. */
  lemma StaleSkipped(files: Files, listing: seq<string>, replies: seq<Reply>, now: int, t: int, i: nat)
    requires |listing| == |replies| && i < |listing|
    requires listing[i] in files && !IsFresh(files[listing[i]].mtime, now)
    requires forall j :: 0 <= j < i ==> !MayWrite(listing[j], replies[j], listing[i])
    ensures Pass(files, listing, replies, now, t) ==
            Pass(files, Enrichment.Without(listing, i), Enrichment.Without(replies, i), now, t)
    ensures Posted(files, listing, replies, now, t) ==
            Posted(files, Enrichment.Without(listing, i), Enrichment.Without(replies, i), now, t)
  {
    var before := Pass(files, listing[..i], replies[..i], now, t);
    assert Step(now, t)(before, listing[i], replies[i]) == before && Query(now)(before, listing[i]).None? by {
      OnlyClassifiedWritten(files, listing[..i], replies[..i], now, t, listing[i]);
    }
    Enrichment.PassSkipSilent(Step(now, t), Query(now), files, listing, replies, i);
  }

  /** A file that was fresh when the run started, that no earlier turn wrote
      over, whose request succeeds and whose classified copy no later turn
      replaces, ends with exactly its first 2000 characters saved under the
      category of the reply. */
  lemma FreshClassified(files: Files, listing: seq<string>, replies: seq<Reply>, now: int, t: int, i: nat)
    requires |listing| == |replies| && i < |listing|
    requires listing[i] in files && IsFresh(files[listing[i]].mtime, now)
    requires replies[i].Ok?
    requires forall j :: 0 <= j < i ==> !MayWrite(listing[j], replies[j], listing[i])
    requires forall j :: i < j < |listing| ==>
               !MayWrite(listing[j], replies[j], ClassifiedName(Stem(listing[i]), Category(replies[i].content)))
    ensures var out := Pass(files, listing, replies, now, t);
            var key := ClassifiedName(Stem(listing[i]), Category(replies[i].content));
            key in out && out[key] == Doc(Take(files[listing[i]].content, ContextLength), t)
  {
    var target := ClassifiedName(Stem(listing[i]), Category(replies[i].content));
    var doc := Doc(Take(files[listing[i]].content, ContextLength), t);
    var before := Pass(files, listing[..i], replies[..i], now, t);
    assert SameAt(before, files, listing[i]) by {
      OnlyClassifiedWritten(files, listing[..i], replies[..i], now, t, listing[i]);
    }
    Enrichment.PassUpTo(Step(now, t), files, listing, replies, i);
    assert Classified(before, listing[i], now, replies[i], t) == before[target := doc] by {
      assert listing[i] in before && before[listing[i]] == files[listing[i]];
    }
    forall f: Files, j | i < j < |listing|
      ensures SameAt(Step(now, t)(f, listing[j], replies[j]), f, target)
    {
      ClassifiedElsewhere(f, listing[j], now, replies[j], t, target);
    }
    Enrichment.PassKeepsAfter(Step(now, t), files, listing, replies, i, target);
  }

  /** The requests a pass would post judging every file on its entry at the
      start of the run: one per fresh file, in listing order. */
  function FreshRequests(files: Files, listing: seq<string>, now: int): seq<Request> {
    Enrichment.QueriesOf(Query(now), files, listing)
  }

  /** When no turn may write over a listed file, the pass posts exactly one
      request per file that was fresh at the start of the run, in listing
      order, each with the prompt built from that file's first 2000
      characters. */
  lemma RequestsForFreshFiles(files: Files, listing: seq<string>, replies: seq<Reply>, now: int, t: int)
    requires |listing| == |replies|
    requires forall j, m :: 0 <= j < |listing| && 0 <= m < |listing| ==> !MayWrite(listing[j], replies[j], listing[m])
    ensures Posted(files, listing, replies, now, t) == FreshRequests(files, listing, now)
  {
    forall f: Files, g: Files, n: string | SameAt(f, g, n)
      ensures Query(now)(f, n) == Query(now)(g, n)
    {
    }
    forall f: Files, j, m | 0 <= j < |listing| && 0 <= m < |listing|
      ensures SameAt(Step(now, t)(f, listing[j], replies[j]), f, listing[m])
    {
    }
    Enrichment.PostedFromStart(Step(now, t), Query(now), files, listing, replies);
  }

  /** The turn of `name` in `run()`, `reply` being the endpoint's answer if a
      request is posted: returns the request posted, if any. */
  method Visit(root: DataRoot, name: string, reply: Reply, now: int, t: int) returns (request: Option<Request>)
    modifies root
    ensures root.files == Classified(old(root.files), name, now, reply, t)
    ensures request == ClassifyRequest(old(root.files), name, now)
  {
    request := None;
    if name in root.files && IsFresh(root.files[name].mtime, now) {
      var excerpt := Take(root.files[name].content, ContextLength);
      request := Some(Request(Prompt(excerpt), MaxTokens, Some(TimeoutSeconds)));
      match reply {
        case Ok(content) =>
          root.Write(ClassifiedName(Stem(name), Category(content)), excerpt, t);
        case Failed(_) =>
      }
    }
  }

  class ClassifyWorker {
    var running: bool
    var emitted: seq<Signal>

    constructor ()
      ensures running && emitted == []
    {
      running := true;
      emitted := [];
    }

    /** `stop()`: only a run that has not started yet is affected. */
    method Stop()
      modifies this
      ensures !running && emitted == old(emitted)
    {
      running := false;
    }

    /** `run()`: captures `now` once, visits `listing` (the `*.txt` files at
        the start of the run, in `glob` order), and always ends with the
        done message. `replies[i]` is what the endpoint answers for the i-th
        listed file; `t` is the modification time written files get. */
    method Run(root: DataRoot, listing: seq<string>, replies: seq<Reply>, now: int, t: int)
      returns (posted: seq<Request>)
      requires IsListing(root.files, listing)
      requires |replies| == |listing|
      modifies this, root
      ensures running == old(running)
      ensures old(running) ==>
        root.files == Pass(old(root.files), listing, replies, now, t) &&
        posted == Posted(old(root.files), listing, replies, now, t) &&
        emitted == old(emitted) + [Done(ClassifiedMessage)]
      ensures !old(running) ==> root.files == old(root.files) && posted == [] && emitted == old(emitted)
    {
      posted := [];
      if !running {
        return;
      }
      ghost var src := root.files;
      var i := 0;
      while i < |listing|
        invariant 0 <= i <= |listing|
        invariant root.files == Pass(src, listing[..i], replies[..i], now, t)
        invariant posted == Posted(src, listing[..i], replies[..i], now, t)
        invariant running && emitted == old(emitted)
      {
        var name := listing[i];
        var request := Visit(root, name, replies[i], now, t);
        posted := posted + Enrichment.OptionToSeq(request);
        Turn(src, listing, replies, now, t, i);
        i := i + 1;
      }
      assert listing[..i] == listing && replies[..i] == replies;
      emitted := emitted + [Done(ClassifiedMessage)];
    }
  }
}
