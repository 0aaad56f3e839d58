/** `WebWorker`: fetches a list of URLs in order, saves every page that
    comes back with status 200 as text, reports each attempt, and stops
    early when `stop()` has been called. */
module Fetch {
  import opened Text
  import opened Names
  import opened Store
  import opened Completion

  /** What `requests.get(url, ...)` comes back with: a response (its status,
      its `content-type` header or "" when there is none, and its decoded
      body), or the text of the exception it raised. */
  datatype Outcome = Response(status: int, contentType: string, body: string) | Raised(reason: string)

  const OkStatus: int := 200

  /** The page is stored as it came: its content type, lowercased, mentions
      `text/plain`, or its URL ends in `.txt`. */
  predicate IsPlain(url: string, contentType: string) {
    Contains(Lower(contentType), "text/plain") || EndsWith(url, ".txt")
  }

  /** The text saved for a page; `html` stands for BeautifulSoup's
      `get_text()` over the parsed body. */
  function PageText(url: string, contentType: string, body: string, html: string -> string): string {
    if IsPlain(url, contentType) then body else html(body)
  }

  /** The test on the content type ignores its case. */
  lemma PlainIgnoresCase(url: string, contentType: string)
    ensures IsPlain(url, Lower(contentType)) == IsPlain(url, contentType)
  {
    LowerIdempotent(contentType);
  }

  /** The message announcing an attempt. */
  function FetchingText(url: string): string {
    Marked(Arrow, "Fetching " + url)
  }

  /** The one message reporting how the attempt ended. */
  function OutcomeText(url: string, o: Outcome): string {
    match o
    case Response(status, _, _) =>
      if status == OkStatus then Marked(Tick, "Saved " + SavedName(url))
      else Marked(Cross, "HTTP " + IntToString(status))
    case Raised(e) => ErrorText(e)
  }

  /** The report tells a saved page from a failure by its glyph, and tells
      failing statuses apart. */
  lemma OutcomeTextDistinguishes(url: string, o: Outcome, o': Outcome)
    ensures OutcomeText(url, o)[3] == '\U{201C}' <==> o.Response? && o.status == OkStatus
    ensures (o.Response? && o'.Response? && o.status != OkStatus && o'.status != OkStatus &&
             OutcomeText(url, o) == OutcomeText(url, o')) ==> o.status == o'.status
  {
    if o.Response? && o'.Response? && o.status != OkStatus && o'.status != OkStatus &&
       OutcomeText(url, o) == OutcomeText(url, o') {
      var a, b := OutcomeText(url, o), OutcomeText(url, o');
      var n := |Marked(Cross, "HTTP ")|;
      assert a[n..] == IntToString(o.status) && b[n..] == IntToString(o'.status);
      IntToStringInjective(o.status, o'.status);
    }
  }

  /** The directory after one attempt: only a 200 response writes. */
  function Fetched(files: Files, url: string, o: Outcome, html: string -> string, t: int): Files {
    if o.Response? && o.status == OkStatus then
      files[SavedName(url) := Doc(PageText(url, o.contentType, o.body, html), t)]
    else files
  }

  /** The directory after attempting `urls` in order. */
  function FetchAll(files: Files, urls: seq<string>, outcomes: seq<Outcome>, html: string -> string, t: int): Files
    requires |urls| == |outcomes|
    decreases |urls|
  {
    if urls == [] then files
    else
      var k := |urls| - 1;
      Fetched(FetchAll(files, urls[..k], outcomes[..k], html, t), urls[k], outcomes[k], html, t)
  }

  /** The progress messages of attempting `urls` in order. */
  function Log(urls: seq<string>, outcomes: seq<Outcome>): seq<Signal>
    requires |urls| == |outcomes|
    decreases |urls|
  {
    if urls == [] then []
    else
      var k := |urls| - 1;
      Log(urls[..k], outcomes[..k]) +
      [Progress(FetchingText(urls[k])), Progress(OutcomeText(urls[k], outcomes[k]))]
  }

  /** Every attempted URL reports, in list order, that it is being fetched
      and then exactly one outcome. */
  lemma {:induction false} LogShape(urls: seq<string>, outcomes: seq<Outcome>)
    requires |urls| == |outcomes|
    ensures |Log(urls, outcomes)| == 2 * |urls|
    ensures forall j :: 0 <= j < |urls| ==>
              Log(urls, outcomes)[2 * j] == Progress(FetchingText(urls[j])) &&
              Log(urls, outcomes)[2 * j + 1] == Progress(OutcomeText(urls[j], outcomes[j]))
    decreases |urls|
  {
    if urls != [] {
      var k := |urls| - 1;
      LogShape(urls[..k], outcomes[..k]);
      var prev := Log(urls[..k], outcomes[..k]);
      var log := Log(urls, outcomes);
      assert log == prev + [Progress(FetchingText(urls[k])), Progress(OutcomeText(urls[k], outcomes[k]))];
      forall j | 0 <= j < |urls|
        ensures log[2 * j] == Progress(FetchingText(urls[j])) &&
                log[2 * j + 1] == Progress(OutcomeText(urls[j], outcomes[j]))
      {
        if j < k {
          assert urls[..k][j] == urls[j] && outcomes[..k][j] == outcomes[j];
          assert log[2 * j] == prev[2 * j] && log[2 * j + 1] == prev[2 * j + 1];
        }
      }
    }
  }

  /** Stopping after the first `k` URLs leaves a log that is the start of
      the log of the full run. */
  lemma {:induction false} LogPrefix(urls: seq<string>, outcomes: seq<Outcome>, k: nat)
    requires |urls| == |outcomes| && k <= |urls|
    ensures Log(urls[..k], outcomes[..k]) <= Log(urls, outcomes)
    decreases |urls|
  {
    if k < |urls| {
      var n := |urls| - 1;
      var start := Log(urls[..k], outcomes[..k]);
      var prev := Log(urls[..n], outcomes[..n]);
      var last := [Progress(FetchingText(urls[n])), Progress(OutcomeText(urls[n], outcomes[n]))];
      assert start <= prev by {
        assert urls[..n][..k] == urls[..k] && outcomes[..n][..k] == outcomes[..k];
        LogPrefix(urls[..n], outcomes[..n], k);
      }
      assert Log(urls, outcomes) == prev + last;
      assert (prev + last)[..|start|] == prev[..|start|];
    } else {
      assert urls[..k] == urls && outcomes[..k] == outcomes;
    }
  }

  /** A file that no successful fetch is saved under keeps its entry. */
  lemma {:induction false} OnlySavedPagesWritten(files: Files, urls: seq<string>, outcomes: seq<Outcome>,
                                                 html: string -> string, t: int, key: string)
    requires |urls| == |outcomes|
    requires forall j :: 0 <= j < |urls| && outcomes[j].Response? && outcomes[j].status == OkStatus ==>
               SavedName(urls[j]) != key
    ensures SameAt(FetchAll(files, urls, outcomes, html, t), files, key)
    decreases |urls|
  {
    if urls != [] {
      var k := |urls| - 1;
      OnlySavedPagesWritten(files, urls[..k], outcomes[..k], html, t, key);
    }
  }

  /** A page fetched with status 200, whose file no later successful fetch
      replaces, ends saved under its sanitised name: raw when it is plain
      text, through the HTML-to-text step otherwise. */
  lemma SavedPage(files: Files, urls: seq<string>, outcomes: seq<Outcome>, html: string -> string, t: int, i: nat)
    requires |urls| == |outcomes| && i < |urls|
    requires outcomes[i].Response? && outcomes[i].status == OkStatus
    requires forall j :: i < j < |urls| && outcomes[j].Response? && outcomes[j].status == OkStatus ==>
               SavedName(urls[j]) != SavedName(urls[i])
    ensures var out := FetchAll(files, urls, outcomes, html, t);
            var o := outcomes[i];
            SavedName(urls[i]) in out &&
            out[SavedName(urls[i])] ==
              Doc(if IsPlain(urls[i], o.contentType) then o.body else html(o.body), t)
  {
    var key := SavedName(urls[i]);
    var doc := Doc(PageText(urls[i], outcomes[i].contentType, outcomes[i].body, html), t);
    var post, opost := urls[i + 1..], outcomes[i + 1..];
    var upto := FetchAll(files, urls[..i + 1], outcomes[..i + 1], html, t);
    assert key in upto && upto[key] == doc by {
      assert urls[..i + 1][..i] == urls[..i] && outcomes[..i + 1][..i] == outcomes[..i];
    }
    assert SameAt(FetchAll(upto, post, opost, html, t), upto, key) by {
      forall j | 0 <= j < |post| && opost[j].Response? && opost[j].status == OkStatus
        ensures SavedName(post[j]) != key
      {
        assert post[j] == urls[i + 1 + j] && opost[j] == outcomes[i + 1 + j];
      }
      OnlySavedPagesWritten(upto, post, opost, html, t, key);
    }
    assert FetchAll(files, urls, outcomes, html, t) == FetchAll(upto, post, opost, html, t) by {
      assert urls[..i + 1] + post == urls by {
        assert urls == urls[..i + 1] + urls[i + 1..];
      }
      assert outcomes[..i + 1] + opost == outcomes by {
        assert outcomes == outcomes[..i + 1] + outcomes[i + 1..];
      }
      FetchAllAppend(files, urls[..i + 1], outcomes[..i + 1], post, opost, html, t);
    }
    assert doc == Doc(if IsPlain(urls[i], outcomes[i].contentType) then outcomes[i].body else html(outcomes[i].body), t);
  }

  lemma {:induction false} FetchAllAppend(files: Files, a: seq<string>, oa: seq<Outcome>, b: seq<string>, ob: seq<Outcome>,
                                          html: string -> string, t: int)
    requires |a| == |oa| && |b| == |ob|
    ensures FetchAll(files, a + b, oa + ob, html, t) == FetchAll(FetchAll(files, a, oa, html, t), b, ob, html, t)
    decreases |b|
  {
    if b == [] {
      assert a + b == a && oa + ob == oa;
    } else {
      var k := |b| - 1;
      assert (a + b)[..|a + b| - 1] == a + b[..k];
      assert (oa + ob)[..|oa + ob| - 1] == oa + ob[..k];
      assert (a + b)[|a + b| - 1] == b[k] && (oa + ob)[|oa + ob| - 1] == ob[k];
      FetchAllAppend(files, a, oa, b[..k], ob[..k], html, t);
    }
  }

  /** The directory and the log right after the i-th attempt. */
  lemma AttemptUpTo(files: Files, urls: seq<string>, outcomes: seq<Outcome>, html: string -> string, t: int, i: nat)
    requires |urls| == |outcomes| && i < |urls|
    ensures FetchAll(files, urls[..i + 1], outcomes[..i + 1], html, t) ==
            Fetched(FetchAll(files, urls[..i], outcomes[..i], html, t), urls[i], outcomes[i], html, t)
    ensures Log(urls[..i + 1], outcomes[..i + 1]) ==
            Log(urls[..i], outcomes[..i]) + [Progress(FetchingText(urls[i])), Progress(OutcomeText(urls[i], outcomes[i]))]
  {
    assert urls[..i + 1][..i] == urls[..i] && outcomes[..i + 1][..i] == outcomes[..i];
  }

  /** How many URLs a run attempts: none if it was stopped before it began,
      otherwise those before the one whose check first sees the stop. */
  function Attempted(wasRunning: bool, stopAt: nat, n: nat): (k: nat)
    ensures k <= n && (wasRunning ==> k <= stopAt)
    ensures !wasRunning ==> k == 0
    ensures wasRunning && stopAt >= n ==> k == n
    ensures wasRunning && stopAt < n ==> k == stopAt
  {
    if !wasRunning then 0 else if stopAt < n then stopAt else n
  }

  class WebWorker {
    const urls: seq<string>
    var running: bool
    var emitted: seq<Signal>

    constructor (urls: seq<string>)
      ensures this.urls == urls && running && emitted == []
    {
      this.urls := urls;
      running := true;
      emitted := [];
    }

    /** `stop()`: the loop sees it at its next check. */
    method Stop()
      modifies this
      ensures !running && emitted == old(emitted)
    {
      running := false;
    }

    /** One turn of the loop in `run()`, past the stop check: fetch `url`,
        which comes back with `o`, report it, and save a 200 response. */
    method Attempt(root: DataRoot, url: string, o: Outcome, html: string -> string, t: int)
      modifies this, root
      ensures running == old(running)
      ensures root.files == Fetched(old(root.files), url, o, html, t)
      ensures emitted == old(emitted) + [Progress(FetchingText(url)), Progress(OutcomeText(url, o))]
    {
      emitted := emitted + [Progress(Marked(Arrow, "Fetching " + url))];
      match o {
        case Response(status, contentType, body) =>
          if status == OkStatus {
            var text := if Contains(Lower(contentType), "text/plain") || EndsWith(url, ".txt")
                        then body else html(body);
            var name := Sanitize(url) + ".txt";
            root.Write(name, text, t);
            emitted := emitted + [Progress(Marked(Tick, "Saved " + name))];
          } else {
            emitted := emitted + [Progress(Marked(Cross, "HTTP " + IntToString(status)))];
          }
        case Raised(e) =>
          emitted := emitted + [Progress(ErrorText(e))];
      }
    }

    /** `run()`. `outcomes[i]` is what fetching `urls[i]` comes back with;
        `stopAt` is the iteration before whose check a concurrent `stop()`
        takes effect (none when it is past the end); `t` is the modification
        time saved files get. */
    method Run(root: DataRoot, outcomes: seq<Outcome>, html: string -> string, t: int, stopAt: nat)
      requires |outcomes| == |urls|
      modifies this, root
      ensures var k := Attempted(old(running), stopAt, |urls|);
              root.files == FetchAll(old(root.files), urls[..k], outcomes[..k], html, t) &&
              emitted == old(emitted) + Log(urls[..k], outcomes[..k]) + [Finished]
      ensures running == (old(running) && stopAt >= |urls|)
    {
      ghost var src, start, wasRunning := root.files, emitted, running;
      var i := 0;
      while i < |urls|
        invariant 0 <= i <= |urls|
        invariant running == wasRunning && i <= stopAt
        invariant !wasRunning ==> i == 0
        invariant root.files == FetchAll(src, urls[..i], outcomes[..i], html, t)
        invariant emitted == start + Log(urls[..i], outcomes[..i])
      {
        if i == stopAt {
          running := false;
        }
        if !running {
          break;
        }
        Attempt(root, urls[i], outcomes[i], html, t);
        AttemptUpTo(src, urls, outcomes, html, t, i);
        Text.ConcatAssoc(start, Log(urls[..i], outcomes[..i]),
                         [Progress(FetchingText(urls[i])), Progress(OutcomeText(urls[i], outcomes[i]))]);
        i := i + 1;
      }
      assert i == Attempted(wasRunning, stopAt, |urls|);
      emitted := emitted + [Finished];
    }
  }
}
