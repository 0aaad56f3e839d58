/** The code-block pattern ```` ```(?:\w+)?\s*(.*?)``` ```` (with `.` matching
    newlines) and `findall` over it, written as a scanner. A backquote is
    neither a word character nor whitespace, so backtracking into the
    optional language word or the whitespace run never uncovers a closing
    fence that the greedy choice missed: the match at a fence is the maximal
    word run, the maximal whitespace run, and then the body up to the first
    fence after them. */
module Fences {
  import opened Wrappers
  import opened Text

  const Fence: string := "```"

  /** Three backquotes start at `i`. */
  predicate FenceAt(s: string, i: int) {
    0 <= i && i + 3 <= |s| && s[i] == '`' && s[i + 1] == '`' && s[i + 2] == '`'
  }

  /** `FenceAt` is an occurrence of `Fence`. */
  lemma {:induction false} FenceAtOccurs(s: string, i: int)
    ensures FenceAt(s, i) <==> OccursAt(s, Fence, i)
  {
    if OccursAt(s, Fence, i) {
      assert s[i..i + 3][0] == s[i] && s[i..i + 3][1] == s[i + 1] && s[i..i + 3][2] == s[i + 2];
    }
    if FenceAt(s, i) {
      assert s[i..i + 3] == Fence;
    }
  }

  /** The end of the run of word characters that starts at `i`. */
  function SkipWord(s: string, i: nat): (j: nat)
    requires i <= |s|
    ensures i <= j <= |s|
    decreases |s| - i
  {
    if i < |s| && IsWordChar(s[i]) then SkipWord(s, i + 1) else i
  }

  /** `SkipWord` stops at the first character that is not a word character. */
  lemma {:induction false} SkipWordMaximal(s: string, i: nat)
    requires i <= |s|
    ensures var j := SkipWord(s, i);
            (forall k :: i <= k < j ==> IsWordChar(s[k])) && (j < |s| ==> !IsWordChar(s[j]))
    decreases |s| - i
  {
    if i < |s| && IsWordChar(s[i]) {
      SkipWordMaximal(s, i + 1);
    }
  }

  /** The end of the run of whitespace that starts at `i`. */
  function SkipSpace(s: string, i: nat): (j: nat)
    requires i <= |s|
    ensures i <= j <= |s|
    decreases |s| - i
  {
    if i < |s| && IsSpace(s[i]) then SkipSpace(s, i + 1) else i
  }

  /** `SkipSpace` stops at the first character that is not whitespace. */
  lemma {:induction false} SkipSpaceMaximal(s: string, i: nat)
    requires i <= |s|
    ensures var j := SkipSpace(s, i);
            (forall k :: i <= k < j ==> IsSpace(s[k])) && (j < |s| ==> !IsSpace(s[j]))
    decreases |s| - i
  {
    if i < |s| && IsSpace(s[i]) {
      SkipSpaceMaximal(s, i + 1);
    }
  }

  /** The first fence that starts at or after `i`. */
  function FindFence(s: string, i: nat): (r: Option<nat>)
    requires i <= |s|
    ensures r.Some? ==> i <= r.value && FenceAt(s, r.value)
    decreases |s| - i
  {
    if i + 3 > |s| then None
    else if FenceAt(s, i) then Some(i)
    else FindFence(s, i + 1)
  }

  /** `FindFence` finds the nearest fence, and finds one whenever there is one. */
  lemma {:induction false} FindFenceFirst(s: string, i: nat)
    requires i <= |s|
    ensures var r := FindFence(s, i);
            (r.Some? ==> forall k :: i <= k < r.value ==> !FenceAt(s, k)) &&
            (r.None? ==> forall k :: i <= k ==> !FenceAt(s, k))
    decreases |s| - i
  {
    if i + 3 <= |s| && !FenceAt(s, i) {
      FindFenceFirst(s, i + 1);
    }
  }

  /** One match: the opening fence at `start`, the captured body
      `s[body..close]`, and the closing fence at `close`. */
  datatype Match = Match(start: nat, body: nat, close: nat)

  /** The match the pattern finds when tried at position `p`, if any. */
  function MatchAt(s: string, p: nat): (r: Option<Match>)
    requires p <= |s|
    ensures r.Some? ==> r.value.start == p && p + 3 <= r.value.body <= r.value.close &&
                        r.value.close + 3 <= |s| && FenceAt(s, p) && FenceAt(s, r.value.close)
  {
    if !FenceAt(s, p) then None
    else
      var w := SkipWord(s, p + 3);
      var q := SkipSpace(s, w);
      match FindFence(s, q)
      case None => None
      case Some(c) => Some(Match(p, q, c))
  }

  /** The text a match captures. */
  function Body(s: string, m: Match): string
    requires m.body <= m.close <= |s|
  {
    s[m.body..m.close]
  }

  /** The pattern tried at `p` can succeed by taking the language word to
      end at `w`, the whitespace to end at `q` and the closing fence at `c`. */
  ghost predicate Feasible(s: string, p: nat, w: nat, q: nat, c: nat) {
    FenceAt(s, p) && p + 3 <= w <= q <= c && FenceAt(s, c) &&
    (forall k :: p + 3 <= k < w ==> IsWordChar(s[k])) &&
    (forall k :: w <= k < q ==> IsSpace(s[k]))
  }

  /** A character of a fence is neither a word character nor whitespace. */
  lemma {:induction false} FenceChars(s: string, k: int)
    requires FenceAt(s, k)
    ensures !IsWordChar(s[k]) && !IsSpace(s[k])
  {
  }

  /** The pattern succeeds at `p` exactly when there is a fence at `p` and
      another one starting at least three characters later. */
  lemma {:induction false} MatchAtExists(s: string, p: nat)
    requires p <= |s|
    ensures MatchAt(s, p).Some? <==>
            FenceAt(s, p) && exists c :: p + 3 <= c && FenceAt(s, c)
  {
    if FenceAt(s, p) && MatchAt(s, p).None? {
      var w := SkipWord(s, p + 3);
      var q := SkipSpace(s, w);
      SkipWordMaximal(s, p + 3);
      SkipSpaceMaximal(s, w);
      FindFenceFirst(s, q);
      forall c | p + 3 <= c
        ensures !FenceAt(s, c)
      {
        if c < q && FenceAt(s, c) {
          FenceChars(s, c);
        }
      }
    }
  }

  /** The match found at `p` is the one Python's backtracking prefers: among
      all the ways the pattern can succeed at `p`, it takes the longest
      language word, then the longest whitespace run, then the nearest
      closing fence. The body it captures holds no fence. */
  lemma {:induction false} MatchAtPreferred(s: string, p: nat)
    requires p <= |s|
    requires MatchAt(s, p).Some?
    ensures var m := MatchAt(s, p).value;
            m.start == p && m.body <= m.close && m.close + 3 <= |s| &&
            (exists w :: Feasible(s, p, w, m.body, m.close)) &&
            (forall w: nat, q: nat, c: nat :: Feasible(s, p, w, q, c) ==>
               w <= SkipWord(s, p + 3) &&
               (w == SkipWord(s, p + 3) ==> q <= m.body) &&
               (w == SkipWord(s, p + 3) && q == m.body ==> m.close <= c)) &&
            forall k :: !FenceAt(Body(s, m), k)
  {
    var m := MatchAt(s, p).value;
    var w0 := SkipWord(s, p + 3);
    SkipWordMaximal(s, p + 3);
    SkipSpaceMaximal(s, w0);
    FindFenceFirst(s, SkipSpace(s, w0));
    assert Feasible(s, p, w0, m.body, m.close);
    forall w: nat, q: nat, c: nat | Feasible(s, p, w, q, c)
      ensures w <= w0
      ensures w == w0 ==> q <= m.body
      ensures w == w0 && q == m.body ==> m.close <= c
    {
    }
    assert FindFence(s, SkipSpace(s, w0)) == Some(m.close) && SkipSpace(s, w0) == m.body;
    forall k
      ensures !FenceAt(Body(s, m), k)
    {
      SliceFence(s, m.body, m.close, k);
    }
  }

  /** A fence in a slice is a fence of the whole text. */
  lemma {:induction false} SliceFence(s: string, a: nat, b: nat, k: int)
    requires a <= b <= |s|
    ensures FenceAt(s[a..b], k) ==> a + k + 3 <= b && FenceAt(s, a + k)
  {
  }

  /** `findall` from position `i`: the matches, leftmost first, each search
      resuming after the previous match's closing fence. */
  function Scan(s: string, i: nat): seq<Match>
    requires i <= |s|
    decreases |s| - i
  {
    if i == |s| then []
    else
      var r := MatchAt(s, i);
      if r.None? then Scan(s, i + 1) else [r.value] + Scan(s, r.value.close + 3)
  }

  /** The pattern succeeds nowhere in `[a, b)`. */
  ghost predicate NoMatchIn(s: string, a: nat, b: nat) {
    forall p :: a <= p < b && p <= |s| ==> MatchAt(s, p).None?
  }

  /** `m` is the match a search that begins at `from` records: the pattern's
      own match at the first position at or after `from` where it succeeds. */
  ghost predicate FoundFrom(s: string, from: nat, m: Match) {
    from <= m.start <= |s| && MatchAt(s, m.start) == Some(m) && NoMatchIn(s, from, m.start)
  }

  /** `ms` is what `findall` returns from position `i`: nothing when the
      pattern succeeds nowhere from `i` on; otherwise the match a search from
      `i` records, followed by `findall` from after its closing fence. */
  ghost predicate IsFindAll(s: string, i: nat, ms: seq<Match>)
    decreases |ms|
  {
    if ms == [] then NoMatchIn(s, i, |s| + 1)
    else FoundFrom(s, i, ms[0]) && IsFindAll(s, ms[0].close + 3, ms[1..])
  }

  lemma {:induction false} NoMatchInExtend(s: string, i: nat, b: nat)
    requires i <= |s| && MatchAt(s, i).None? && NoMatchIn(s, i + 1, b)
    ensures NoMatchIn(s, i, b)
  {
  }

  /** Failing at `i` moves the search on by one position. */
  lemma {:induction false} FindAllSkip(s: string, i: nat, ms: seq<Match>)
    requires i < |s| && MatchAt(s, i).None?
    ensures IsFindAll(s, i + 1, ms) ==> IsFindAll(s, i, ms)
  {
    if !IsFindAll(s, i + 1, ms) {
    } else if ms == [] {
      NoMatchInExtend(s, i, |s| + 1);
    } else {
      assert FoundFrom(s, i + 1, ms[0]);
      NoMatchInExtend(s, i, ms[0].start);
      assert FoundFrom(s, i, ms[0]);
    }
  }

  /** Succeeding at `i` records the match and resumes after its closing fence. */
  lemma {:induction false} FindAllCons(s: string, i: nat, m: Match, rest: seq<Match>)
    requires i <= |s| && MatchAt(s, i) == Some(m)
    ensures IsFindAll(s, m.close + 3, rest) ==> IsFindAll(s, i, [m] + rest)
  {
    var ms := [m] + rest;
    assert ms[0] == m && ms[1..] == rest;
    assert FoundFrom(s, i, m) by {
      assert NoMatchIn(s, i, i);
    }
  }

  lemma {:induction false} ScanStep(s: string, i: nat)
    requires i < |s| && MatchAt(s, i).Some?
    ensures Scan(s, i) == [MatchAt(s, i).value] + Scan(s, MatchAt(s, i).value.close + 3)
  {
  }

  /** The scanner computes `findall`. */
  lemma {:induction false} ScanIsFindAll(s: string, i: nat)
    requires i <= |s|
    ensures IsFindAll(s, i, Scan(s, i))
    decreases |s| - i
  {
    var ms := Scan(s, i);
    if i == |s| {
      assert NoMatchIn(s, i, |s| + 1) by {
        assert !FenceAt(s, i);
      }
    } else if MatchAt(s, i).None? {
      ScanIsFindAll(s, i + 1);
      assert ms == Scan(s, i + 1);
      FindAllSkip(s, i, ms);
    } else {
      var m := MatchAt(s, i).value;
      var rest := Scan(s, m.close + 3);
      ScanIsFindAll(s, m.close + 3);
      assert ms == [m] + rest by {
        ScanStep(s, i);
      }
      FindAllCons(s, i, m, rest);
    }
  }

  /** The captured bodies, in order. */
  function Bodies(s: string, ms: seq<Match>): (r: seq<string>)
    requires forall k :: 0 <= k < |ms| ==> ms[k].body <= ms[k].close <= |s|
    ensures |r| == |ms|
    ensures forall k :: 0 <= k < |ms| ==> r[k] == Body(s, ms[k])
  {
    if ms == [] then [] else [Body(s, ms[0])] + Bodies(s, ms[1..])
  }

  /** Every match of a scan is well formed. */
  lemma {:induction false} ScanWellFormed(s: string, i: nat)
    requires i <= |s|
    ensures forall k :: 0 <= k < |Scan(s, i)| ==>
              i <= Scan(s, i)[k].start && Scan(s, i)[k].body <= Scan(s, i)[k].close &&
              Scan(s, i)[k].close + 3 <= |s|
    decreases |s| - i
  {
    if i < |s| {
      match MatchAt(s, i)
      case None =>
        ScanWellFormed(s, i + 1);
      case Some(m) =>
        MatchAtPreferred(s, i);
        ScanWellFormed(s, m.close + 3);
    }
  }

  /** `code_block.findall(text)` */
  function Snippets(text: string): seq<string> {
    ScanWellFormed(text, 0);
    Bodies(text, Scan(text, 0))
  }

  /** A scan finds something exactly when the pattern succeeds somewhere. */
  lemma {:induction false} ScanNonEmpty(s: string, i: nat)
    requires i <= |s|
    ensures Scan(s, i) != [] <==> exists p :: i <= p <= |s| && MatchAt(s, p).Some?
    decreases |s| - i
  {
    if i < |s| && MatchAt(s, i).None? {
      ScanNonEmpty(s, i + 1);
      if exists p :: i <= p <= |s| && MatchAt(s, p).Some? {
        var p :| i <= p <= |s| && MatchAt(s, p).Some?;
        assert p != i;
      }
    } else if i == |s| {
      assert !FenceAt(s, i);
    }
  }

  /** A text has snippets exactly when it has an opening fence followed,
      after it, by a closing one. */
  lemma {:induction false} SnippetsExist(text: string)
    ensures Snippets(text) != [] <==>
            exists p, c :: 0 <= p && p + 3 <= c && FenceAt(text, p) && FenceAt(text, c)
  {
    ScanNonEmpty(text, 0);
    if Snippets(text) != [] {
      var p :| 0 <= p <= |text| && MatchAt(text, p).Some?;
      MatchAtExists(text, p);
    } else if exists p, c :: 0 <= p && p + 3 <= c && FenceAt(text, p) && FenceAt(text, c) {
      var p, c :| 0 <= p && p + 3 <= c && FenceAt(text, p) && FenceAt(text, c);
      MatchAtExists(text, p);
      assert p <= |text|;
    }
  }

  /** The contents of `{stem}_code.sh`. */
  function CodeFile(text: string): string {
    Join("\n\n", Snippets(text))
  }

  /** A fenced block with a language tag: the tag and the newline after it
      are not part of the snippet. */
  lemma ExampleTaggedBlock()
    ensures Snippets("x```sh\nls -l\n```y") == ["ls -l\n"]
  {
    var s := "x```sh\nls -l\n```y";
    assert MatchAt(s, 1) == Some(Match(1, 7, 13)) by {
      assert s[4] == 's' && s[5] == 'h' && s[6] == '\n' && s[7] == 'l';
      assert s[8] == 's' && s[9] == ' ' && s[10] == '-' && s[11] == 'l' && s[12] == '\n';
      assert s[1..4] == Fence && s[13..16] == Fence;
      assert SkipWord(s, 4) == 6 by {
        assert SkipWord(s, 6) == 6;
      }
      assert SkipSpace(s, 6) == 7 by {
        assert SkipSpace(s, 7) == 7;
      }
      assert FindFence(s, 7) == Some(13) by {
        assert FindFence(s, 13) == Some(13);
        assert FindFence(s, 12) == Some(13);
        assert FindFence(s, 11) == Some(13);
        assert FindFence(s, 10) == Some(13);
        assert FindFence(s, 9) == Some(13);
        assert FindFence(s, 8) == Some(13);
      }
    }
    assert Scan(s, 16) == [] by {
      assert MatchAt(s, 16).None?;
      assert Scan(s, 17) == [];
    }
    assert Scan(s, 1) == [Match(1, 7, 13)] by {
      ScanStep(s, 1);
    }
    assert MatchAt(s, 0).None? by {
      assert s[0] == 'x';
      assert !FenceAt(s, 0);
    }
    assert Scan(s, 0) == [Match(1, 7, 13)];
    assert s[7..13] == "ls -l\n";
  }
}
