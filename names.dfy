/** File names in the document directory: the name a fetched URL is stored
    under, the `*.txt` filter, `Path.stem`, and the names of derived files. */
module Names {
  import opened Text

  /** A stored name keeps only this many characters from the end of the URL. */
  const MaxNameLength: nat := 50

  /** Characters kept as they are in a stored name. */
  predicate IsSafe(c: char) {
    IsAlnum(c) || c == '.' || c == '_' || c == '-'
  }

  function SafeChar(c: char): (r: char)
    ensures IsSafe(r)
    ensures IsSafe(c) ==> r == c
  {
    if IsSafe(c) then c else '_'
  }

  /** `s[-n:]`: the last `n` characters, or all of `s` when it is shorter. */
  function TakeLast(s: string, n: nat): (r: string)
    ensures |r| == if |s| <= n then |s| else n
    ensures r == s[|s| - |r|..]
  {
    if |s| <= n then s else s[|s| - n..]
  }

  function ReplaceUnsafe(s: string): (r: string)
    ensures |r| == |s|
    ensures forall i :: 0 <= i < |s| ==> r[i] == SafeChar(s[i])
  {
    if s == [] then [] else [SafeChar(s[0])] + ReplaceUnsafe(s[1..])
  }

  /** The name a fetched URL is stored under (without its `.txt`): the last
      50 characters of the URL, each unsafe one replaced by `_`. */
  function Sanitize(url: string): (name: string)
    ensures |name| == if |url| <= MaxNameLength then |url| else MaxNameLength
    ensures forall i :: 0 <= i < |name| ==> IsSafe(name[i])
    ensures forall i :: 0 <= i < |name| ==>
      name[i] == if IsSafe(url[|url| - |name| + i]) then url[|url| - |name| + i] else '_'
  {
    ReplaceUnsafe(TakeLast(url, MaxNameLength))
  }

  /** A name is its own sanitisation exactly when it is short enough and
      uses only safe characters. */
  lemma SanitizeFixedPoint(s: string)
    ensures Sanitize(s) == s <==> |s| <= MaxNameLength && forall i :: 0 <= i < |s| ==> IsSafe(s[i])
  {
    if |s| <= MaxNameLength && forall i :: 0 <= i < |s| ==> IsSafe(s[i]) {
      assert Sanitize(s) == s;
    }
  }

  /** Sanitising twice is sanitising once. */
  lemma SanitizeIdempotent(url: string)
    ensures Sanitize(Sanitize(url)) == Sanitize(url)
  {
    SanitizeFixedPoint(Sanitize(url));
  }

  /** The file a fetched URL is written to. */
  function SavedName(url: string): string {
    Sanitize(url) + ".txt"
  }

  /** Matched by the pattern `*.txt`. */
  predicate IsTxt(name: string) {
    EndsWith(name, ".txt")
  }

  /** `s.rfind(c)`: the index of the last `c` in `s`, or -1. */
  function RFind(s: string, c: char): (r: int)
    ensures -1 <= r < |s|
    ensures r >= 0 ==> s[r] == c
    ensures forall k :: r < k < |s| ==> s[k] != c
  {
    if s == [] then -1
    else if s[|s| - 1] == c then |s| - 1
    else RFind(s[..|s| - 1], c)
  }

  /** `PurePath(name).stem`: the name without its last suffix; a name whose
      only dot is its first or last character has no suffix. */
  function Stem(name: string): string {
    var i := RFind(name, '.');
    if 0 < i < |name| - 1 then name[..i] else name
  }

  /** The stem of a `*.txt` name drops the `.txt`, except for the name
      `.txt` itself, which is all stem. */
  lemma StemOfTxt(name: string)
    requires IsTxt(name)
    ensures Stem(name) == if |name| == 4 then name else name[..|name| - 4]
  {
    var k := |name| - 4;
    assert name[k..] == ".txt";
    assert name[k] == '.' && name[k + 1] == 't' && name[k + 2] == 'x' && name[k + 3] == 't';
    assert RFind(name, '.') == k;
  }

  /** A fetched page is saved as a `*.txt` file whose stem is the sanitised
      URL, unless the URL is empty, when the file is `.txt`. */
  lemma SavedNameStem(url: string)
    ensures IsTxt(SavedName(url))
    ensures url != [] ==> Stem(SavedName(url)) == Sanitize(url)
    ensures url == [] ==> SavedName(url) == ".txt" && Stem(SavedName(url)) == ".txt"
  {
    var name := SavedName(url);
    assert name[|name| - 4..] == ".txt";
    StemOfTxt(name);
    assert name[..|name| - 4] == Sanitize(url);
  }

  /** `{stem}_summary.txt` */
  function SummaryName(stem: string): string {
    stem + "_summary.txt"
  }

  /** Distinct stems have distinct summaries. */
  lemma SummaryNameInjective(a: string, b: string)
    requires SummaryName(a) == SummaryName(b)
    ensures a == b
  {
    assert |a| == |b|;
    assert a == SummaryName(a)[..|a|] && b == SummaryName(b)[..|b|];
  }

  /** `{stem}_classified_{category}.txt` */
  function ClassifiedName(stem: string, category: string): string {
    stem + "_classified_" + category + ".txt"
  }

  /** `{stem}_code.sh` */
  function CodeName(stem: string): string {
    stem + "_code.sh"
  }

  /** Distinct stems have distinct code files. */
  lemma CodeNameInjective(a: string, b: string)
    ensures CodeName(a) == CodeName(b) <==> a == b
  {
    if CodeName(a) == CodeName(b) {
      assert |a| == |b|;
      assert a == CodeName(a)[..|a|] && b == CodeName(b)[..|b|];
    }
  }

  /** Summaries and classified copies are `*.txt` files themselves, so later
      passes and the index see them; extracted code is not. */
  lemma DerivedNamesKinds(stem: string, category: string)
    ensures IsTxt(SummaryName(stem))
    ensures IsTxt(ClassifiedName(stem, category))
    ensures !IsTxt(CodeName(stem))
  {
    var s := SummaryName(stem);
    assert s[|s| - 4..] == ".txt";
    var c := ClassifiedName(stem, category);
    assert c[|c| - 4..] == ".txt";
    var k := CodeName(stem);
    assert k[|k| - 1] == 'h';
  }
}
