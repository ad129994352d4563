/** `sqlSanitize` of server/middleware/security.js: every string inside
    `req.query` and `req.body` loses each whole-word, case-insensitive
    occurrence of ten SQL keywords (a global regular-expression replacement
    with the empty string), and objects are rewritten property by property
    in place. */
module Security {
  import opened Common

  // ---------------------------------------------------------------------------
  // The regular expression

  /** The alternatives of the pattern, in order. Without the `u` flag, `i`
      compares characters by their upper-case form and never lets a non-ASCII
      character stand for an ASCII one, so ASCII case folding is exact. */
  const Keywords: seq<string> :=
    ["select", "insert", "update", "delete", "drop", "create", "alter", "exec", "union", "script"]

  /** A list of alternatives the scan below handles: each is a non-empty
      word of lower-case ASCII letters. */
  predicate LetterWords(ks: seq<string>) {
    forall n :: 0 <= n < |ks| ==> |ks[n]| > 0 && forall t :: 0 <= t < |ks[n]| ==> IsLower(ks[n][t])
  }

  lemma KeywordsAreLetterWords()
    ensures LetterWords(Keywords)
  {
    forall n | 0 <= n < |Keywords|
      ensures |Keywords[n]| > 0 && forall t :: 0 <= t < |Keywords[n]| ==> IsLower(Keywords[n][t])
    {
      if n == 0 { assert Keywords[n] == "select"; }
      else if n == 1 { assert Keywords[n] == "insert"; }
      else if n == 2 { assert Keywords[n] == "update"; }
      else if n == 3 { assert Keywords[n] == "delete"; }
      else if n == 4 { assert Keywords[n] == "drop"; }
      else if n == 5 { assert Keywords[n] == "create"; }
      else if n == 6 { assert Keywords[n] == "alter"; }
      else if n == 7 { assert Keywords[n] == "exec"; }
      else if n == 8 { assert Keywords[n] == "union"; }
      else { assert Keywords[n] == "script"; }
    }
  }

  /** `\b` before position `i`, where a keyword's first letter stands. */
  predicate WordStart(s: string, i: nat)
    requires i <= |s|
  {
    i == 0 || !IsWordChar(s[i - 1])
  }

  /** `\b` at position `j`, just after a keyword's last letter. */
  predicate WordEnd(s: string, j: nat)
    requires j <= |s|
  {
    j == |s| || !IsWordChar(s[j])
  }

  /** Alternative `n` of `ks` occurs at position `i` of `s`, in any ASCII
      case, as a whole word. */
  predicate KeywordAt(ks: seq<string>, s: string, i: nat, n: nat) {
    && n < |ks| && i + |ks[n]| <= |s|
    && FoldCase(s[i..i + |ks[n]|]) == ks[n]
    && WordStart(s, i) && WordEnd(s, i + |ks[n]|)
  }

  /** The alternatives tried in order at position `i`, from the `n`th on. */
  function MatchFrom(ks: seq<string>, s: string, i: nat, n: nat): (r: Option<nat>)
    ensures r.Some? ==> n <= r.value && KeywordAt(ks, s, i, r.value)
    ensures r.None? ==> forall m :: n <= m ==> !KeywordAt(ks, s, i, m)
    decreases |ks| - n
  {
    if n >= |ks| then None
    else if KeywordAt(ks, s, i, n) then Some(n)
    else MatchFrom(ks, s, i, n + 1)
  }

  /** The global replacement scanning from position `i`: a match is dropped
      and the scan goes on after it; otherwise the character is copied. */
  function Strip(ks: seq<string>, s: string, i: nat): string
    requires LetterWords(ks) && i <= |s|
    decreases |s| - i
  {
    if i == |s| then []
    else match MatchFrom(ks, s, i, 0)
      case Some(n) => Strip(ks, s, i + |ks[n]|)
      case None => [s[i]] + Strip(ks, s, i + 1)
  }

  /** What `sanitize` returns for a string. */
  function Sanitize(s: string): string {
    KeywordsAreLetterWords();
    Strip(Keywords, s, 0)
  }

  // ---------------------------------------------------------------------------
  // What the replacement removes, position by position

  /** Position `p` lies inside a whole-word occurrence. */
  predicate Covered(ks: seq<string>, s: string, p: nat) {
    exists i: nat, n: nat {:trigger KeywordAt(ks, s, i, n)} :: n < |ks| && i <= p < i + |ks[n]| && KeywordAt(ks, s, i, n)
  }

  /** The characters of `s` from position `i` on that lie in no whole-word
      occurrence, in their order. */
  function Kept(ks: seq<string>, s: string, i: nat): string
    requires i <= |s|
    decreases |s| - i
  {
    if i == |s| then [] else (if Covered(ks, s, i) then [] else [s[i]]) + Kept(ks, s, i + 1)
  }

  /** Position `i` is strictly inside an occurrence, past its first letter. */
  predicate Inside(ks: seq<string>, s: string, i: nat) {
    exists j: nat, n: nat {:trigger KeywordAt(ks, s, j, n)} :: n < |ks| && j < i < j + |ks[n]| && KeywordAt(ks, s, j, n)
  }

  /** Every character of an occurrence is an ASCII letter. */
  lemma OccurrenceLetter(ks: seq<string>, s: string, i: nat, n: nat, p: nat)
    requires LetterWords(ks) && KeywordAt(ks, s, i, n) && i <= p < i + |ks[n]|
    ensures IsLetter(s[p]) && IsWordChar(s[p])
  {
    assert FoldCase(s[i..i + |ks[n]|])[p - i] == FoldChar(s[p]);
    assert IsLower(ks[n][p - i]);
  }

  /** Every character of an occurrence is a `\w` character. */
  lemma OccurrenceWordChars(ks: seq<string>, s: string, i: nat, n: nat)
    requires LetterWords(ks) && KeywordAt(ks, s, i, n)
    ensures forall p :: i <= p < i + |ks[n]| ==> IsWordChar(s[p])
  {
    forall p | i <= p < i + |ks[n]| ensures IsWordChar(s[p]) {
      OccurrenceLetter(ks, s, i, n, p);
    }
  }

  /** Two occurrences never overlap: one that starts inside another would
      need a `\b` between two letters. */
  lemma NoOverlap(ks: seq<string>, s: string, i: nat, n: nat, j: nat, m: nat)
    requires LetterWords(ks) && KeywordAt(ks, s, i, n) && KeywordAt(ks, s, j, m)
    requires i <= j < i + |ks[n]|
    ensures j == i && |ks[m]| == |ks[n]|
  {
    OccurrenceWordChars(ks, s, i, n);
    OccurrenceWordChars(ks, s, j, m);
  }

  /** Skipping a whole occurrence skips only covered positions. */
  lemma {:induction false} KeptSkips(ks: seq<string>, s: string, i: nat, n: nat, p: nat)
    requires KeywordAt(ks, s, i, n) && i <= p <= i + |ks[n]|
    ensures Kept(ks, s, p) == Kept(ks, s, i + |ks[n]|)
    decreases i + |ks[n]| - p
  {
    if p < i + |ks[n]| {
      assert Covered(ks, s, p);
      KeptSkips(ks, s, i, n, p + 1);
    }
  }

  /** After a match the scan resumes outside every occurrence. */
  lemma ResumeAfterMatch(ks: seq<string>, s: string, i: nat, n: nat)
    requires LetterWords(ks) && !Inside(ks, s, i) && KeywordAt(ks, s, i, n)
    ensures !Inside(ks, s, i + |ks[n]|)
  {
    var e := i + |ks[n]|;
    forall j: nat, m: nat | m < |ks| && KeywordAt(ks, s, j, m) && j < e ensures j + |ks[m]| <= e {
      if i <= j {
        NoOverlap(ks, s, i, n, j, m);
      }
    }
  }

  /** Where no alternative matches, the character is outside every
      occurrence and so is the next position. */
  lemma CopyWithoutMatch(ks: seq<string>, s: string, i: nat)
    requires i < |s| && !Inside(ks, s, i)
    requires forall m :: !KeywordAt(ks, s, i, m)
    ensures !Covered(ks, s, i) && !Inside(ks, s, i + 1)
  {
  }

  /** A match at `i` is dropped: both sides go on after it. */
  lemma {:induction false} ScanSkip(ks: seq<string>, s: string, i: nat, n: nat)
    requires LetterWords(ks) && i < |s| && !Inside(ks, s, i) && MatchFrom(ks, s, i, 0) == Some(n)
    ensures n < |ks| && i < i + |ks[n]| <= |s| && !Inside(ks, s, i + |ks[n]|)
    ensures Strip(ks, s, i) == Strip(ks, s, i + |ks[n]|) && Kept(ks, s, i) == Kept(ks, s, i + |ks[n]|)
  {
    KeptSkips(ks, s, i, n, i);
    ResumeAfterMatch(ks, s, i, n);
  }

  /** With no match at `i` the character is kept on both sides. */
  lemma {:induction false} ScanCopy(ks: seq<string>, s: string, i: nat)
    requires LetterWords(ks) && i < |s| && !Inside(ks, s, i) && MatchFrom(ks, s, i, 0).None?
    ensures !Inside(ks, s, i + 1)
    ensures Strip(ks, s, i) == [s[i]] + Strip(ks, s, i + 1) && Kept(ks, s, i) == [s[i]] + Kept(ks, s, i + 1)
  {
    CopyWithoutMatch(ks, s, i);
  }

  /** The scan from a position outside every occurrence keeps exactly the
      uncovered characters. */
  lemma {:induction false} StripKeepsUncovered(ks: seq<string>, s: string, i: nat)
    requires LetterWords(ks) && i <= |s| && !Inside(ks, s, i)
    ensures Strip(ks, s, i) == Kept(ks, s, i)
    decreases |s| - i
  {
    if i < |s| {
      match MatchFrom(ks, s, i, 0)
      case Some(n) =>
        ScanSkip(ks, s, i, n);
        StripKeepsUncovered(ks, s, i + |ks[n]|);
      case None =>
        ScanCopy(ks, s, i);
        StripKeepsUncovered(ks, s, i + 1);
    }
  }

  /** `sanitize` on a string removes exactly the characters of the whole-word
      keyword occurrences and keeps every other character, in order. */
  lemma SanitizeRemovesExactlyKeywords(s: string)
    ensures Sanitize(s) == Kept(Keywords, s, 0)
  {
    KeywordsAreLetterWords();
    StripKeepsUncovered(Keywords, s, 0);
  }

  /** A string without a whole-word keyword comes back unchanged. */
  lemma {:induction false} KeptAll(ks: seq<string>, s: string, i: nat)
    requires i <= |s|
    requires forall j: nat, n: nat :: !KeywordAt(ks, s, j, n)
    ensures Kept(ks, s, i) == s[i..]
    decreases |s| - i
  {
    if i < |s| {
      KeptAll(ks, s, i + 1);
      assert s[i..] == [s[i]] + s[i + 1..];
    }
  }

  lemma SanitizeUnchanged(s: string)
    requires forall j: nat, n: nat :: !KeywordAt(Keywords, s, j, n)
    ensures Sanitize(s) == s
  {
    SanitizeRemovesExactlyKeywords(s);
    KeptAll(Keywords, s, 0);
  }

  /** `t` can be obtained from `s` by deleting characters. */
  predicate Subsequence(t: string, s: string)
    decreases |s|
  {
    t == [] || (s != [] && ((t[0] == s[0] && Subsequence(t[1..], s[1..])) || Subsequence(t, s[1..])))
  }

  lemma {:induction false} KeptSubsequence(ks: seq<string>, s: string, i: nat)
    requires i <= |s|
    ensures Subsequence(Kept(ks, s, i), s[i..])
    decreases |s| - i
  {
    if i < |s| {
      KeptSubsequence(ks, s, i + 1);
      assert s[i..][1..] == s[i + 1..];
      var k := Kept(ks, s, i);
      if Covered(ks, s, i) {
        assert k == Kept(ks, s, i + 1);
      } else {
        assert k[0] == s[i] && k[1..] == Kept(ks, s, i + 1);
      }
    }
  }

  /** Nothing is added or reordered: the result is a subsequence of the
      input. */
  lemma SanitizeSubsequence(s: string)
    ensures Subsequence(Sanitize(s), s)
  {
    SanitizeRemovesExactlyKeywords(s);
    KeptSubsequence(Keywords, s, 0);
    assert s[0..] == s;
  }

  /** No occurrence covers part of a maximal word that is not itself an
      alternative. */
  lemma WordNotCovered(ks: seq<string>, s: string, a: nat, b: nat, p: nat)
    requires LetterWords(ks)
    requires a <= p < b <= |s|
    requires WordStart(s, a) && WordEnd(s, b)
    requires forall k :: a <= k < b ==> IsWordChar(s[k])
    requires FoldCase(s[a..b]) !in ks
    ensures !Covered(ks, s, p)
  {
    forall j: nat, n: nat | n < |ks| && KeywordAt(ks, s, j, n) ensures p < j || j + |ks[n]| <= p {
      OccurrenceVsWord(ks, s, j, n, a, b);
    }
  }

  /** An occurrence and a maximal word either do not meet or are the same
      piece of `s`. */
  lemma OccurrenceVsWord(ks: seq<string>, s: string, j: nat, n: nat, a: nat, b: nat)
    requires LetterWords(ks) && KeywordAt(ks, s, j, n)
    requires a < b <= |s|
    requires WordStart(s, a) && WordEnd(s, b)
    requires forall k :: a <= k < b ==> IsWordChar(s[k])
    ensures j + |ks[n]| <= a || b <= j || (j == a && j + |ks[n]| == b && FoldCase(s[a..b]) == ks[n])
  {
    OccurrenceWordChars(ks, s, j, n);
  }

  /** A word (a maximal run of `\w` characters from `a` to `b`) that is not
      itself a keyword loses no character, so `SELECTED`, `updates` and
      `DROPS` are kept whole. */
  lemma WholeWordsOnly(s: string, a: nat, b: nat, p: nat)
    requires a <= p < b <= |s|
    requires WordStart(s, a) && WordEnd(s, b)
    requires forall k :: a <= k < b ==> IsWordChar(s[k])
    requires FoldCase(s[a..b]) !in Keywords
    ensures !Covered(Keywords, s, p)
  {
    KeywordsAreLetterWords();
    WordNotCovered(Keywords, s, a, b, p);
  }

  // ---------------------------------------------------------------------------
  // Values and the in-place walk

  /** A JavaScript value as a parsed query string or body holds it; an array
      is an object whose keys are its indices. Numbers are integers here. */
  datatype Value = Undefined | Null | Bool(b: bool) | Number(n: int) | Str(s: string) | Obj(fields: seq<Field>)

  /** One own property, in `Object.keys` order. */
  datatype Field = Field(key: string, value: Value)

  /** JavaScript truthiness. */
  predicate JsTruthy(v: Value) {
    match v
    case Undefined => false
    case Null => false
    case Bool(b) => b
    case Number(n) => n != 0
    case Str(s) => s != ""
    case Obj(_) => true
  }

  /** The value `sanitize(v)` leaves: strings are cleaned, objects are walked
      with their keys kept, everything else (null included) is untouched. */
  function SanitizeValue(v: Value): (r: Value)
    ensures r.Str? <==> v.Str?
    ensures v.Str? ==> r.s == Sanitize(v.s)
    ensures r.Obj? <==> v.Obj?
    ensures v.Obj? ==> |r.fields| == |v.fields|
    ensures v.Obj? ==> forall i :: 0 <= i < |v.fields| ==>
      r.fields[i].key == v.fields[i].key && r.fields[i].value == SanitizeValue(v.fields[i].value)
    ensures !v.Str? && !v.Obj? ==> r == v
  {
    match v
    case Str(s) => Str(Sanitize(s))
    case Obj(fs) => Obj(seq(|fs|, i requires 0 <= i < |fs| => Field(fs[i].key, SanitizeValue(fs[i].value))))
    case _ => v
  }

  /** What `sanitize(obj)` changes in place: an object has every property
      replaced; for any other value the result is returned and dropped, so
      nothing changes. */
  function InPlace(v: Value): (r: Value)
    ensures v.Obj? ==> r == SanitizeValue(v)
    ensures !v.Obj? ==> r == v
  {
    if v.Obj? then SanitizeValue(v) else v
  }

  /** The two parts of the request the middleware walks. */
  datatype Part = Query | Body

  /** The request as `sqlSanitize` sees it: `req.query`, `req.body`, and how
      many times `next` has been called. */
  class Request {
    var query: Value
    var body: Value
    var nextCalls: nat

    constructor (query: Value, body: Value)
      ensures this.query == query && this.body == body && nextCalls == 0
    {
      this.query := query;
      this.body := body;
      nextCalls := 0;
    }

    function Get(p: Part): Value
      reads this
    {
      if p == Query then query else body
    }

    /** `Object.keys(obj).forEach(key => { obj[key] = sanitize(obj[key]); })`
        on one part: the properties are rewritten one at a time, in key
        order, and the other part is not touched. */
    method SanitizePart(p: Part)
      modifies this
      ensures Get(p) == InPlace(old(Get(p)))
      ensures p == Query ==> body == old(body)
      ensures p == Body ==> query == old(query)
      ensures nextCalls == old(nextCalls)
    {
      var v := Get(p);
      if v.Obj? {
        ghost var fs := v.fields;
        var i := 0;
        while i < |v.fields|
          invariant v.Obj? && |v.fields| == |fs| && 0 <= i <= |fs|
          invariant Get(p) == v
          invariant forall k :: 0 <= k < i ==> v.fields[k] == Field(fs[k].key, SanitizeValue(fs[k].value))
          invariant forall k :: i <= k < |fs| ==> v.fields[k] == fs[k]
          invariant p == Query ==> body == old(body)
          invariant p == Body ==> query == old(query)
          invariant nextCalls == old(nextCalls)
        {
          v := v.(fields := v.fields[i := Field(v.fields[i].key, SanitizeValue(v.fields[i].value))]);
          if p == Query { query := v; } else { body := v; }
          i := i + 1;
        }
        assert v.fields == SanitizeValue(old(Get(p))).fields;
      }
    }

    /** The middleware: `req.query` and then `req.body` are walked when they
        are truthy, and `next()` is called once. */
    method SqlSanitize()
      modifies this
      ensures query == InPlace(old(query)) && body == InPlace(old(body))
      ensures nextCalls == old(nextCalls) + 1
    {
      if JsTruthy(query) {
        SanitizePart(Query);
      }
      if JsTruthy(body) {
        SanitizePart(Body);
      }
      nextCalls := nextCalls + 1;
    }
  }
}
