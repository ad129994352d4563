/** Shared vocabulary of the model: optional values, the character classes the
    server's regular expressions and validators use, JavaScript's trim, decimal
    rendering of numbers and the count of SQL placeholders in a statement. */
module Common {

  datatype Option<T> = None | Some(value: T) {
    function GetOr(default: T): T {
      match this
      case Some(v) => v
      case None => default
    }
  }

  /** `x || null` on a request string. */
  function OrNull(s: string): (r: Option<string>)
    ensures r.None? <==> s == ""
    ensures r.Some? ==> r.value == s
  {
    if s == "" then None else Some(s)
  }

  // ---------------------------------------------------------------------------
  // Character classes (ASCII, as in JavaScript regular expressions without the
  // `u` flag: `\d`, `[a-z]`, `[A-Z]`, `\w`)

  predicate IsDigit(c: char) { '0' <= c <= '9' }
  predicate IsLower(c: char) { 'a' <= c <= 'z' }
  predicate IsUpper(c: char) { 'A' <= c <= 'Z' }
  predicate IsLetter(c: char) { IsLower(c) || IsUpper(c) }
  /** `\w`, whose edges `\b` detects. */
  predicate IsWordChar(c: char) { IsLetter(c) || IsDigit(c) || c == '_' }

  /** The white space that `String.prototype.trim` and `\s` remove: the
      WhiteSpace and LineTerminator code points of ECMAScript. */
  predicate IsSpace(c: char) {
    || c == '\t' || c == '\n' || c == '\U{000B}' || c == '\U{000C}' || c == '\r'
    || c == ' ' || c == '\U{00A0}' || c == '\U{1680}'
    || ('\U{2000}' <= c <= '\U{200A}')
    || c == '\U{2028}' || c == '\U{2029}' || c == '\U{202F}' || c == '\U{205F}'
    || c == '\U{3000}' || c == '\U{FEFF}'
  }

  predicate AllSpace(s: string) { forall k :: 0 <= k < |s| ==> IsSpace(s[k]) }

  /** ASCII lower-casing, the case folding SQLite's LIKE applies. */
  function FoldChar(c: char): (r: char)
    ensures IsUpper(c) ==> IsLower(r)
    ensures !IsUpper(c) ==> r == c
  {
    if IsUpper(c) then (c as int + 32) as char else c
  }

  function FoldCase(s: string): (r: string)
    ensures |r| == |s|
    ensures forall k :: 0 <= k < |s| ==> r[k] == FoldChar(s[k])
  {
    seq(|s|, k requires 0 <= k < |s| => FoldChar(s[k]))
  }

  /** `needle` occurs in `hay` as a contiguous piece. */
  predicate Contains(hay: string, needle: string)
    decreases |hay|
  {
    needle <= hay || (hay != [] && Contains(hay[1..], needle))
  }

  lemma {:induction false} ContainsItself(s: string, pre: string, post: string)
    ensures Contains(pre + s + post, s)
    decreases |pre|
  {
    if pre == [] {
      assert pre + s + post == s + post;
    } else {
      assert (pre + s + post)[1..] == pre[1..] + s + post;
      ContainsItself(s, pre[1..], post);
    }
  }

  lemma {:induction false} ContainsOnlyIfShorter(hay: string, needle: string)
    requires Contains(hay, needle)
    ensures |needle| <= |hay|
    decreases |hay|
  {
    if !(needle <= hay) {
      ContainsOnlyIfShorter(hay[1..], needle);
    }
  }

  // ---------------------------------------------------------------------------
  // trim

  function TrimStart(s: string): (r: string)
    ensures |r| <= |s| && r == s[|s| - |r|..]
    ensures r == [] || !IsSpace(r[0])
    ensures forall k :: 0 <= k < |s| - |r| ==> IsSpace(s[k])
  {
    if s != [] && IsSpace(s[0]) then TrimStart(s[1..]) else s
  }

  function TrimEnd(s: string): (r: string)
    ensures |r| <= |s| && r == s[..|r|]
    ensures r == [] || !IsSpace(r[|r| - 1])
    ensures forall k :: |r| <= k < |s| ==> IsSpace(s[k])
  {
    if s != [] && IsSpace(s[|s| - 1]) then TrimEnd(s[..|s| - 1]) else s
  }

  /** `s` is `r` at position `i` with only characters satisfying `pad`
      before and after it. */
  predicate PaddedBy(s: string, r: string, i: int, pad: char -> bool) {
    && 0 <= i <= |s| - |r| && r == s[i..i + |r|]
    && (forall k :: 0 <= k < i ==> pad(s[k]))
    && (forall k :: i + |r| <= k < |s| ==> pad(s[k]))
  }

  /** `s` is `r` at position `i` with only white space before and after it. */
  predicate PaddedAt(s: string, r: string, i: int) {
    PaddedBy(s, r, i, IsSpace)
  }

  /** `String.prototype.trim` (and express-validator's `trim()` sanitizer):
      the result is `s` without the white space at its start and its end, so
      a piece of `s` that begins and ends with a visible character, or empty
      exactly when `s` is all white space. */
  function Trim(s: string): (r: string)
    ensures |r| <= |s|
    ensures r == [] || (!IsSpace(r[0]) && !IsSpace(r[|r| - 1]))
    ensures r == [] <==> AllSpace(s)
    ensures Contains(s, r)
  {
    TrimPieces(s);
    TrimEnd(TrimStart(s))
  }

  /** Trimming removes the white space at both ends and nothing else: the
      result sits in `s` with only white space before and after it. */
  lemma TrimRemovesOnlyEnds(s: string)
    ensures exists i :: PaddedAt(s, Trim(s), i)
  {
    TrimSlice(s);
    assert PaddedAt(s, Trim(s), |s| - |TrimStart(s)|);
  }

  /** Where the trimmed piece sits: after the leading white space, followed
      only by white space. */
  lemma TrimSlice(s: string)
    ensures PaddedAt(s, TrimEnd(TrimStart(s)), |s| - |TrimStart(s)|)
  {
    var a := TrimStart(s);
    var r := TrimEnd(a);
    assert a == s[|s| - |a|..];
    assert r == a[..|r|];
    assert forall k :: 0 <= k < |s| - |a| ==> IsSpace(s[k]);
    assert forall k :: |r| <= k < |a| ==> IsSpace(a[k]);
    SuffixPrefixPadded(s, a, r, IsSpace);
  }

  /** A prefix `r` of a suffix `a` of `s`, where `pad` holds of what `a`
      leaves out of `s` and of what `r` leaves out of `a`, sits padded in `s`. */
  lemma SuffixPrefixPadded(s: string, a: string, r: string, pad: char -> bool)
    requires |a| <= |s| && a == s[|s| - |a|..] && |r| <= |a| && r == a[..|r|]
    requires forall k :: 0 <= k < |s| - |a| ==> pad(s[k])
    requires forall k :: |r| <= k < |a| ==> pad(a[k])
    ensures PaddedBy(s, r, |s| - |a|, pad)
  {
    var i := |s| - |a|;
    forall k | i + |r| <= k < |s| ensures pad(s[k]) {
      assert s[k] == a[k - i];
    }
  }

  lemma TrimPieces(s: string)
    ensures Contains(s, TrimEnd(TrimStart(s)))
    ensures TrimEnd(TrimStart(s)) == [] <==> AllSpace(s)
    ensures TrimEnd(TrimStart(s)) != [] ==> !IsSpace(TrimEnd(TrimStart(s))[0])
  {
    var a := TrimStart(s);
    var r := TrimEnd(a);
    assert s == s[..|s| - |a|] + r + a[|r|..];
    ContainsItself(r, s[..|s| - |a|], a[|r|..]);
    if r == [] {
      assert a == [];
    } else {
      assert r[0] == a[0];
      assert !IsSpace(s[|s| - |a|]);
    }
  }

  // ---------------------------------------------------------------------------
  // Decimal rendering of a number, as JavaScript's `n + ''` does it for a
  // non-negative integer

  function DigitChar(d: nat): (c: char)
    requires d < 10
    ensures IsDigit(c)
  {
    ('0' as int + d) as char
  }

  function DigitValue(c: char): (d: nat)
    requires IsDigit(c)
    ensures d < 10 && DigitChar(d) == c
  {
    c as int - '0' as int
  }

  predicate AllDigits(s: string) { forall k :: 0 <= k < |s| ==> IsDigit(s[k]) }

  function NatToString(n: nat): (r: string)
    ensures |r| >= 1 && AllDigits(r)
    ensures |r| > 1 ==> r[0] != '0'
  {
    if n < 10 then [DigitChar(n)] else NatToString(n / 10) + [DigitChar(n % 10)]
  }

  /** The number a string of decimal digits denotes. */
  function DigitsValue(s: string): nat
    requires AllDigits(s)
  {
    if s == [] then 0 else DigitsValue(s[..|s| - 1]) * 10 + DigitValue(s[|s| - 1])
  }

  lemma {:induction false} NatToStringRoundTrip(n: nat)
    ensures DigitsValue(NatToString(n)) == n
  {
    var r := NatToString(n);
    if n < 10 {
      assert r[..|r| - 1] == [];
    } else {
      NatToStringRoundTrip(n / 10);
      assert r[..|r| - 1] == NatToString(n / 10);
      assert DigitValue(r[|r| - 1]) == n % 10;
    }
  }

  // ---------------------------------------------------------------------------
  // SQL text

  /** The number of `?` placeholders in a statement. */
  function Placeholders(sql: string): nat
  {
    if sql == [] then 0 else Placeholders(sql[..|sql| - 1]) + (if sql[|sql| - 1] == '?' then 1 else 0)
  }

  lemma {:induction false} PlaceholdersAppend(a: string, b: string)
    ensures Placeholders(a + b) == Placeholders(a) + Placeholders(b)
    decreases |b|
  {
    if b == [] {
      assert a + b == a;
    } else {
      assert (a + b)[..|a + b| - 1] == a + b[..|b| - 1];
      PlaceholdersAppend(a, b[..|b| - 1]);
    }
  }

  lemma {:induction false} PlaceholdersNone(s: string)
    requires forall k :: 0 <= k < |s| ==> s[k] != '?'
    ensures Placeholders(s) == 0
  {
    if s != [] {
      PlaceholdersNone(s[..|s| - 1]);
    }
  }

  /** Appending a clause of `n` placeholders adds `n`. */
  lemma AppendClause(sql: string, clause: string, n: nat)
    requires Placeholders(clause) == n
    ensures Placeholders(sql + clause) == Placeholders(sql) + n
  {
    PlaceholdersAppend(sql, clause);
  }

  /** A clause whose only `?` is its last character. */
  lemma PlaceholdersClause(clause: string)
    requires |clause| > 0 && clause[|clause| - 1] == '?'
    requires forall k :: 0 <= k < |clause| - 1 ==> clause[k] != '?'
    ensures Placeholders(clause) == 1
  {
    PlaceholdersNone(clause[..|clause| - 1]);
  }
}
