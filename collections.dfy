/** The relational operations the server's SQL statements use, over in-memory
    rows: WHERE (Filter), ORDER BY ... DESC (SortDesc), LIMIT/OFFSET (Page),
    GROUP BY with COUNT(*) (Distinct, Count, TallyOf). */
module Collections {

  function Count<T(==)>(s: seq<T>, x: T): (n: nat)
    ensures n <= |s|
    ensures n == multiset(s)[x]
  {
    if s == [] then 0
    else
      assert s == s[..|s| - 1] + [s[|s| - 1]];
      Count(s[..|s| - 1], x) + (if s[|s| - 1] == x then 1 else 0)
  }

  predicate NoDups<T(==)>(s: seq<T>) {
    forall i, j :: 0 <= i < j < |s| ==> s[i] != s[j]
  }

  /** The distinct values of `s`, each once, in order of first appearance
      (the groups of a GROUP BY). */
  function Distinct<T(==,!new)>(s: seq<T>): (r: seq<T>)
    ensures NoDups(r)
    ensures forall x :: x in r <==> x in s
  {
    if s == [] then []
    else
      var d := Distinct(s[..|s| - 1]);
      var x := s[|s| - 1];
      assert s == s[..|s| - 1] + [x];
      if x in d then d else d + [x]
  }

  /** One (value, count) pair per value of `ds`, counting its occurrences in `s`. */
  function TallyOf<T(==)>(ds: seq<T>, s: seq<T>): (r: seq<(T, nat)>)
    ensures |r| == |ds|
    ensures forall i :: 0 <= i < |ds| ==> r[i] == (ds[i], Count(s, ds[i]))
  {
    if ds == [] then [] else TallyOf(ds[..|ds| - 1], s) + [(ds[|ds| - 1], Count(s, ds[|ds| - 1]))]
  }

  /** The sum of the counts of a tally. */
  function Total<T>(pairs: seq<(T, nat)>): nat {
    if pairs == [] then 0 else Total(pairs[..|pairs| - 1]) + pairs[|pairs| - 1].1
  }

  lemma TotalSnoc<T>(pairs: seq<(T, nat)>, q: (T, nat))
    ensures Total(pairs + [q]) == Total(pairs) + q.1
  {
    assert (pairs + [q])[..|pairs|] == pairs;
  }

  lemma TallyOfSnoc<T>(ds: seq<T>, s: seq<T>)
    requires ds != []
    ensures Total(TallyOf(ds, s)) == Total(TallyOf(ds[..|ds| - 1], s)) + Count(s, ds[|ds| - 1])
  {
    TotalSnoc(TallyOf(ds[..|ds| - 1], s), (ds[|ds| - 1], Count(s, ds[|ds| - 1])));
  }

  lemma CountSnoc<T>(s: seq<T>, x: T, y: T)
    ensures Count(s + [x], y) == Count(s, y) + (if x == y then 1 else 0)
  {
    assert (s + [x])[..|s|] == s;
  }

  lemma {:induction false} TallyOfAppend<T>(ds: seq<T>, s: seq<T>, x: T)
    requires NoDups(ds)
    ensures Total(TallyOf(ds, s + [x])) == Total(TallyOf(ds, s)) + (if x in ds then 1 else 0)
    decreases |ds|
  {
    if ds != [] {
      var init := ds[..|ds| - 1];
      var last := ds[|ds| - 1];
      assert ds == init + [last];
      TallyOfSnoc(ds, s + [x]);
      TallyOfSnoc(ds, s);
      TallyOfAppend(init, s, x);
      CountSnoc(s, x, last);
      assert last !in init;
    }
  }

  lemma {:induction false} CountAbsent<T>(s: seq<T>, x: T)
    requires x !in s
    ensures Count(s, x) == 0
  {
  }

  /** The counts of the groups add up to the number of rows. */
  lemma {:induction false} TallyTotal<T(!new)>(s: seq<T>)
    ensures Total(TallyOf(Distinct(s), s)) == |s|
    decreases |s|
  {
    if s != [] {
      var p := s[..|s| - 1];
      var x := s[|s| - 1];
      assert s == p + [x];
      var d := Distinct(p);
      TallyTotal(p);
      TallyOfAppend(d, p, x);
      if x !in d {
        assert Distinct(s) == d + [x];
        assert TallyOf(d + [x], s)[..|d|] == TallyOf(d, s);
        CountAbsent(p, x);
        assert Count(s, x) == Count(p, x) + 1;
      }
    }
  }

  // ---------------------------------------------------------------------------
  // WHERE

  function Filter<T(==,!new)>(s: seq<T>, p: T -> bool): (r: seq<T>)
    ensures |r| <= |s|
    ensures forall i :: 0 <= i < |r| ==> p(r[i])
    ensures forall x :: multiset(r)[x] == if p(x) then multiset(s)[x] else 0
  {
    if s == [] then []
    else
      assert s == [s[0]] + s[1..];
      if p(s[0]) then [s[0]] + Filter(s[1..], p) else Filter(s[1..], p)
  }

  // ---------------------------------------------------------------------------
  // ORDER BY key DESC

  predicate SortedDesc<T>(s: seq<T>, key: T -> int) {
    forall i, j :: 0 <= i < j < |s| ==> key(s[i]) >= key(s[j])
  }

  function InsertDesc<T(==)>(x: T, s: seq<T>, key: T -> int): (r: seq<T>)
    requires SortedDesc(s, key)
    ensures |r| == |s| + 1
    ensures r[0] == x || (s != [] && r[0] == s[0])
    ensures SortedDesc(r, key)
    ensures multiset(r) == multiset(s) + multiset{x}
  {
    if s == [] || key(x) >= key(s[0]) then [x] + s
    else
      var rest := InsertDesc(x, s[1..], key);
      assert s == [s[0]] + s[1..];
      assert key(s[0]) >= key(rest[0]);
      [s[0]] + rest
  }

  /** The rows of `s` ordered by `key`, largest first; rows with equal keys keep
      their table order. */
  function SortDesc<T(==)>(s: seq<T>, key: T -> int): (r: seq<T>)
    ensures |r| == |s|
    ensures SortedDesc(r, key)
    ensures multiset(r) == multiset(s)
  {
    if s == [] then []
    else
      assert s == [s[0]] + s[1..];
      InsertDesc(s[0], SortDesc(s[1..], key), key)
  }

  // ---------------------------------------------------------------------------
  // LIMIT ? OFFSET ?

  /** Where an OFFSET starts: SQLite treats a negative offset as zero. */
  function Skip(len: nat, offset: int): (o: nat)
    ensures o <= len
    ensures 0 <= offset <= len ==> o == offset
  {
    if offset < 0 then 0 else if offset > len then len else offset
  }

  /** How many of `len` rows LIMIT/OFFSET returns: all the rows after the
      offset, or `limit` of them when there are more. */
  function PageLength(len: nat, limit: int, offset: int): (n: nat)
    ensures n <= len - Skip(len, offset)
    ensures limit >= 0 ==> n <= limit
    ensures n == len - Skip(len, offset) || n == limit
  {
    var rest := len - Skip(len, offset);
    if limit < 0 || limit >= rest then rest else limit
  }

  /** SQLite's LIMIT/OFFSET: skip `offset` rows, then keep at most `limit`; a
      negative limit means no limit. */
  function Page<T>(s: seq<T>, limit: int, offset: int): (r: seq<T>)
    ensures |r| == PageLength(|s|, limit, offset)
    ensures limit >= 0 ==> |r| <= limit
    ensures limit < 0 || limit >= |s| - Skip(|s|, offset) ==> |r| == |s| - Skip(|s|, offset)
    ensures forall i :: 0 <= i < |r| ==> r[i] == s[Skip(|s|, offset) + i]
  {
    var rest := s[Skip(|s|, offset)..];
    if limit < 0 || limit >= |rest| then rest else rest[..limit]
  }

  /** A page is the run of rows that starts at the offset and is PageLength
      rows long. */
  lemma {:induction false} PageIsRun<T>(s: seq<T>, limit: int, offset: int)
    ensures var o := Skip(|s|, offset); var n := PageLength(|s|, limit, offset);
      && o + n <= |s|
      && Page(s, limit, offset) == s[o..o + n]
  {
  }

  /** A page of sorted rows is the run of them that starts at the offset;
      its length is counted on the rows before sorting. */
  lemma {:induction false} SortedPageIsRun<T>(s: seq<T>, key: T -> int, limit: int, offset: int)
    ensures var sorted := SortDesc(s, key); var r := Page(sorted, limit, offset); var o := Skip(|s|, offset);
      && |r| == PageLength(|s|, limit, offset)
      && r == sorted[o..o + |r|]
  {
    PageIsRun(SortDesc(s, key), limit, offset);
  }

  /** The first `limit` rows of `s` sorted by `key`: the exact count, still
      sorted, each a row of `s`, and no row left out sorts above one kept. */
  lemma {:induction false} TopRowsOfSorted<T>(s: seq<T>, key: T -> int, limit: int)
    ensures var r := Page(SortDesc(s, key), limit, 0);
      && |r| == (if limit < 0 || limit >= |s| then |s| else limit)
      && SortedDesc(r, key)
      && (forall i :: 0 <= i < |r| ==> r[i] in s)
      && (forall y :: multiset(s)[y] > multiset(r)[y] ==>
            forall i :: 0 <= i < |r| ==> key(r[i]) >= key(y))
  {
    var sorted := SortDesc(s, key);
    var r := Page(sorted, limit, 0);
    PageSorted(sorted, key, limit, 0);
    assert r == sorted[..|r|];
    PrefixRowsIn(s, sorted, |r|);
    LeftOutSortsBelow(sorted, key, |r|);
  }

  /** A prefix of a permutation of `s` holds rows of `s`. */
  lemma PrefixRowsIn<T>(s: seq<T>, sorted: seq<T>, n: nat)
    requires multiset(sorted) == multiset(s) && n <= |sorted|
    ensures forall i :: 0 <= i < n ==> sorted[i] in s
  {
    forall i | 0 <= i < n ensures sorted[i] in s {
      assert sorted[i] in multiset(sorted);
    }
  }

  /** In a sequence sorted by `key`, whatever lies beyond a prefix sorts no
      higher than anything in it. */
  lemma LeftOutSortsBelow<T>(sorted: seq<T>, key: T -> int, n: nat)
    requires SortedDesc(sorted, key) && n <= |sorted|
    ensures forall y :: multiset(sorted)[y] > multiset(sorted[..n])[y] ==>
      forall i :: 0 <= i < n ==> key(sorted[i]) >= key(y)
  {
    assert sorted == sorted[..n] + sorted[n..];
    assert multiset(sorted) == multiset(sorted[..n]) + multiset(sorted[n..]);
    forall y | multiset(sorted)[y] > multiset(sorted[..n])[y] ensures forall i :: 0 <= i < n ==> key(sorted[i]) >= key(y) {
      assert y in sorted[n..];
      var j :| n <= j < |sorted| && sorted[j] == y;
    }
  }

  lemma PageSorted<T>(s: seq<T>, key: T -> int, limit: int, offset: int)
    requires SortedDesc(s, key)
    ensures SortedDesc(Page(s, limit, offset), key)
  {
  }
}
