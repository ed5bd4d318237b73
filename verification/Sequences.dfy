/** Sequence vocabulary shared by the models: filtering, Python's slices, `max` and stable sorting. */
module Sequences {

  datatype Option<+T> = None | Some(value: T)

  /** `[x for x in s if p(x)]` */
  function Filter<T>(s: seq<T>, p: T -> bool): seq<T> {
    if s == [] then [] else (if p(s[0]) then [s[0]] else []) + Filter(s[1..], p)
  }

  /** `[f(x) for x in s]` */
  function Map<A, B>(s: seq<A>, f: A -> B): (r: seq<B>)
    ensures |r| == |s| && forall i :: 0 <= i < |s| ==> r[i] == f(s[i])
  {
    seq(|s|, i requires 0 <= i < |s| => f(s[i]))
  }

  /** `s[:limit]`, where a negative limit counts from the end. */
  function Limit<T>(s: seq<T>, limit: int): seq<T> {
    if limit >= |s| then s
    else if limit >= 0 then s[..limit]
    else if -limit <= |s| then s[..|s| + limit]
    else []
  }

  function Elements<T>(s: seq<T>): set<T> { set x | x in s }

  ghost predicate Distinct<T(!new)>(s: seq<T>) {
    forall i, j :: 0 <= i < j < |s| ==> s[i] != s[j]
  }

  ghost predicate Descending<T(!new)>(s: seq<T>, key: T -> real) {
    forall i, j :: 0 <= i < j < |s| ==> key(s[i]) >= key(s[j])
  }

  /** Put x in front of the first element that does not have a larger key. */
  function Insert<T>(x: T, s: seq<T>, key: T -> real): seq<T> {
    if s == [] || key(x) >= key(s[0]) then [x] + s else [s[0]] + Insert(x, s[1..], key)
  }

  /** `sorted(s, key=key, reverse=True)`: largest key first, equal keys in their old order. */
  function SortDesc<T>(s: seq<T>, key: T -> real): seq<T> {
    if s == [] then [] else Insert(s[0], SortDesc(s[1..], key), key)
  }

  /** `max(s, key=key)`: the first of the elements with the largest key. */
  function FirstMax<T>(s: seq<T>, key: T -> real): T
    requires s != []
  {
    if |s| == 1 then s[0]
    else
      var rest := FirstMax(s[1..], key);
      if key(s[0]) >= key(rest) then s[0] else rest
  }

  function KeyIs<T>(key: T -> real, v: real): T -> bool {
    x => key(x) == v
  }

  // ---- Filtering ----

  lemma {:induction false} FilterAppend<T>(a: seq<T>, b: seq<T>, p: T -> bool)
    ensures Filter(a + b, p) == Filter(a, p) + Filter(b, p)
  {
    if a == [] {
      assert a + b == b;
    } else {
      var head := if p(a[0]) then [a[0]] else [];
      assert (a + b)[0] == a[0] && (a + b)[1..] == a[1..] + b;
      FilterAppend(a[1..], b, p);
      assert head + (Filter(a[1..], p) + Filter(b, p)) == head + Filter(a[1..], p) + Filter(b, p);
    }
  }

  lemma {:induction false} FilterMember<T>(s: seq<T>, p: T -> bool, x: T)
    ensures x in Filter(s, p) <==> x in s && p(x)
  {
    if s != [] {
      FilterMember(s[1..], p, x);
      assert x in s <==> x == s[0] || x in s[1..];
    }
  }

  lemma FilterHead<T>(s: seq<T>, p: T -> bool)
    requires s != [] && p(s[0])
    ensures Filter(s, p) != [] && Filter(s, p)[0] == s[0] && Filter(s, p)[1..] == Filter(s[1..], p)
  {
  }

  lemma {:induction false} FilterLength<T>(s: seq<T>, p: T -> bool)
    ensures |Filter(s, p)| <= |s|
  {
    if s != [] {
      FilterLength(s[1..], p);
    }
  }

  lemma {:induction false} FilterFilter<T>(s: seq<T>, p: T -> bool, q: T -> bool, both: T -> bool)
    requires forall x :: x in s ==> (both(x) <==> p(x) && q(x))
    ensures Filter(Filter(s, p), q) == Filter(s, both)
  {
    if s != [] {
      assert forall x :: x in s[1..] ==> x in s;
      FilterFilter(s[1..], p, q, both);
      FilterAppend(if p(s[0]) then [s[0]] else [], Filter(s[1..], p), q);
    }
  }

  lemma {:induction false} FilterMonotone<T>(s: seq<T>, p: T -> bool, q: T -> bool)
    requires forall x :: x in s && p(x) ==> q(x)
    ensures |Filter(s, p)| <= |Filter(s, q)|
  {
    if s != [] {
      assert s[0] in s && forall x :: x in s[1..] ==> x in s;
      FilterMonotone(s[1..], p, q);
      if p(s[0]) {
        assert q(s[0]);
      }
    }
  }

  /** Dropping at least one selected element selects strictly fewer. */
  lemma {:induction false} FilterStrict<T>(s: seq<T>, p: T -> bool, q: T -> bool, x: T)
    requires (forall y :: y in s && p(y) ==> q(y)) && x in s && q(x) && !p(x)
    ensures |Filter(s, p)| < |Filter(s, q)|
  {
    assert s[0] in s && forall y :: y in s[1..] ==> y in s;
    FilterMonotone(s[1..], p, q);
    if s[0] != x {
      FilterStrict(s[1..], p, q, x);
      if p(s[0]) {
        assert q(s[0]);
      }
    }
  }

  /** Two predicates that agree on the elements select the same subsequence. */
  lemma {:induction false} FilterAgree<T>(s: seq<T>, p: T -> bool, q: T -> bool)
    requires forall x :: x in s ==> (p(x) <==> q(x))
    ensures Filter(s, p) == Filter(s, q)
  {
    if s != [] {
      assert forall x :: x in s[1..] ==> x in s;
      FilterAgree(s[1..], p, q);
    }
  }

  // ---- Sorting ----

  lemma {:induction false} InsertMember<T>(x: T, s: seq<T>, key: T -> real, y: T)
    ensures y in Insert(x, s, key) <==> y == x || y in s
  {
    if s != [] && key(x) < key(s[0]) {
      InsertMember(x, s[1..], key, y);
      assert y in s <==> y == s[0] || y in s[1..];
    }
  }

  lemma {:induction false} InsertSorted<T(!new)>(x: T, s: seq<T>, key: T -> real)
    requires Descending(s, key)
    ensures Descending(Insert(x, s, key), key)
  {
    if s != [] && key(x) < key(s[0]) {
      InsertSorted(x, s[1..], key);
      var t := Insert(x, s[1..], key);
      forall y | y in t ensures key(s[0]) >= key(y) {
        InsertMember(x, s[1..], key, y);
      }
    }
  }

  lemma {:induction false} SortSorted<T(!new)>(s: seq<T>, key: T -> real)
    ensures Descending(SortDesc(s, key), key)
  {
    if s != [] {
      SortSorted(s[1..], key);
      InsertSorted(s[0], SortDesc(s[1..], key), key);
    }
  }

  lemma {:induction false} InsertMultiset<T>(x: T, s: seq<T>, key: T -> real)
    ensures multiset(Insert(x, s, key)) == multiset{x} + multiset(s)
  {
    if s != [] && key(x) < key(s[0]) {
      InsertMultiset(x, s[1..], key);
      assert s == [s[0]] + s[1..];
    }
  }

  lemma {:induction false} SortMultiset<T>(s: seq<T>, key: T -> real)
    ensures multiset(SortDesc(s, key)) == multiset(s)
    ensures |SortDesc(s, key)| == |s|
  {
    if s != [] {
      SortMultiset(s[1..], key);
      InsertMultiset(s[0], SortDesc(s[1..], key), key);
      assert s == [s[0]] + s[1..];
    }
    assert |multiset(SortDesc(s, key))| == |multiset(s)|;
  }

  lemma SortMember<T>(s: seq<T>, key: T -> real, x: T)
    ensures x in SortDesc(s, key) <==> x in s
  {
    SortMultiset(s, key);
    assert x in SortDesc(s, key) <==> x in multiset(SortDesc(s, key));
  }

  lemma {:induction false} InsertDistinct<T(!new)>(x: T, s: seq<T>, key: T -> real)
    requires Distinct(s) && x !in s
    ensures Distinct(Insert(x, s, key))
  {
    if s != [] && key(x) < key(s[0]) {
      InsertDistinct(x, s[1..], key);
      InsertMember(x, s[1..], key, s[0]);
    }
  }

  lemma {:induction false} SortDistinct<T(!new)>(s: seq<T>, key: T -> real)
    requires Distinct(s)
    ensures Distinct(SortDesc(s, key))
  {
    if s != [] {
      SortDistinct(s[1..], key);
      SortMember(s[1..], key, s[0]);
      InsertDistinct(s[0], SortDesc(s[1..], key), key);
    }
  }

  lemma {:induction false} InsertFilter<T(!new)>(x: T, s: seq<T>, key: T -> real, p: T -> bool)
    requires Descending(s, key)
    ensures Filter(Insert(x, s, key), p) == if p(x) then Insert(x, Filter(s, p), key) else Filter(s, p)
  {
    if s == [] {
    } else if key(x) >= key(s[0]) {
      var f := Filter(s, p);
      if f != [] {
        FilterMember(s, p, f[0]);
      }
      assert ([x] + s)[1..] == s;
    } else {
      InsertFilter(x, s[1..], key, p);
      assert ([s[0]] + Insert(x, s[1..], key))[1..] == Insert(x, s[1..], key);
      if p(s[0]) {
        assert Filter(s, p)[1..] == Filter(s[1..], p);
      } else {
        assert Filter(s, p) == Filter(s[1..], p);
      }
    }
  }

  /** Selecting and stably sorting commute. */
  lemma {:induction false} FilterSort<T(!new)>(s: seq<T>, key: T -> real, p: T -> bool)
    ensures Filter(SortDesc(s, key), p) == SortDesc(Filter(s, p), key)
  {
    if s != [] {
      FilterSort(s[1..], key, p);
      SortSorted(s[1..], key);
      InsertFilter(s[0], SortDesc(s[1..], key), key, p);
      if p(s[0]) {
        assert Filter(s, p)[1..] == Filter(s[1..], p);
      } else {
        assert Filter(s, p) == Filter(s[1..], p);
      }
    }
  }

  /** A list that is already in order is left alone. */
  lemma {:induction false} SortOfSorted<T(!new)>(s: seq<T>, key: T -> real)
    requires Descending(s, key)
    ensures SortDesc(s, key) == s
  {
    if s != [] {
      SortOfSorted(s[1..], key);
      assert s == [s[0]] + s[1..];
    }
  }

  /** Elements with equal keys keep their old order. */
  lemma SortStable<T(!new)>(s: seq<T>, key: T -> real, v: real)
    ensures Filter(SortDesc(s, key), KeyIs(key, v)) == Filter(s, KeyIs(key, v))
  {
    var c := Filter(s, KeyIs(key, v));
    FilterSort(s, key, KeyIs(key, v));
    forall i | 0 <= i < |c| ensures key(c[i]) == v {
      FilterMember(s, KeyIs(key, v), c[i]);
    }
    SortOfSorted(c, key);
  }

  function Without<T>(s: seq<T>, i: nat): seq<T>
    requires i < |s|
  {
    s[..i] + s[i + 1..]
  }

  lemma WithoutOne<T>(s: seq<T>, i: nat)
    requires i < |s|
    ensures multiset(s) == multiset(Without(s, i)) + multiset{s[i]}
  {
    assert s == s[..i] + [s[i]] + s[i + 1..];
  }

  lemma MapWithout<A, B>(s: seq<A>, i: nat, f: A -> B)
    requires i < |s|
    ensures multiset(Map(s, f)) == multiset(Map(Without(s, i), f)) + multiset{f(s[i])}
  {
    assert Map(Without(s, i), f) == Without(Map(s, f), i);
    WithoutOne(Map(s, f), i);
  }

  /** Mapping keeps a reordering a reordering. */
  lemma {:induction false} SameMultiset<A(!new), B>(a: seq<A>, b: seq<A>, f: A -> B)
    requires multiset(a) == multiset(b)
    ensures multiset(Map(a, f)) == multiset(Map(b, f))
  {
    if a == [] {
      assert |b| == |multiset(b)| == |multiset(a)| == 0;
    } else {
      assert a[0] in multiset(a) && a[0] in multiset(b);
      var i :| 0 <= i < |b| && b[i] == a[0];
      WithoutOne(a, 0);
      WithoutOne(b, i);
      assert multiset(Without(a, 0)) == multiset(a) - multiset{a[0]} == multiset(Without(b, i));
      SameMultiset(Without(a, 0), Without(b, i), f);
      MapWithout(a, 0, f);
      MapWithout(b, i, f);
    }
  }

  /** Order plus stability determine the result: there is only one stable sort. */
  lemma {:induction false} StableSortUnique<T(!new)>(r: seq<T>, q: seq<T>, key: T -> real)
    requires Descending(r, key) && Descending(q, key)
    requires forall v :: Filter(r, KeyIs(key, v)) == Filter(q, KeyIs(key, v))
    ensures r == q
    decreases |r|
  {
    if r == [] {
      if q != [] {
        FilterHead(q, KeyIs(key, key(q[0])));
        assert false;
      }
    } else {
      var v := key(r[0]);
      assert Filter(q, KeyIs(key, v)) == Filter(r, KeyIs(key, v));
      FilterMember(q, KeyIs(key, v), r[0]);
      var w := key(q[0]);
      assert Filter(q, KeyIs(key, w)) == Filter(r, KeyIs(key, w));
      FilterMember(r, KeyIs(key, w), q[0]);
      assert v == w;
      FilterHead(r, KeyIs(key, v));
      FilterHead(q, KeyIs(key, v));
      forall u ensures Filter(r[1..], KeyIs(key, u)) == Filter(q[1..], KeyIs(key, u)) {
        assert Filter(r, KeyIs(key, u)) == Filter(q, KeyIs(key, u));
        if u == v {
          FilterHead(r, KeyIs(key, u));
          FilterHead(q, KeyIs(key, u));
        } else {
          assert Filter(r, KeyIs(key, u)) == Filter(r[1..], KeyIs(key, u));
          assert Filter(q, KeyIs(key, u)) == Filter(q[1..], KeyIs(key, u));
        }
      }
      StableSortUnique(r[1..], q[1..], key);
      assert r == [r[0]] + r[1..] && q == [q[0]] + q[1..];
    }
  }

  /** `max` is the head of the stable descending sort. */
  lemma {:induction false} FirstMaxIsHead<T(!new)>(s: seq<T>, key: T -> real)
    requires s != []
    ensures SortDesc(s, key) != [] && FirstMax(s, key) == SortDesc(s, key)[0]
  {
    SortMultiset(s, key);
    if |s| > 1 {
      FirstMaxIsHead(s[1..], key);
    } else {
      assert SortDesc(s[1..], key) == [];
    }
  }

  lemma {:induction false} FirstMaxIsMax<T(!new)>(s: seq<T>, key: T -> real)
    requires s != []
    ensures FirstMax(s, key) in s
    ensures forall x :: x in s ==> key(FirstMax(s, key)) >= key(x)
  {
    if |s| > 1 {
      FirstMaxIsMax(s[1..], key);
      assert s == [s[0]] + s[1..];
    }
  }

  // ---- Filters and limits by position ----

  /** The positions that pass. */
  function Passing<T>(s: seq<T>, p: T -> bool): set<int> {
    set i | 0 <= i < |s| && p(s[i])
  }

  lemma {:induction false} FilterCounts<T>(s: seq<T>, p: T -> bool)
    ensures |Filter(s, p)| == |Passing(s, p)|
  {
    if s == [] {
      assert Passing(s, p) == {};
    } else {
      var n := |s| - 1;
      assert s == s[..n] + [s[n]];
      FilterCounts(s[..n], p);
      FilterAppend(s[..n], [s[n]], p);
      assert Passing(s, p) == Passing(s[..n], p) + (if p(s[n]) then {n} else {});
    }
  }

  /** An element that passes stands behind as many as pass before it. */
  lemma {:induction false} FilterAt<T>(s: seq<T>, p: T -> bool, i: nat)
    requires i < |s| && p(s[i])
    ensures |Passing(s[..i], p)| < |Filter(s, p)| && Filter(s, p)[|Passing(s[..i], p)|] == s[i]
  {
    assert s == s[..i] + ([s[i]] + s[i + 1..]);
    FilterAppend(s[..i], [s[i]] + s[i + 1..], p);
    FilterHead([s[i]] + s[i + 1..], p);
    FilterCounts(s[..i], p);
  }

  /** The first so many of a list sorted in descending order: members, in order, and whatever is left out is no larger. */
  lemma {:induction false} LargestKept<T(!new)>(s: seq<T>, key: T -> real, limit: int)
    ensures var r := Limit(SortDesc(s, key), limit);
            && (forall x :: x in r ==> x in s) && Descending(r, key)
            && (limit >= |s| ==> forall x :: x in s ==> x in r)
            && (limit >= 0 ==> |r| == if limit < |s| then limit else |s|)
            && (limit >= 0 ==> forall x, y :: x in s && x !in r && y in r ==> key(y) >= key(x))
  {
    var sorted := SortDesc(s, key);
    var r := Limit(sorted, limit);
    SortMultiset(s, key);
    SortSorted(s, key);
    forall x ensures x in sorted <==> x in s {
      SortMember(s, key, x);
    }
    if limit >= 0 {
      PrefixMembers(sorted, |r|);
      forall x, y | x in s && x !in r && y in r ensures key(y) >= key(x) {
        var j :| 0 <= j < |sorted| && sorted[j] == x;
      }
    }
  }

  lemma PrefixMembers<T>(s: seq<T>, n: nat)
    requires n <= |s|
    ensures forall j :: 0 <= j < n ==> s[j] in s[..n]
  {
    forall j | 0 <= j < n ensures s[j] in s[..n] {
      assert s[..n][j] == s[j];
    }
  }

  /** The same for a list that holds exactly what passes. */
  lemma {:induction false} LargestOf<T(!new)>(s: seq<T>, key: T -> real, limit: int, p: T -> bool)
    requires forall x :: x in s <==> p(x)
    ensures var r := Limit(SortDesc(s, key), limit);
            && (forall x :: x in r ==> p(x)) && Descending(r, key) && (limit >= 0 ==> |r| <= limit)
            && (limit >= 0 ==> forall x :: p(x) && x !in r ==> |r| == limit && forall y :: y in r ==> key(y) >= key(x))
  {
    LargestKept(s, key, limit);
  }
}

/** Python's notion of white space in text. */
module WhiteSpace {

  /** `c.isspace()` */
  predicate IsSpace(c: char) {
    || '\t' <= c <= '\r' || '\U{1c}' <= c <= ' ' || c == '\U{85}' || c == '\U{a0}' || c == '\U{1680}'
    || '\U{2000}' <= c <= '\U{200a}' || c == '\U{2028}' || c == '\U{2029}' || c == '\U{202f}'
    || c == '\U{205f}' || c == '\U{3000}'
  }

  /** `not s or not s.strip()` */
  predicate Blank(s: string) {
    forall i :: 0 <= i < |s| ==> IsSpace(s[i])
  }

  /** `s.rstrip()` */
  function RStrip(s: string): (r: string)
    ensures r <= s
  {
    if s != [] && IsSpace(s[|s| - 1]) then RStrip(s[..|s| - 1]) else s
  }

  lemma {:induction false} RStripCuts(s: string)
    ensures Blank(s[|RStrip(s)|..])
    ensures RStrip(s) != [] ==> !IsSpace(RStrip(s)[|RStrip(s)| - 1])
  {
    if s != [] && IsSpace(s[|s| - 1]) {
      var r := s[..|s| - 1];
      RStripCuts(r);
      assert s[|RStrip(s)|..] == r[|RStrip(r)|..] + [s[|s| - 1]];
    }
  }
}
