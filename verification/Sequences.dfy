/**
 Sequence vocabulary shared by the stores: filtering, stable sorting and
 truncation, with the laws that let two ways of computing a query be compared.
 */
module Sequences {

  datatype Option<+T> = None | Some(value: T)

  function Min(a: int, b: int): int {
    if a <= b then a else b
  }

  function Max(a: int, b: int): int {
    if a <= b then b else a
  }

  function Pow2(n: nat): (r: nat)
    ensures r > 0
  {
    if n == 0 then 1 else 2 * Pow2(n - 1)
  }

  function Take<T>(s: seq<T>, n: nat): seq<T> {
    if n < |s| then s[..n] else s
  }

  function Reverse<T>(s: seq<T>): seq<T> {
    if s == [] then [] else Reverse(s[1..]) + [s[0]]
  }

  function Filter<T>(p: T -> bool, s: seq<T>): seq<T> {
    if s == [] then []
    else if p(s[0]) then [s[0]] + Filter(p, s[1..])
    else Filter(p, s[1..])
  }

  function Map<T, U>(f: T -> U, s: seq<T>): (r: seq<U>)
    ensures |r| == |s|
    ensures forall i :: 0 <= i < |s| ==> r[i] == f(s[i])
  {
    if s == [] then [] else [f(s[0])] + Map(f, s[1..])
  }

  ghost predicate Distinct<T>(s: seq<T>) {
    forall i, j :: 0 <= i < j < |s| ==> s[i] != s[j]
  }

  /** `a` can be read off `b` left to right. */
  ghost predicate Subsequence<T>(a: seq<T>, b: seq<T>) {
    a == [] || (b != [] && (Subsequence(a, b[..|b| - 1]) ||
                            (a[|a| - 1] == b[|b| - 1] && Subsequence(a[..|a| - 1], b[..|b| - 1]))))
  }

  lemma {:induction false} SubsequenceTransitive<T>(a: seq<T>, b: seq<T>, c: seq<T>)
    requires Subsequence(a, b) && Subsequence(b, c)
    ensures Subsequence(a, c)
    decreases |c|
  {
    if a != [] {
      var b', c' := b[..|b| - 1], c[..|c| - 1];
      if Subsequence(b, c') {
        SubsequenceTransitive(a, b, c');
      } else if Subsequence(a, b') {
        SubsequenceTransitive(a, b', c');
      } else {
        SubsequenceTransitive(a[..|a| - 1], b', c');
      }
    }
  }

  lemma SubsequenceGrows<T>(a: seq<T>, b: seq<T>, x: T)
    requires Subsequence(a, b)
    ensures Subsequence(a, b + [x]) && Subsequence(a + [x], b + [x])
  {
    assert (a + [x])[..|a|] == a && (b + [x])[..|b|] == b;
  }

  // ---------------------------------------------------------------- Filter

  lemma FilterMember<T>(p: T -> bool, s: seq<T>, x: T)
    ensures x in Filter(p, s) <==> x in s && p(x)
  {
    if s != [] {
      FilterMember(p, s[1..], x);
      assert s == [s[0]] + s[1..];
    }
  }

  lemma FilterConcat<T>(p: T -> bool, a: seq<T>, b: seq<T>)
    ensures Filter(p, a + b) == Filter(p, a) + Filter(p, b)
  {
    if a == [] {
      assert a + b == b;
    } else {
      FilterConcat(p, a[1..], b);
      assert a + b == [a[0]] + (a[1..] + b);
    }
  }

  lemma FilterAppend<T>(p: T -> bool, s: seq<T>, x: T)
    ensures Filter(p, s + [x]) == if p(x) then Filter(p, s) + [x] else Filter(p, s)
  {
    FilterConcat(p, s, [x]);
  }

  lemma FilterCongruence<T>(p: T -> bool, q: T -> bool, s: seq<T>)
    requires forall x :: x in s ==> p(x) == q(x)
    ensures Filter(p, s) == Filter(q, s)
  {
    if s != [] {
      FilterCongruence(p, q, s[1..]);
    }
  }

  lemma FilterTwice<T>(p: T -> bool, q: T -> bool, both: T -> bool, s: seq<T>)
    requires forall x :: x in s ==> both(x) == (q(x) && p(x))
    ensures Filter(p, Filter(q, s)) == Filter(both, s)
  {
    if s != [] {
      FilterTwice(p, q, both, s[1..]);
    }
  }

  lemma FilterAll<T>(p: T -> bool, s: seq<T>)
    requires forall x :: x in s ==> p(x)
    ensures Filter(p, s) == s
  {
    if s != [] {
      FilterAll(p, s[1..]);
    }
  }

  lemma FilterNone<T>(p: T -> bool, s: seq<T>)
    requires forall x :: x in s ==> !p(x)
    ensures Filter(p, s) == []
  {
  }

  /** Where `p` holds. */
  ghost function Places<T>(p: T -> bool, s: seq<T>): set<nat> {
    set i | 0 <= i < |s| && p(s[i])
  }

  /** A filter keeps one element for each place. */
  lemma {:induction false} FilterPlaces<T>(p: T -> bool, s: seq<T>)
    ensures |Filter(p, s)| == |Places(p, s)|
  {
    if s == [] {
      assert Places(p, s) == {};
    } else {
      var n := |s| - 1;
      FilterPlaces(p, s[..n]);
      FilterAppend(p, s[..n], s[n]);
      assert s[..n] + [s[n]] == s;
      var before := Places(p, s[..n]);
      assert n !in before && Places(p, s) == if p(s[n]) then before + {n} else before;
    }
  }

  lemma FilterCount<T>(p: T -> bool, s: seq<T>, x: T)
    ensures multiset(Filter(p, s))[x] == if p(x) then multiset(s)[x] else 0
  {
    if s != [] {
      FilterCount(p, s[1..], x);
      assert s == [s[0]] + s[1..];
    }
  }

  /** Filtering two rearrangements of one sequence gives two rearrangements. */
  lemma FilterPermutation<T(!new)>(p: T -> bool, a: seq<T>, b: seq<T>)
    requires multiset(a) == multiset(b)
    ensures multiset(Filter(p, a)) == multiset(Filter(p, b))
  {
    forall x: T
      ensures multiset(Filter(p, a))[x] == multiset(Filter(p, b))[x]
    {
      FilterCount(p, a, x);
      FilterCount(p, b, x);
    }
  }

  /** A test that holds exactly on a prefix selects that prefix. */
  lemma FilterPrefix<T>(p: T -> bool, s: seq<T>, k: nat)
    requires k <= |s|
    requires forall i :: 0 <= i < |s| ==> (p(s[i]) <==> i < k)
    ensures Filter(p, s) == s[..k]
  {
    if s != [] {
      if k == 0 {
        FilterNone(p, s);
      } else {
        FilterPrefix(p, s[1..], k - 1);
        assert s[..k] == [s[0]] + s[1..][..k - 1];
      }
    }
  }

  lemma FilterLength<T>(p: T -> bool, s: seq<T>)
    ensures |Filter(p, s)| <= |s|
    ensures |Filter(p, s)| + |Filter(x => !p(x), s)| == |s|
  {
    if s != [] {
      FilterLength(p, s[1..]);
    }
  }

  // --------------------------------------------------------------- Reverse

  lemma ReverseIndex<T>(s: seq<T>, i: nat)
    requires i < |s|
    ensures |Reverse(s)| == |s| && Reverse(s)[i] == s[|s| - 1 - i]
  {
    if i < |s| - 1 {
      ReverseIndex(s[1..], i);
    } else if |s| > 1 {
      ReverseIndex(s[1..], 0);
    }
  }

  lemma ReverseMultiset<T>(s: seq<T>)
    ensures multiset(Reverse(s)) == multiset(s)
  {
    if s != [] {
      ReverseMultiset(s[1..]);
      assert s == [s[0]] + s[1..];
    }
  }

  lemma ReverseConcat<T>(a: seq<T>, b: seq<T>)
    ensures Reverse(a + b) == Reverse(b) + Reverse(a)
  {
    if a == [] {
      assert a + b == b;
    } else {
      ReverseConcat(a[1..], b);
      assert a + b == [a[0]] + (a[1..] + b);
    }
  }

  // ------------------------------------------------------------------- Map

  lemma MapConcat<T, U>(f: T -> U, a: seq<T>, b: seq<T>)
    ensures Map(f, a + b) == Map(f, a) + Map(f, b)
  {
  }

  lemma MapFilter<T, U>(f: T -> U, p: T -> bool, q: U -> bool, s: seq<T>)
    requires forall x :: x in s ==> p(x) == q(f(x))
    ensures Map(f, Filter(p, s)) == Filter(q, Map(f, s))
  {
    if s != [] {
      MapFilter(f, p, q, s[1..]);
      assert Map(f, s) == [f(s[0])] + Map(f, s[1..]);
    }
  }

  lemma MapMember<T, U>(f: T -> U, s: seq<T>, y: U)
    ensures y in Map(f, s) <==> exists x :: x in s && f(x) == y
  {
    if y in Map(f, s) {
      var i :| 0 <= i < |s| && Map(f, s)[i] == y;
      assert s[i] in s;
    }
    if x :| x in s && f(x) == y {
      var i :| 0 <= i < |s| && s[i] == x;
      assert Map(f, s)[i] == y;
    }
  }

  // --------------------------------------------------------------- Sorting

  ghost predicate SortedBy<T>(le: (T, T) -> bool, s: seq<T>) {
    forall i, j :: 0 <= i < j < |s| ==> le(s[i], s[j])
  }

  /** `le` compares any two values and is transitive (ties are allowed). */
  ghost predicate Ranking<T(!new)>(le: (T, T) -> bool) {
    && (forall x, y :: le(x, y) || le(y, x))
    && (forall x, y, z :: le(x, y) && le(y, z) ==> le(x, z))
  }

  /** Within `s`, only equal elements tie. */
  ghost predicate NoTies<T>(le: (T, T) -> bool, s: seq<T>) {
    forall i, j :: 0 <= i < |s| && 0 <= j < |s| && le(s[i], s[j]) && le(s[j], s[i]) ==> s[i] == s[j]
  }

  function InsertSorted<T>(le: (T, T) -> bool, x: T, s: seq<T>): seq<T> {
    if s == [] || le(x, s[0]) then [x] + s
    else [s[0]] + InsertSorted(le, x, s[1..])
  }

  /** The stable sort by `le`: tied elements keep their order. */
  function Sort<T>(le: (T, T) -> bool, s: seq<T>): seq<T> {
    if s == [] then [] else InsertSorted(le, s[0], Sort(le, s[1..]))
  }

  lemma InsertMultiset<T>(le: (T, T) -> bool, x: T, s: seq<T>)
    ensures multiset(InsertSorted(le, x, s)) == multiset{x} + multiset(s)
  {
    if s != [] && !le(x, s[0]) {
      InsertMultiset(le, x, s[1..]);
      assert s == [s[0]] + s[1..];
    }
  }

  lemma SortMultiset<T>(le: (T, T) -> bool, s: seq<T>)
    ensures multiset(Sort(le, s)) == multiset(s)
    ensures |Sort(le, s)| == |s|
  {
    if s != [] {
      SortMultiset(le, s[1..]);
      InsertMultiset(le, s[0], Sort(le, s[1..]));
      assert s == [s[0]] + s[1..];
    }
    assert |multiset(Sort(le, s))| == |multiset(s)|;
  }

  lemma SameMember<T>(a: seq<T>, b: seq<T>, x: T)
    requires multiset(a) == multiset(b)
    ensures x in a <==> x in b
  {
    assert x in a <==> x in multiset(a);
    assert x in b <==> x in multiset(b);
  }

  lemma SortMember<T>(le: (T, T) -> bool, s: seq<T>, x: T)
    ensures x in Sort(le, s) <==> x in s
  {
    SortMultiset(le, s);
    SameMember(Sort(le, s), s, x);
  }

  lemma InsertIsSorted<T(!new)>(le: (T, T) -> bool, x: T, s: seq<T>)
    requires Ranking(le) && SortedBy(le, s)
    ensures SortedBy(le, InsertSorted(le, x, s))
  {
    if s == [] || le(x, s[0]) {
    } else {
      var r := InsertSorted(le, x, s[1..]);
      InsertIsSorted(le, x, s[1..]);
      forall j | 0 <= j < |r|
        ensures le(s[0], r[j])
      {
        InsertMultiset(le, x, s[1..]);
        SameMember(r, [x] + s[1..], r[j]);
      }
    }
  }

  lemma SortIsSorted<T(!new)>(le: (T, T) -> bool, s: seq<T>)
    requires Ranking(le)
    ensures SortedBy(le, Sort(le, s))
  {
    if s != [] {
      SortIsSorted(le, s[1..]);
      InsertIsSorted(le, s[0], Sort(le, s[1..]));
    }
  }

  lemma NoTiesTransfer<T>(le: (T, T) -> bool, a: seq<T>, b: seq<T>)
    requires NoTies(le, a)
    requires forall x :: x in b ==> x in a
    ensures NoTies(le, b)
  {
    forall i, j | 0 <= i < |b| && 0 <= j < |b| && le(b[i], b[j]) && le(b[j], b[i])
      ensures b[i] == b[j]
    {
      assert b[i] in a && b[j] in a;
    }
  }

  lemma SortedHeadsAgree<T>(le: (T, T) -> bool, a: seq<T>, b: seq<T>)
    requires a != [] && b != [] && multiset(a) == multiset(b)
    requires SortedBy(le, a) && SortedBy(le, b)
    requires NoTies(le, a)
    ensures a[0] == b[0]
  {
    SameMember(a, b, a[0]);
    SameMember(a, b, b[0]);
    var i :| 0 <= i < |b| && b[i] == a[0];
    var j :| 0 <= j < |a| && a[j] == b[0];
    if i != 0 && j != 0 {
      assert le(b[0], b[i]) && le(a[0], a[j]);
    }
  }

  lemma TailMultiset<T>(s: seq<T>)
    requires s != []
    ensures multiset(s) == multiset{s[0]} + multiset(s[1..])
  {
    assert s == [s[0]] + s[1..];
  }

  lemma TailSorted<T>(le: (T, T) -> bool, s: seq<T>)
    requires SortedBy(le, s) && s != []
    ensures SortedBy(le, s[1..])
    ensures NoTies(le, s) ==> NoTies(le, s[1..])
  {
  }

  /** A sorted arrangement is unique when only equal elements tie. */
  lemma {:induction false} SortedUnique<T>(le: (T, T) -> bool, a: seq<T>, b: seq<T>)
    requires multiset(a) == multiset(b)
    requires SortedBy(le, a) && SortedBy(le, b)
    requires NoTies(le, a)
    ensures a == b
  {
    hide SortedBy, NoTies;
    assert |multiset(a)| == |multiset(b)|;
    if a != [] {
      SortedHeadsAgree(le, a, b);
      TailMultiset(a);
      TailMultiset(b);
      assert multiset(a[1..]) == multiset(a) - multiset{a[0]} == multiset(b[1..]);
      TailSorted(le, a);
      TailSorted(le, b);
      SortedUnique(le, a[1..], b[1..]);
      assert a == [a[0]] + a[1..] && b == [b[0]] + b[1..];
    }
  }

  /** Sorting depends only on the multiset being sorted. */
  lemma SortPermutation<T(!new)>(le: (T, T) -> bool, a: seq<T>, b: seq<T>)
    requires multiset(a) == multiset(b)
    requires Ranking(le) && NoTies(le, a)
    ensures Sort(le, a) == Sort(le, b)
  {
    SortMultiset(le, a);
    SortMultiset(le, b);
    SortIsSorted(le, a);
    SortIsSorted(le, b);
    forall x | x in Sort(le, a)
      ensures x in a
    {
      SortMember(le, a, x);
    }
    NoTiesTransfer(le, a, Sort(le, a));
    SortedUnique(le, Sort(le, a), Sort(le, b));
  }

  lemma FilterIsSorted<T>(le: (T, T) -> bool, p: T -> bool, s: seq<T>)
    requires SortedBy(le, s)
    ensures SortedBy(le, Filter(p, s))
  {
    if s != [] {
      FilterIsSorted(le, p, s[1..]);
      if p(s[0]) {
        var r := Filter(p, s[1..]);
        forall j | 0 <= j < |r|
          ensures le(s[0], r[j])
        {
          FilterMember(p, s[1..], r[j]);
        }
      }
    }
  }

  /** Filtering before or after sorting gives the same rows. */
  lemma SortFilterCommute<T(!new)>(le: (T, T) -> bool, p: T -> bool, s: seq<T>)
    requires Ranking(le) && NoTies(le, s)
    ensures Filter(p, Sort(le, s)) == Sort(le, Filter(p, s))
  {
    var f, g := Filter(p, s), Filter(p, Sort(le, s));
    SortIsSorted(le, s);
    FilterIsSorted(le, p, Sort(le, s));
    SortIsSorted(le, f);
    SortMultiset(le, s);
    SortMultiset(le, f);
    FilterPermutation(p, Sort(le, s), s);
    forall x | x in g
      ensures x in s
    {
      FilterMember(p, Sort(le, s), x);
      SortMember(le, s, x);
    }
    NoTiesTransfer(le, s, g);
    SortedUnique(le, g, Sort(le, f));
  }

  lemma InsertMap<T, U>(f: T -> U, le: (T, T) -> bool, lf: (U, U) -> bool, x: T, s: seq<T>)
    requires forall y :: y in s ==> le(x, y) == lf(f(x), f(y))
    ensures Map(f, InsertSorted(le, x, s)) == InsertSorted(lf, f(x), Map(f, s))
  {
    if s == [] || le(x, s[0]) {
      assert Map(f, [x] + s) == [f(x)] + Map(f, s);
    } else {
      InsertMap(f, le, lf, x, s[1..]);
      assert Map(f, s) == [f(s[0])] + Map(f, s[1..]);
    }
  }

  /** A map that carries one comparison to the other carries one sort to the other. */
  lemma MapSort<T, U>(f: T -> U, le: (T, T) -> bool, lf: (U, U) -> bool, s: seq<T>)
    requires forall i, j :: 0 <= i < j < |s| ==> le(s[i], s[j]) == lf(f(s[i]), f(s[j]))
    ensures Map(f, Sort(le, s)) == Sort(lf, Map(f, s))
  {
    if s != [] {
      MapSort(f, le, lf, s[1..]);
      assert Map(f, s) == [f(s[0])] + Map(f, s[1..]);
      forall y | y in Sort(le, s[1..])
        ensures le(s[0], y) == lf(f(s[0]), f(y))
      {
        SortMember(le, s[1..], y);
        var j :| 0 <= j < |s[1..]| && s[1..][j] == y;
        assert s[j + 1] == y;
      }
      InsertMap(f, le, lf, s[0], Sort(le, s[1..]));
    }
  }

  /** A test that a map preserves selects the images of what it selected. */
  lemma FilterOfMap<T>(f: T -> T, p: T -> bool, s: seq<T>)
    requires forall x :: x in s ==> p(f(x)) == p(x)
    ensures Filter(p, Map(f, s)) == Map(f, Filter(p, s))
  {
    MapFilter(f, p, p, s);
  }
}
