/**
 Ordering facts shared by every component that sorts: what `sort.Sort` promises,
 why that promise pins the result down when the order has no ties, and how sorting
 interacts with filtering.
 */
module Sorting {

  function Elements<T(!new)>(s: seq<T>): set<T> {
    set x | x in s
  }

  ghost predicate Distinct<T(!new)>(s: seq<T>) {
    forall i, j | 0 <= i < j < |s| :: s[i] != s[j]
  }

  /** A total preorder on the given elements: ties are allowed. */
  ghost predicate TotalOn<T(!new)>(leq: (T, T) -> bool, dom: set<T>) {
    && (forall a, b | a in dom && b in dom :: leq(a, b) || leq(b, a))
    && (forall a, b, c | a in dom && b in dom && c in dom :: leq(a, b) && leq(b, c) ==> leq(a, c))
  }

  /** A total order on the given elements: no two of them tie. */
  ghost predicate LinearOn<T(!new)>(leq: (T, T) -> bool, dom: set<T>) {
    && TotalOn(leq, dom)
    && (forall a, b | a in dom && b in dom :: leq(a, b) && leq(b, a) ==> a == b)
  }

  ghost predicate Sorted<T(!new)>(leq: (T, T) -> bool, s: seq<T>) {
    forall i, j | 0 <= i < j < |s| :: leq(s[i], s[j])
  }

  ghost predicate Permutation<T(!new)>(a: seq<T>, b: seq<T>) {
    multiset(a) == multiset(b)
  }

  function Insert<T(!new)>(leq: (T, T) -> bool, x: T, s: seq<T>): seq<T> {
    if s == [] || leq(x, s[0]) then [x] + s else [s[0]] + Insert(leq, x, s[1..])
  }

  function Sort<T(!new)>(leq: (T, T) -> bool, s: seq<T>): seq<T> {
    if s == [] then [] else Insert(leq, s[0], Sort(leq, s[1..]))
  }

  function Filter<T(!new)>(keep: T -> bool, s: seq<T>): seq<T> {
    if s == [] then []
    else if keep(s[0]) then [s[0]] + Filter(keep, s[1..])
    else Filter(keep, s[1..])
  }

  function Map<T(!new), U(!new)>(f: T -> U, s: seq<T>): (r: seq<U>)
    ensures |r| == |s|
    ensures forall i | 0 <= i < |s| :: r[i] == f(s[i])
  {
    if s == [] then [] else [f(s[0])] + Map(f, s[1..])
  }

  // ---------- permutations ----------

  lemma PermutationElements<T(!new)>(a: seq<T>, b: seq<T>)
    requires Permutation(a, b)
    ensures |a| == |b|
    ensures Elements(a) == Elements(b)
    ensures forall x {:trigger x in a} {:trigger x in b} :: x in a <==> x in b
  {
    assert |multiset(a)| == |multiset(b)|;
    forall x ensures x in a <==> x in b {
      assert x in multiset(a) <==> x in multiset(b);
    }
  }

  lemma {:induction false} DistinctCounts<T(!new)>(s: seq<T>)
    ensures Distinct(s) <==> forall x | x in s :: multiset(s)[x] == 1
  {
    if s != [] {
      DistinctCounts(s[1..]);
      assert s == [s[0]] + s[1..];
      if Distinct(s) {
        assert s[0] !in s[1..];
        assert Distinct(s[1..]);
      } else if s[0] in s[1..] {
        assert multiset(s)[s[0]] >= 2;
      } else {
        assert !Distinct(s[1..]) by {
          if Distinct(s[1..]) {
            forall i, j | 0 <= i < j < |s| ensures s[i] != s[j] {
              if i == 0 { assert s[j] == s[1..][j - 1]; }
              else { assert s[i] == s[1..][i - 1] && s[j] == s[1..][j - 1]; }
            }
          }
        }
        var x :| x in s[1..] && multiset(s[1..])[x] != 1;
        assert x in s && multiset(s)[x] != 1;
      }
    }
  }

  lemma PermutationDistinct<T(!new)>(a: seq<T>, b: seq<T>)
    requires Permutation(a, b) && Distinct(a)
    ensures Distinct(b)
  {
    PermutationElements(a, b);
    DistinctCounts(a);
    DistinctCounts(b);
  }

  /** Two duplicate-free lists with the same members are permutations of each other. */
  lemma SameMembersPermutation<T(!new)>(a: seq<T>, b: seq<T>)
    requires Distinct(a) && Distinct(b) && Elements(a) == Elements(b)
    ensures Permutation(a, b)
  {
    DistinctCounts(a);
    DistinctCounts(b);
    forall x ensures multiset(a)[x] == multiset(b)[x] {
      assert x in Elements(a) <==> x in a;
      assert x in Elements(b) <==> x in b;
      assert x in a <==> x in multiset(a);
      assert x in b <==> x in multiset(b);
    }
  }

  lemma {:induction false} DistinctIffCardinality<T(!new)>(s: seq<T>)
    ensures |Elements(s)| <= |s|
    ensures Distinct(s) <==> |Elements(s)| == |s|
  {
    if s != [] {
      DistinctIffCardinality(s[1..]);
      SplitFirst(s);
      if s[0] in s[1..] {
        assert Elements(s) == Elements(s[1..]);
        var i :| 0 <= i < |s[1..]| && s[1..][i] == s[0];
        assert s[0] == s[i + 1];
      } else {
        assert |Elements(s)| == 1 + |Elements(s[1..])|;
        DistinctCons(s);
      }
    }
  }

  lemma DistinctCons<T(!new)>(s: seq<T>)
    requires s != [] && s[0] !in s[1..]
    ensures Distinct(s) <==> Distinct(s[1..])
  {
    if Distinct(s[1..]) {
      forall i, j | 0 <= i < j < |s| ensures s[i] != s[j] {
        assert s[j] == s[1..][j - 1];
        assert i > 0 ==> s[i] == s[1..][i - 1];
      }
    }
  }

  lemma SubsetCardinality<T(!new)>(a: set<T>, b: set<T>)
    requires a <= b
    ensures |a| <= |b|
    ensures |a| == |b| ==> a == b
  {
    assert b == a + (b - a);
  }

  lemma SplitFirst<T(!new)>(s: seq<T>)
    requires s != []
    ensures s == [s[0]] + s[1..]
    ensures multiset(s) == multiset{s[0]} + multiset(s[1..])
    ensures multiset(s[1..]) == multiset(s) - multiset{s[0]}
    ensures Elements(s) == {s[0]} + Elements(s[1..])
  {
    assert s == [s[0]] + s[1..];
  }

  lemma {:induction false} MapConcat<T(!new), U(!new)>(f: T -> U, a: seq<T>, b: seq<T>)
    ensures Map(f, a + b) == Map(f, a) + Map(f, b)
  {
  }

  lemma SplitAt<T(!new)>(s: seq<T>, i: nat)
    requires i < |s|
    ensures s == s[..i] + [s[i]] + s[i + 1..]
    ensures multiset(s) == multiset{s[i]} + multiset(s[..i] + s[i + 1..])
    ensures multiset(s[..i] + s[i + 1..]) == multiset(s) - multiset{s[i]}
  {
    assert s == s[..i] + [s[i]] + s[i + 1..];
  }

  lemma {:induction false} PermutationMap<T(!new), U(!new)>(f: T -> U, a: seq<T>, b: seq<T>)
    requires Permutation(a, b)
    ensures Permutation(Map(f, a), Map(f, b))
  {
    PermutationElements(a, b);
    if a != [] {
      assert a[0] in b;
      var i :| 0 <= i < |b| && b[i] == a[0];
      SplitAt(b, i);
      SplitFirst(a);
      PermutationMap(f, a[1..], b[..i] + b[i + 1..]);
      MapConcat(f, b[..i], b[i + 1..]);
      MapConcat(f, b[..i] + [b[i]], b[i + 1..]);
      MapConcat(f, b[..i], [b[i]]);
    }
  }

  // ---------- filtering ----------

  lemma {:induction false} FilterMembers<T(!new)>(keep: T -> bool, s: seq<T>)
    ensures forall x {:trigger x in s} {:trigger x in Filter(keep, s)} :: x in Filter(keep, s) <==> x in s && keep(x)
    ensures |Filter(keep, s)| <= |s|
    ensures forall x :: multiset(Filter(keep, s))[x] == if keep(x) then multiset(s)[x] else 0
  {
    if s != [] {
      FilterMembers(keep, s[1..]);
      assert s == [s[0]] + s[1..];
    }
  }

  lemma {:induction false} FilterAppend<T(!new)>(keep: T -> bool, a: seq<T>, b: seq<T>)
    ensures Filter(keep, a + b) == Filter(keep, a) + Filter(keep, b)
  {
    if a == [] {
      assert a + b == b;
    } else {
      assert (a + b)[1..] == a[1..] + b;
      FilterAppend(keep, a[1..], b);
    }
  }

  lemma {:induction false} FilterPermutation<T(!new)>(keep: T -> bool, a: seq<T>, b: seq<T>)
    requires Permutation(a, b)
    ensures Permutation(Filter(keep, a), Filter(keep, b))
  {
    PermutationElements(a, b);
    if a != [] {
      assert a[0] in b;
      var i :| 0 <= i < |b| && b[i] == a[0];
      SplitAt(b, i);
      SplitFirst(a);
      FilterPermutation(keep, a[1..], b[..i] + b[i + 1..]);
      FilterAppend(keep, b[..i], b[i + 1..]);
      FilterAppend(keep, b[..i] + [b[i]], b[i + 1..]);
      FilterAppend(keep, b[..i], [b[i]]);
    }
  }

  lemma {:induction false} SameFilter<T(!new)>(f: T -> bool, g: T -> bool, s: seq<T>)
    requires forall x | x in s :: f(x) == g(x)
    ensures Filter(f, s) == Filter(g, s)
  {
    if s != [] {
      assert s[0] in s;
      SameFilter(f, g, s[1..]);
    }
  }

  lemma FilterDistinct<T(!new)>(keep: T -> bool, s: seq<T>)
    requires Distinct(s)
    ensures Distinct(Filter(keep, s))
  {
    FilterMembers(keep, s);
    DistinctCounts(s);
    DistinctCounts(Filter(keep, s));
  }

  lemma {:induction false} FilterSorted<T(!new)>(leq: (T, T) -> bool, keep: T -> bool, s: seq<T>)
    requires Sorted(leq, s)
    ensures Sorted(leq, Filter(keep, s))
  {
    if s != [] {
      FilterSorted(leq, keep, s[1..]);
      var rest := Filter(keep, s[1..]);
      FilterMembers(keep, s[1..]);
      forall j | 0 <= j < |rest| ensures leq(s[0], rest[j]) {
        var x := rest[j];
        assert x in rest;
        assert x in s[1..];
        var k :| 0 <= k < |s[1..]| && s[1..][k] == rest[j];
        assert leq(s[0], s[k + 1]);
      }
    }
  }

  // ---------- sorting ----------

  lemma SortedCons<T(!new)>(leq: (T, T) -> bool, x: T, s: seq<T>)
    requires Sorted(leq, s) && forall y | y in s :: leq(x, y)
    ensures Sorted(leq, [x] + s)
  {
    forall i, j | 0 <= i < j < |[x] + s| ensures leq(([x] + s)[i], ([x] + s)[j]) {
      assert s[j - 1] in s;
    }
  }

  lemma SortedHead<T(!new)>(leq: (T, T) -> bool, s: seq<T>)
    requires s != [] && Sorted(leq, s)
    ensures Sorted(leq, s[1..])
    ensures forall y | y in s[1..] :: leq(s[0], y)
  {
    forall y | y in s[1..] ensures leq(s[0], y) {
      var k :| 0 <= k < |s[1..]| && s[1..][k] == y;
      assert leq(s[0], s[k + 1]);
    }
  }

  lemma {:induction false} InsertPermutes<T(!new)>(leq: (T, T) -> bool, x: T, s: seq<T>)
    ensures multiset(Insert(leq, x, s)) == multiset{x} + multiset(s)
  {
    if s == [] || leq(x, s[0]) {
    } else {
      SplitFirst(s);
      InsertPermutes(leq, x, s[1..]);
    }
  }

  lemma {:induction false} InsertKeepsOrder<T(!new)>(leq: (T, T) -> bool, dom: set<T>, x: T, s: seq<T>)
    requires TotalOn(leq, dom) && x in dom && Elements(s) <= dom
    requires Sorted(leq, s)
    ensures Sorted(leq, Insert(leq, x, s))
  {
    if s != [] {
      SortedHead(leq, s);
      SplitFirst(s);
      if leq(x, s[0]) {
        forall y | y in s ensures leq(x, y) {
          assert y in Elements(s) && s[0] in Elements(s);
          assert y == s[0] || leq(s[0], y);
        }
        SortedCons(leq, x, s);
      } else {
        InsertKeepsOrder(leq, dom, x, s[1..]);
        InsertPermutes(leq, x, s[1..]);
        PermutationElements(Insert(leq, x, s[1..]), [x] + s[1..]);
        assert s[0] in Elements(s);
        var rest := Insert(leq, x, s[1..]);
        forall y | y in rest ensures leq(s[0], y) {
          assert y in rest;
          assert y in [x] + s[1..];
        }
        SortedCons(leq, s[0], Insert(leq, x, s[1..]));
      }
    }
  }

  lemma {:induction false} SortPermutes<T(!new)>(leq: (T, T) -> bool, s: seq<T>)
    ensures Permutation(Sort(leq, s), s)
  {
    if s != [] {
      SplitFirst(s);
      SortPermutes(leq, s[1..]);
      InsertPermutes(leq, s[0], Sort(leq, s[1..]));
    }
  }

  lemma {:induction false} SortIsSorted<T(!new)>(leq: (T, T) -> bool, dom: set<T>, s: seq<T>)
    requires TotalOn(leq, dom) && Elements(s) <= dom
    ensures Sorted(leq, Sort(leq, s)) && Permutation(Sort(leq, s), s)
  {
    SortPermutes(leq, s);
    if s != [] {
      SplitFirst(s);
      SortIsSorted(leq, dom, s[1..]);
      PermutationElements(Sort(leq, s[1..]), s[1..]);
      InsertKeepsOrder(leq, dom, s[0], Sort(leq, s[1..]));
    }
  }

  lemma SortedMinimum<T(!new)>(leq: (T, T) -> bool, dom: set<T>, a: seq<T>, x: T)
    requires TotalOn(leq, dom) && Elements(a) <= dom
    requires Sorted(leq, a) && x in a
    ensures leq(a[0], x)
  {
    SortedHead(leq, a);
    SplitFirst(a);
    assert x in Elements(a);
  }

  /** Without ties a list has only one sorted arrangement, so a stable and an unstable sort agree. */
  lemma {:induction false} SortedUnique<T(!new)>(leq: (T, T) -> bool, dom: set<T>, a: seq<T>, b: seq<T>)
    requires LinearOn(leq, dom) && Elements(a) <= dom
    requires Permutation(a, b) && Sorted(leq, a) && Sorted(leq, b)
    ensures a == b
  {
    PermutationElements(a, b);
    if a != [] {
      assert a[0] in b && b[0] in a;
      SortedMinimum(leq, dom, a, b[0]);
      SortedMinimum(leq, dom, b, a[0]);
      assert a[0] in Elements(a) && b[0] in Elements(a);
      SplitFirst(a);
      SplitFirst(b);
      SortedHead(leq, a);
      SortedHead(leq, b);
      assert multiset(a[1..]) == multiset(a) - multiset{a[0]};
      assert multiset(b[1..]) == multiset(b) - multiset{a[0]};
      SortedUnique(leq, dom, a[1..], b[1..]);
    }
  }

  /** Every sorted arrangement of a list without ties is the one Sort computes, whatever order the list came in. */
  lemma SortCanonical<T(!new)>(leq: (T, T) -> bool, dom: set<T>, a: seq<T>, b: seq<T>)
    requires LinearOn(leq, dom) && Elements(a) <= dom && Permutation(a, b)
    ensures Sort(leq, a) == Sort(leq, b)
    ensures Sorted(leq, b) ==> b == Sort(leq, a)
  {
    PermutationElements(a, b);
    SortIsSorted(leq, dom, a);
    SortIsSorted(leq, dom, b);
    PermutationElements(Sort(leq, a), a);
    SortedUnique(leq, dom, Sort(leq, a), Sort(leq, b));
    if Sorted(leq, b) {
      SortedUnique(leq, dom, Sort(leq, a), b);
    }
  }

  lemma SortFilterCommute<T(!new)>(leq: (T, T) -> bool, dom: set<T>, keep: T -> bool, s: seq<T>)
    requires LinearOn(leq, dom) && Elements(s) <= dom
    ensures Sort(leq, Filter(keep, s)) == Filter(keep, Sort(leq, s))
  {
    SortIsSorted(leq, dom, s);
    FilterPermutation(keep, Sort(leq, s), s);
    FilterSorted(leq, keep, Sort(leq, s));
    FilterMembers(keep, s);
    assert Elements(Filter(keep, s)) <= Elements(s) by {
      forall x | x in Elements(Filter(keep, s)) ensures x in Elements(s) {
        assert x in Filter(keep, s);
      }
    }
    SortCanonical(leq, dom, Filter(keep, s), Filter(keep, Sort(leq, s)));
  }

  /** One exchange step of the sort. */
  method Swap<T(!new)>(a: array<T>, i: nat, j: nat)
    requires i < a.Length && j < a.Length
    modifies a
    ensures a[..] == old(a[..])[i := old(a[j])][j := old(a[i])]
    ensures Permutation(a[..], old(a[..]))
  {
    a[i], a[j] := a[j], a[i];
  }

  /** The guarantee of Go's sort.Sort: a permutation with no inversion, nothing about ties.
      Its body is the exchange loop that library runs on slices of up to 12 elements. */
  method SortInPlace<T(!new)>(leq: (T, T) -> bool, a: array<T>)
    requires TotalOn(leq, Elements(a[..]))
    modifies a
    ensures Permutation(a[..], old(a[..]))
    ensures Sorted(leq, a[..])
  {
    if a.Length == 0 { return; }
    var i := 1;
    while i < a.Length
      invariant 1 <= i <= a.Length
      invariant Permutation(a[..], old(a[..]))
      invariant Sorted(leq, a[..i])
    {
      var j := i;
      while j > 0 && !leq(a[j - 1], a[j])
        invariant 0 <= j <= i < a.Length
        invariant Permutation(a[..], old(a[..]))
        invariant forall p, q | 0 <= p < q <= i && q != j :: leq(a[p], a[q])
      {
        PermutationElements(a[..], old(a[..]));
        assert a[j - 1] in a[..] && a[j] in a[..];
        assert leq(a[j], a[j - 1]);
        Swap(a, j, j - 1);
        j := j - 1;
      }
      PermutationElements(a[..], old(a[..]));
      assert forall p | 0 <= p < a.Length :: a[p] in a[..];
      i := i + 1;
    }
    assert a[..i] == a[..];
  }
}
