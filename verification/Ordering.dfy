/**
 Byte-wise string order, and sorting by any strict total order: the sorted arrangement is unique, and
 keeping the smallest k elements one at a time keeps exactly the first k of the sorted whole.
 */
module Ordering {

  // ---------------------------------------------------------------- byte-wise order

  /** The order of std::string on bytes. */
  predicate LexLess(a: string, b: string)
    decreases |a|
  {
    b != "" && (a == "" || a[0] < b[0] || (a[0] == b[0] && LexLess(a[1..], b[1..])))
  }

  lemma {:induction false} LexIrreflexive(a: string)
    ensures !LexLess(a, a)
    decreases |a|
  {
    if a != "" {
      LexIrreflexive(a[1..]);
    }
  }

  lemma {:induction false} LexTransitive(a: string, b: string, c: string)
    requires LexLess(a, b) && LexLess(b, c)
    ensures LexLess(a, c)
    decreases |a|
  {
    if a != "" && a[0] == b[0] && b[0] == c[0] {
      LexTransitive(a[1..], b[1..], c[1..]);
    }
  }

  lemma {:induction false} LexTotal(a: string, b: string)
    ensures a == b || LexLess(a, b) || LexLess(b, a)
    decreases |a|
  {
    if a != "" && b != "" && a[0] == b[0] {
      LexTotal(a[1..], b[1..]);
      assert a == [a[0]] + a[1..] && b == [b[0]] + b[1..];
    }
  }

  // ---------------------------------------------------------------- sorting by a strict total order

  ghost predicate StrictOrder<T(!new)>(less: (T, T) -> bool) {
    && (forall a :: !less(a, a))
    && (forall a, b, c :: less(a, b) && less(b, c) ==> less(a, c))
    && (forall a, b :: a == b || less(a, b) || less(b, a))
  }

  lemma {:induction false} LexIsStrictOrder()
    ensures StrictOrder(LexLess)
  {
    forall a ensures !LexLess(a, a) {
      LexIrreflexive(a);
    }
    forall a, b, c | LexLess(a, b) && LexLess(b, c) ensures LexLess(a, c) {
      LexTransitive(a, b, c);
    }
    forall a, b ensures a == b || LexLess(a, b) || LexLess(b, a) {
      LexTotal(a, b);
    }
  }

  ghost predicate Sorted<T>(less: (T, T) -> bool, s: seq<T>) {
    forall i, j :: 0 <= i < j < |s| ==> !less(s[j], s[i])
  }

  /** The first position whose element is not less than x. */
  function LowerBound<T>(less: (T, T) -> bool, s: seq<T>, x: T): (p: nat)
    ensures p <= |s|
    ensures p < |s| ==> !less(s[p], x)
    ensures forall i :: 0 <= i < p ==> less(s[i], x)
  {
    if s == [] || !less(s[0], x) then 0 else 1 + LowerBound(less, s[1..], x)
  }

  function Insert<T>(less: (T, T) -> bool, s: seq<T>, x: T): (r: seq<T>)
    ensures |r| == |s| + 1
  {
    var p := LowerBound(less, s, x);
    s[..p] + [x] + s[p..]
  }

  function Sort<T>(less: (T, T) -> bool, s: seq<T>): (r: seq<T>)
    ensures |r| == |s|
  {
    if s == [] then [] else Insert(less, Sort(less, s[..|s| - 1]), s[|s| - 1])
  }

  function Take<T>(s: seq<T>, k: nat): seq<T> {
    if |s| <= k then s else s[..k]
  }

  lemma {:induction false} InsertKeepsElements<T>(less: (T, T) -> bool, s: seq<T>, x: T)
    ensures multiset(Insert(less, s, x)) == multiset(s) + multiset{x}
  {
    var p := LowerBound(less, s, x);
    assert s == s[..p] + s[p..];
  }

  lemma {:induction false} NotLessChains<T(!new)>(less: (T, T) -> bool, a: T, b: T, c: T)
    requires StrictOrder(less) && !less(b, a) && !less(c, b)
    ensures !less(c, a)
  {
    assert a == b || less(a, b);
    assert b == c || less(b, c);
  }

  lemma {:induction false} InsertKeepsSorted<T(!new)>(less: (T, T) -> bool, s: seq<T>, x: T)
    requires StrictOrder(less) && Sorted(less, s)
    ensures Sorted(less, Insert(less, s, x))
    ensures multiset(Insert(less, s, x)) == multiset(s) + multiset{x}
  {
    InsertKeepsElements(less, s, x);
    var p := LowerBound(less, s, x);
    var r := Insert(less, s, x);
    forall i, j | 0 <= i < j < |r| ensures !less(r[j], r[i]) {
      if i == p {
        assert r[j] == s[j - 1];
        assert p < j - 1 ==> !less(s[j - 1], s[p]);
        NotLessChains(less, x, s[p], s[j - 1]);
      } else if j == p {
        assert less(s[i], x) && r[i] == s[i] && r[j] == x;
        assert less(x, s[i]) ==> less(x, x);
      } else {
        assert r[i] == s[if i < p then i else i - 1] && r[j] == s[if j < p then j else j - 1];
      }
    }
  }

  lemma {:induction false} SortSorts<T(!new)>(less: (T, T) -> bool, s: seq<T>)
    requires StrictOrder(less)
    ensures Sorted(less, Sort(less, s)) && multiset(Sort(less, s)) == multiset(s)
  {
    if s != [] {
      var front, last := s[..|s| - 1], s[|s| - 1];
      SortSorts(less, front);
      InsertKeepsSorted(less, Sort(less, front), last);
      assert s == front + [last];
    }
  }

  lemma {:induction false} SortedHead<T(!new)>(less: (T, T) -> bool, a: seq<T>, b: seq<T>)
    requires StrictOrder(less) && Sorted(less, a) && Sorted(less, b)
    requires multiset(a) == multiset(b) && a != []
    ensures b != [] && a[0] == b[0]
  {
    assert a[0] in multiset(b) && a[0] in b;
    assert b[0] in multiset(a) && b[0] in a;
    var i :| 0 <= i < |b| && b[i] == a[0];
    var j :| 0 <= j < |a| && a[j] == b[0];
    assert i > 0 ==> !less(b[i], b[0]);
    assert j > 0 ==> !less(a[j], a[0]);
  }

  /** Two sorted arrangements of the same elements are the same. */
  lemma {:induction false} SortedIsUnique<T(!new)>(less: (T, T) -> bool, a: seq<T>, b: seq<T>)
    requires StrictOrder(less) && Sorted(less, a) && Sorted(less, b)
    requires multiset(a) == multiset(b)
    ensures a == b
    decreases |a|
  {
    if a == [] {
      assert |multiset(a)| == |a| && |multiset(b)| == |b|;
    } else {
      SortedHead(less, a, b);
      assert a == [a[0]] + a[1..] && b == [b[0]] + b[1..];
      assert multiset(a[1..]) == multiset(a) - multiset{a[0]};
      assert multiset(b[1..]) == multiset(b) - multiset{b[0]};
      SortedIsUnique(less, a[1..], b[1..]);
    }
  }

  /** Sorting forgets the order in which the elements came. */
  lemma {:induction false} SortIgnoresOrder<T(!new)>(less: (T, T) -> bool, a: seq<T>, b: seq<T>)
    requires StrictOrder(less) && multiset(a) == multiset(b)
    ensures Sort(less, a) == Sort(less, b)
  {
    SortSorts(less, a);
    SortSorts(less, b);
    SortedIsUnique(less, Sort(less, a), Sort(less, b));
  }

  lemma {:induction false} SortOfSorted<T(!new)>(less: (T, T) -> bool, s: seq<T>)
    requires StrictOrder(less) && Sorted(less, s)
    ensures Sort(less, s) == s
  {
    SortSorts(less, s);
    SortedIsUnique(less, Sort(less, s), s);
  }

  // ---------------------------------------------------------------- the k smallest

  lemma {:induction false} LowerBoundIsUnique<T(!new)>(less: (T, T) -> bool, s: seq<T>, x: T, p: nat)
    requires StrictOrder(less) && Sorted(less, s)
    requires p <= |s| && (p < |s| ==> !less(s[p], x)) && forall i :: 0 <= i < p ==> less(s[i], x)
    ensures LowerBound(less, s, x) == p
  {
  }

  /** Inserting into the first k and keeping k is the same as inserting into all and keeping k. */
  lemma {:induction false} InsertThenTake<T(!new)>(less: (T, T) -> bool, s: seq<T>, x: T, k: nat)
    requires StrictOrder(less) && Sorted(less, s)
    ensures Take(Insert(less, Take(s, k), x), k) == Take(Insert(less, s, x), k)
  {
    if |s| > k {
      var p := LowerBound(less, s, x);
      var t := s[..k];
      LowerBoundIsUnique(less, t, x, if p < k then p else k);
      var a, b := Insert(less, t, x), Insert(less, s, x);
      forall i | 0 <= i < k ensures a[i] == b[i] {
      }
    }
  }

  /** The k smallest of some elements, in order. */
  function Smallest<T>(less: (T, T) -> bool, s: seq<T>, k: nat): seq<T> {
    Take(Sort(less, s), k)
  }

  lemma {:induction false} SmallestOfMore<T(!new)>(less: (T, T) -> bool, s: seq<T>, x: T, k: nat)
    requires StrictOrder(less)
    ensures Smallest(less, s + [x], k) == Take(Insert(less, Smallest(less, s, k), x), k)
  {
    assert (s + [x])[..|s|] == s;
    SortSorts(less, s);
    InsertThenTake(less, Sort(less, s), x, k);
  }

  lemma {:induction false} SmallestIsSorted<T(!new)>(less: (T, T) -> bool, s: seq<T>, k: nat)
    requires StrictOrder(less)
    ensures Sorted(less, Smallest(less, s, k))
    ensures |Smallest(less, s, k)| == if |s| <= k then |s| else k
    ensures |s| <= k ==> multiset(Smallest(less, s, k)) == multiset(s)
  {
    SortSorts(less, s);
  }

  /** The first of the elements that no element exceeds. */
  function LargestIndex<T>(less: (T, T) -> bool, s: seq<T>): (m: nat)
    requires s != []
    ensures m < |s|
  {
    if |s| == 1 then 0
    else
      var m := LargestIndex(less, s[..|s| - 1]);
      if less(s[m], s[|s| - 1]) then |s| - 1 else m
  }

  lemma {:induction false} LargestIsLargest<T(!new)>(less: (T, T) -> bool, s: seq<T>)
    requires StrictOrder(less) && s != []
    ensures forall i :: 0 <= i < |s| ==> !less(s[LargestIndex(less, s)], s[i])
  {
    if |s| > 1 {
      var front := s[..|s| - 1];
      LargestIsLargest(less, front);
      forall i | 0 <= i < |s| ensures !less(s[LargestIndex(less, s)], s[i]) {
        assert i < |s| - 1 ==> front[i] == s[i];
      }
    }
  }

  /** Keeping at most k elements by replacing a largest one. */
  function KeepSmallest<T>(less: (T, T) -> bool, kept: seq<T>, x: T, k: nat): seq<T> {
    if |kept| < k || kept == [] then kept + [x]
    else
      var m := LargestIndex(less, kept);
      if less(x, kept[m]) then kept[m := x] else kept
  }

  lemma {:induction false} LargestIsLastSorted<T(!new)>(less: (T, T) -> bool, kept: seq<T>, t: seq<T>)
    requires StrictOrder(less) && kept != [] && Sorted(less, t) && multiset(kept) == multiset(t)
    ensures |t| == |kept| && kept[LargestIndex(less, kept)] == t[|t| - 1]
  {
    LargestIsLargest(less, kept);
    var large := kept[LargestIndex(less, kept)];
    assert |multiset(kept)| == |kept| && |multiset(t)| == |t|;
    assert large in multiset(t) && t[|t| - 1] in multiset(kept);
    var i :| 0 <= i < |t| && t[i] == large;
    var j :| 0 <= j < |kept| && kept[j] == t[|t| - 1];
  }

  /** What falls out when an element is inserted and the last one dropped. */
  lemma {:induction false} InsertDrops<T(!new)>(less: (T, T) -> bool, t: seq<T>, x: T)
    requires StrictOrder(less) && t != [] && Sorted(less, t)
    ensures var last := t[|t| - 1];
      multiset(Insert(less, t, x)[..|t|]) == multiset(t) + multiset{x} - multiset{if less(x, last) then last else x}
  {
    var n, p, all := |t|, LowerBound(less, t, x), Insert(less, t, x);
    InsertKeepsSorted(less, t, x);
    assert all[n] == if less(x, t[n - 1]) then t[n - 1] else x by {
      if p < n {
        assert all[n] == t[n - 1] && !less(t[p], x) && !less(t[n - 1], t[p]);
      }
    }
    hide *;
    assert all == all[..n] + [all[n]];
  }

  lemma {:induction false} ReplacingKeeps<T(!new)>(less: (T, T) -> bool, kept: seq<T>, t: seq<T>, x: T)
    requires StrictOrder(less) && kept != [] && Sorted(less, t) && multiset(kept) == multiset(t)
    ensures |t| == |kept| && multiset(KeepSmallest(less, kept, x, |kept|)) == multiset(Insert(less, t, x)[..|t|])
  {
    LargestIsLastSorted(less, kept, t);
    InsertDrops(less, t, x);
    hide Sorted, StrictOrder, LargestIndex, Insert;
    var m := LargestIndex(less, kept);
    assert multiset(kept[m := x]) == multiset(kept) - multiset{kept[m]} + multiset{x};
  }

  /** Replacing the largest keeps the same elements as inserting in order and dropping the last. */
  lemma {:induction false} KeepSmallestKeeps<T(!new)>(less: (T, T) -> bool, kept: seq<T>, s: seq<T>, x: T, k: nat)
    requires StrictOrder(less) && k > 0
    requires multiset(kept) == multiset(Smallest(less, s, k))
    ensures multiset(KeepSmallest(less, kept, x, k)) == multiset(Smallest(less, s + [x], k))
  {
    var t := Smallest(less, s, k);
    SmallestIsSorted(less, s, k);
    SmallestOfMore(less, s, x, k);
    assert |multiset(kept)| == |kept| && |multiset(t)| == |t|;
    hide Smallest, Sorted, StrictOrder, LargestIndex, Insert;
    if |kept| < k {
      InsertKeepsSorted(less, t, x);
    } else {
      hide KeepSmallest;
      ReplacingKeeps(less, kept, t, x);
    }
  }
}
