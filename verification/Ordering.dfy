/** Stable sorting by a key. The order may call distinct keys equal, as a locale's does; what
    then decides the result is the order in which equal ones came. */
module Ordering {
  ghost predicate TotalOrder<K(!new)>(before: (K, K) -> bool) {
    && (forall a, b :: before(a, b) ==> !before(b, a))
    && (forall a, b :: a == b || before(a, b) || before(b, a))
    && (forall a, b, c :: before(a, b) && before(b, c) ==> before(a, c))
  }

  /** Keys that compare equal compare alike to every other key. */
  ghost predicate WeakOrder<K(!new)>(before: (K, K) -> bool) {
    && (forall a, b :: before(a, b) ==> !before(b, a))
    && (forall a, b, c :: before(a, c) ==> before(a, b) || before(b, c))
  }

  lemma TotalIsWeak<K(!new)>(before: (K, K) -> bool)
    requires TotalOrder(before)
    ensures WeakOrder(before)
  {
    forall a, b, c | before(a, c)
      ensures before(a, b) || before(b, c)
    {
      assert a == b || before(a, b) || before(b, a);
    }
  }

  function Insert<T(!new), K(!new)>(s: seq<T>, x: T, key: T -> K, before: (K, K) -> bool): (r: seq<T>)
    ensures multiset(r) == multiset(s) + multiset{x}
    ensures forall y :: y in r <==> y in s || y == x
  {
    if s == [] || !before(key(x), key(s[|s| - 1])) then
      s + [x]
    else
      assert s == s[..|s| - 1] + [s[|s| - 1]];
      Insert(s[..|s| - 1], x, key, before) + [s[|s| - 1]]
  }

  function Sort<T(!new), K(!new)>(s: seq<T>, key: T -> K, before: (K, K) -> bool): (r: seq<T>)
    ensures multiset(r) == multiset(s)
  {
    if s == [] then []
    else
      assert s == s[..|s| - 1] + [s[|s| - 1]];
      Insert(Sort(s[..|s| - 1], key, before), s[|s| - 1], key, before)
  }

  /** No element comes before an earlier one. */
  predicate Sorted<T(!new), K(!new)>(s: seq<T>, key: T -> K, before: (K, K) -> bool) {
    forall i, j :: 0 <= i < j < |s| ==> !before(key(s[j]), key(s[i]))
  }

  predicate DistinctKeys<T(!new), K(!new,==)>(s: seq<T>, key: T -> K) {
    forall i, j :: 0 <= i < j < |s| ==> key(s[i]) != key(s[j])
  }

  lemma SameMembers<T(!new)>(a: seq<T>, b: seq<T>)
    requires multiset(a) == multiset(b)
    ensures forall x :: x in a <==> x in b
    ensures |a| == |b|
  {
    assert |multiset(a)| == |multiset(b)|;
    forall x
      ensures x in a <==> x in b
    {
      assert x in a <==> x in multiset(a);
      assert x in b <==> x in multiset(b);
    }
  }

  lemma {:induction false} InsertSorts<T(!new), K(!new)>(s: seq<T>, x: T, key: T -> K, before: (K, K) -> bool)
    requires WeakOrder(before) && Sorted(s, key, before)
    ensures Sorted(Insert(s, x, key, before), key, before)
  {
    if s != [] && before(key(x), key(s[|s| - 1])) {
      var most, last := s[..|s| - 1], s[|s| - 1];
      InsertSorts(most, x, key, before);
      var r := Insert(most, x, key, before);
      forall i | 0 <= i < |r|
        ensures !before(key(last), key(r[i]))
      {
        assert r[i] in r;
        if r[i] in most {
          var k :| 0 <= k < |most| && most[k] == r[i];
          assert s[k] == r[i];
        }
      }
    } else if s != [] {
      forall i | 0 <= i < |s|
        ensures !before(key(x), key(s[i]))
      {
        assert i < |s| - 1 ==> !before(key(s[|s| - 1]), key(s[i]));
      }
    }
  }

  lemma {:induction false} SortSorts<T(!new), K(!new)>(s: seq<T>, key: T -> K, before: (K, K) -> bool)
    requires WeakOrder(before)
    ensures Sorted(Sort(s, key, before), key, before)
  {
    if s != [] {
      SortSorts(s[..|s| - 1], key, before);
      InsertSorts(Sort(s[..|s| - 1], key, before), s[|s| - 1], key, before);
    }
  }

  /** Distinct keys, said by counting: no key occurs twice. */
  lemma {:induction false} CountedOnce<T(!new), K(!new)>(s: seq<T>, key: T -> K)
    requires DistinctKeys(s, key)
    ensures forall x :: multiset(s)[x] <= 1
    ensures forall x, y :: x in s && y in s && key(x) == key(y) ==> x == y
  {
    if s != [] {
      var most, last := s[..|s| - 1], s[|s| - 1];
      CountedOnce(most, key);
      assert s == most + [last];
      assert forall k :: 0 <= k < |most| ==> most[k] == s[k];
      assert last !in most;
    }
  }

  lemma SameDistinct<T(!new), K(!new)>(a: seq<T>, b: seq<T>, key: T -> K)
    requires multiset(a) == multiset(b) && DistinctKeys(a, key)
    ensures DistinctKeys(b, key)
  {
    CountedOnce(a, key);
    SameMembers(a, b);
    forall i, j | 0 <= i < j < |b|
      ensures key(b[i]) != key(b[j])
    {
      assert b[i] in a && b[j] in a;
      assert b == b[..j] + [b[j]] + b[j + 1..];
      assert b[..j][i] == b[i];
      assert multiset(b)[b[j]] == multiset(b[..j])[b[j]] + 1 + multiset(b[j + 1..])[b[j]];
      assert multiset(b[..j])[b[j]] == 0;
    }
  }

  /** The first element of a sorted list with distinct keys comes before all its others. */
  lemma FirstIsLeast<T(!new), K(!new)>(s: seq<T>, key: T -> K, before: (K, K) -> bool)
    requires TotalOrder(before) && Sorted(s, key, before) && DistinctKeys(s, key) && s != []
    ensures forall x :: x in s ==> x == s[0] || before(key(s[0]), key(x))
    ensures forall x :: x in s[1..] <==> x in s && x != s[0]
  {
    assert s == [s[0]] + s[1..];
    forall x | x in s[1..]
      ensures x != s[0] && before(key(s[0]), key(x))
    {
      var k :| 0 <= k < |s[1..]| && s[1..][k] == x;
      assert s[k + 1] == x;
    }
  }

  /** Sorted lists with distinct keys are determined by their members. */
  lemma {:induction false} SortedUnique<T(!new), K(!new)>(a: seq<T>, b: seq<T>, key: T -> K, before: (K, K) -> bool)
    requires TotalOrder(before) && Sorted(a, key, before) && Sorted(b, key, before)
    requires DistinctKeys(a, key) && DistinctKeys(b, key)
    requires forall x :: x in a <==> x in b
    ensures a == b
  {
    assert b != [] ==> b[0] in a;
    assert a != [] ==> a[0] in b;
    if a != [] {
      FirstIsLeast(a, key, before);
      FirstIsLeast(b, key, before);
      assert a[0] == b[0];
      SortedUnique(a[1..], b[1..], key, before);
      assert a == [a[0]] + a[1..] && b == [b[0]] + b[1..];
    }
  }

  // ------------------------------------------------------- equal-comparing keys

  predicate Ties<K(!new)>(a: K, b: K, before: (K, K) -> bool) { !before(a, b) && !before(b, a) }

  /** The elements that tie with a key, in their order. */
  function Tied<T(!new), K(!new)>(s: seq<T>, k: K, key: T -> K, before: (K, K) -> bool): seq<T> {
    if s == [] then []
    else Tied(s[..|s| - 1], k, key, before) + (if Ties(key(s[|s| - 1]), k, before) then [s[|s| - 1]] else [])
  }

  /** Elements that compare equal come in the same order in both. */
  ghost predicate SameTies<T(!new), K(!new)>(a: seq<T>, b: seq<T>, key: T -> K, before: (K, K) -> bool) {
    forall k :: Tied(a, k, key, before) == Tied(b, k, key, before)
  }

  /** Of two keys in order, at most one ties with k. */
  ghost predicate OneTies<K(!new)>(k: K, before: (K, K) -> bool) {
    forall a, b :: before(a, b) ==> !(Ties(a, k, before) && Ties(b, k, before))
  }

  lemma {:induction false} InsertKeepsTies<T(!new), K(!new)>(s: seq<T>, x: T, k: K, key: T -> K, before: (K, K) -> bool)
    requires OneTies(k, before)
    ensures Tied(Insert(s, x, key, before), k, key, before) == Tied(s, k, key, before) + (if Ties(key(x), k, before) then [x] else [])
  {
    if s == [] || !before(key(x), key(s[|s| - 1])) {
      assert (s + [x])[..|s|] == s;
    } else {
      var most, last := s[..|s| - 1], s[|s| - 1];
      InsertKeepsTies(most, x, k, key, before);
      TiedLast(Insert(most, x, key, before), last, k, key, before);
      SwapOne(Tied(most, k, key, before), if Ties(key(x), k, before) then [x] else [], if Ties(key(last), k, before) then [last] else []);
    }
  }

  lemma TiedLast<T(!new), K(!new)>(s: seq<T>, x: T, k: K, key: T -> K, before: (K, K) -> bool)
    ensures Tied(s + [x], k, key, before) == Tied(s, k, key, before) + (if Ties(key(x), k, before) then [x] else [])
  {
    assert (s + [x])[..|s|] == s;
  }

  lemma SwapOne<T>(s: seq<T>, x: seq<T>, y: seq<T>)
    requires x == [] || y == []
    ensures s + x + y == s + y + x
  {
  }

  lemma {:induction false} SortKeepsTies<T(!new), K(!new)>(s: seq<T>, k: K, key: T -> K, before: (K, K) -> bool)
    requires WeakOrder(before)
    ensures Tied(Sort(s, key, before), k, key, before) == Tied(s, k, key, before)
  {
    if s != [] {
      SortKeepsTies(s[..|s| - 1], k, key, before);
      assert OneTies(k, before);
      InsertKeepsTies(Sort(s[..|s| - 1], key, before), s[|s| - 1], k, key, before);
    }
  }

  lemma {:induction false} TiedPrefix<T(!new), K(!new)>(s: seq<T>, n: nat, k: K, key: T -> K, before: (K, K) -> bool)
    requires n <= |s|
    ensures Tied(s[..n], k, key, before) <= Tied(s, k, key, before)
  {
    if n == |s| {
      assert s[..n] == s;
    } else {
      assert s[..|s| - 1][..n] == s[..n];
      TiedPrefix(s[..|s| - 1], n, k, key, before);
    }
  }

  /** Lists that are the same up to a place where they hold distinct elements of one tie. */
  lemma TiesDiffer<T(!new), K(!new)>(a: seq<T>, b: seq<T>, i: nat, k: K, key: T -> K, before: (K, K) -> bool)
    requires i < |a| && i < |b| && a[..i] == b[..i] && a[i] != b[i]
    requires Ties(key(a[i]), k, before) && Ties(key(b[i]), k, before)
    ensures !SameTies(a, b, key, before)
  {
    var same := Tied(a[..i], k, key, before);
    TiedLast(a[..i], a[i], k, key, before);
    TiedLast(b[..i], b[i], k, key, before);
    assert a[..i + 1] == a[..i] + [a[i]] && b[..i + 1] == b[..i] + [b[i]];
    TiedPrefix(a, i + 1, k, key, before);
    TiedPrefix(b, i + 1, k, key, before);
    assert (same + [a[i]])[|same|] != (same + [b[i]])[|same|];
  }

  lemma {:induction false} TiedMembers<T(!new), K(!new)>(s: seq<T>, k: K, key: T -> K, before: (K, K) -> bool)
    ensures forall x :: x in Tied(s, k, key, before) <==> x in s && Ties(key(x), k, before)
  {
    if s != [] {
      TiedMembers(s[..|s| - 1], k, key, before);
      assert s == s[..|s| - 1] + [s[|s| - 1]];
    }
  }

  /** The last of a sorted list comes before none of it. */
  lemma LastIsGreatest<T(!new), K(!new)>(s: seq<T>, x: T, key: T -> K, before: (K, K) -> bool)
    requires WeakOrder(before) && Sorted(s, key, before) && x in s
    ensures !before(key(s[|s| - 1]), key(x))
  {
    var i :| 0 <= i < |s| && s[i] == x;
    assert before(key(x), key(x)) ==> !before(key(x), key(x));
  }

  /** Lists with the same ties end alike. */
  lemma SameLast<T(!new), K(!new)>(a: seq<T>, b: seq<T>, key: T -> K, before: (K, K) -> bool)
    requires WeakOrder(before) && Sorted(a, key, before) && Sorted(b, key, before)
    requires SameTies(a, b, key, before) && a != []
    ensures b != [] && a[|a| - 1] == b[|b| - 1]
  {
    var la := a[|a| - 1];
    assert Ties(key(la), key(la), before);
    TiedMembers(a, key(la), key, before);
    TiedMembers(b, key(la), key, before);
    assert la in Tied(b, key(la), key, before);
    var lb := b[|b| - 1];
    assert Ties(key(lb), key(lb), before);
    TiedMembers(a, key(lb), key, before);
    TiedMembers(b, key(lb), key, before);
    assert lb in Tied(a, key(lb), key, before);
    LastIsGreatest(a, lb, key, before);
    LastIsGreatest(b, la, key, before);
    assert Ties(key(la), key(lb), before);
    var t := Tied(a, key(la), key, before);
    assert t[|t| - 1] == la;
    assert Tied(b, key(la), key, before)[|t| - 1] == lb;
  }

  lemma SameInit<T(!new)>(a: seq<T>, b: seq<T>, t: seq<T>)
    requires a + t == b + t
    ensures a == b
  {
    assert |a + t| == |b + t|;
    assert a == (a + t)[..|a|] && b == (b + t)[..|b|];
  }

  /** A sorted list is determined by its ties. */
  lemma {:induction false} SortedByTies<T(!new), K(!new)>(a: seq<T>, b: seq<T>, key: T -> K, before: (K, K) -> bool)
    requires WeakOrder(before) && Sorted(a, key, before) && Sorted(b, key, before) && SameTies(a, b, key, before)
    ensures a == b
    decreases |a|
  {
    if a == [] {
      if b != [] { SameLast(b, a, key, before); }
    } else {
      SameLast(a, b, key, before);
      var ma, mb := a[..|a| - 1], b[..|b| - 1];
      forall k
        ensures Tied(ma, k, key, before) == Tied(mb, k, key, before)
      {
        var t := if Ties(key(a[|a| - 1]), k, before) then [a[|a| - 1]] else [];
        assert Tied(a, k, key, before) == Tied(ma, k, key, before) + t && Tied(b, k, key, before) == Tied(mb, k, key, before) + t;
        assert Tied(a, k, key, before) == Tied(b, k, key, before);
        SameInit(Tied(ma, k, key, before), Tied(mb, k, key, before), t);
      }
      SortedByTies(ma, mb, key, before);
      assert a == ma + [a[|a| - 1]] && b == mb + [b[|b| - 1]];
    }
  }

  /** Two lists sort alike exactly if they hold the same elements with equal ones in the same order. */
  lemma SortedAlikeIff<T(!new), K(!new)>(a: seq<T>, b: seq<T>, key: T -> K, before: (K, K) -> bool)
    requires WeakOrder(before)
    ensures Sort(a, key, before) == Sort(b, key, before) <==> SameTies(a, b, key, before)
    ensures SameTies(a, b, key, before) ==> multiset(a) == multiset(b)
  {
    var sa, sb := Sort(a, key, before), Sort(b, key, before);
    forall k
      ensures Tied(sa, k, key, before) == Tied(a, k, key, before)
      ensures Tied(sb, k, key, before) == Tied(b, k, key, before)
    {
      SortKeepsTies(a, k, key, before);
      SortKeepsTies(b, k, key, before);
    }
    if SameTies(a, b, key, before) {
      SortSorts(a, key, before);
      SortSorts(b, key, before);
      assert SameTies(sa, sb, key, before);
      SortedByTies(sa, sb, key, before);
    } else {
      var k :| Tied(a, k, key, before) != Tied(b, k, key, before);
      assert Tied(sa, k, key, before) != Tied(sb, k, key, before);
    }
  }

  /** No two elements compare equal. */
  predicate ToldApart<T(!new), K(!new)>(s: seq<T>, key: T -> K, before: (K, K) -> bool) {
    forall i, j :: 0 <= i < j < |s| ==> !Ties(key(s[i]), key(s[j]), before)
  }

  lemma {:induction false} TiedAlone<T(!new), K(!new)>(s: seq<T>, k: K, key: T -> K, before: (K, K) -> bool)
    requires WeakOrder(before) && ToldApart(s, key, before)
    ensures |Tied(s, k, key, before)| <= 1
  {
    if s != [] {
      var most, last := s[..|s| - 1], s[|s| - 1];
      TiedAlone(most, k, key, before);
      TiedMembers(most, k, key, before);
      forall i | 0 <= i < |most|
        ensures Ties(key(last), k, before) ==> !Ties(key(most[i]), k, before)
      {
        assert !Ties(key(s[i]), key(s[|s| - 1]), before);
      }
      assert Tied(most, k, key, before) != [] ==> Tied(most, k, key, before)[0] in most;
    }
  }

  lemma ToldApartByMembers<T(!new), K(!new)>(a: seq<T>, b: seq<T>, key: T -> K, before: (K, K) -> bool)
    requires WeakOrder(before) && multiset(a) == multiset(b) && ToldApart(a, key, before)
    ensures ToldApart(b, key, before)
  {
    forall i, j | 0 <= i < j < |b|
      ensures !Ties(key(b[i]), key(b[j]), before)
    {
      SameMembers(a, b);
      assert b[i] in a && b[j] in a;
      var m, n :| 0 <= m < |a| && 0 <= n < |a| && a[m] == b[i] && a[n] == b[j];
      if m == n {
        assert b == b[..i] + [b[i]] + b[i + 1..] && b[j] in b[i + 1..];
        assert multiset(b)[b[i]] >= 2;
        AppearsOnce(a, m, key, before);
        assert false;
      }
      assert m < n || n < m;
    }
  }

  lemma AppearsOnce<T(!new), K(!new)>(a: seq<T>, m: nat, key: T -> K, before: (K, K) -> bool)
    requires WeakOrder(before) && ToldApart(a, key, before) && m < |a|
    ensures multiset(a)[a[m]] == 1
  {
    assert a == a[..m] + [a[m]] + a[m + 1..];
    assert Ties(key(a[m]), key(a[m]), before);
    assert forall i :: 0 <= i < m ==> a[..m][i] != a[m];
    var rest := a[m + 1..];
    forall i | 0 <= i < |rest|
      ensures rest[i] != a[m]
    {
      assert rest[i] == a[m + 1 + i] && !Ties(key(a[m]), key(a[m + 1 + i]), before);
    }
  }

  /** So where no two compare equal, sorting forgets the order a list came in. */
  lemma SortForgetsOrder<T(!new), K(!new)>(a: seq<T>, b: seq<T>, key: T -> K, before: (K, K) -> bool)
    requires WeakOrder(before) && multiset(a) == multiset(b) && ToldApart(a, key, before)
    ensures SameTies(a, b, key, before) && Sort(a, key, before) == Sort(b, key, before)
  {
    ToldApartByMembers(a, b, key, before);
    forall k
      ensures Tied(a, k, key, before) == Tied(b, k, key, before)
    {
      TiedAlone(a, k, key, before);
      TiedAlone(b, k, key, before);
      TiedMembers(a, k, key, before);
      TiedMembers(b, k, key, before);
      SameMembers(a, b);
      OneOrNone(Tied(a, k, key, before), Tied(b, k, key, before));
    }
    SortedAlikeIff(a, b, key, before);
  }

  lemma OneOrNone<T(!new)>(a: seq<T>, b: seq<T>)
    requires |a| <= 1 && |b| <= 1 && forall x :: x in a <==> x in b
    ensures a == b
  {
    if a != [] { assert a[0] in b; }
    if b != [] { assert b[0] in a; }
  }
}
