/** Stable sorting by a total preorder, as Array.prototype.sort does it. */
module StableSort {

  ghost predicate TotalPreorder<T(!new)>(le: (T, T) -> bool) {
    && (forall a, b :: le(a, b) || le(b, a))
    && (forall a, b, c :: le(a, b) && le(b, c) ==> le(a, c))
  }

  predicate SortedBy<T>(s: seq<T>, le: (T, T) -> bool) {
    forall i, j :: 0 <= i < j < |s| ==> le(s[i], s[j])
  }

  /** Puts `x` after everything that may stand before it. */
  function Insert<T>(s: seq<T>, x: T, le: (T, T) -> bool): seq<T> {
    if s == [] || le(s[|s| - 1], x) then s + [x]
    else Insert(s[..|s| - 1], x, le) + [s[|s| - 1]]
  }

  function SortBy<T>(s: seq<T>, le: (T, T) -> bool): seq<T> {
    if s == [] then [] else Insert(SortBy(s[..|s| - 1], le), s[|s| - 1], le)
  }

  /** The elements that tie with `x`, in their order. */
  function Ties<T>(s: seq<T>, x: T, le: (T, T) -> bool): seq<T> {
    if s == [] then []
    else
      var last := s[|s| - 1];
      Ties(s[..|s| - 1], x, le) + if le(last, x) && le(x, last) then [last] else []
  }

  /** A reordering in which no two ties change places. */
  ghost predicate Reordered<T(!new)>(s: seq<T>, r: seq<T>, le: (T, T) -> bool) {
    multiset(r) == multiset(s) && forall x :: Ties(r, x, le) == Ties(s, x, le)
  }

  lemma InsertLast<T(!new)>(s: seq<T>, x: T, le: (T, T) -> bool)
    requires TotalPreorder(le) && SortedBy(s, le) && (s == [] || le(s[|s| - 1], x))
    ensures SortedBy(s + [x], le)
  {
    forall i | 0 <= i < |s| ensures le(s[i], x) {
      assert i < |s| - 1 ==> le(s[i], s[|s| - 1]);
    }
  }

  lemma {:induction false} InsertAdds<T>(s: seq<T>, x: T, le: (T, T) -> bool)
    ensures multiset(Insert(s, x, le)) == multiset(s) + multiset{x}
  {
    if s != [] && !le(s[|s| - 1], x) {
      assert s == s[..|s| - 1] + [s[|s| - 1]];
      InsertAdds(s[..|s| - 1], x, le);
    }
  }

  lemma {:induction false} InsertSorts<T(!new)>(s: seq<T>, x: T, le: (T, T) -> bool)
    requires TotalPreorder(le) && SortedBy(s, le)
    ensures SortedBy(Insert(s, x, le), le)
  {
    if s == [] || le(s[|s| - 1], x) {
      InsertLast(s, x, le);
    } else {
      var init, last := s[..|s| - 1], s[|s| - 1];
      assert le(x, last);
      hide TotalPreorder;
      InsertSorts(init, x, le);
      var inserted := Insert(init, x, le);
      forall i | 0 <= i < |inserted| ensures le(inserted[i], last) {
        InsertAdds(init, x, le);
        assert inserted[i] in multiset(inserted);
      }
    }
  }

  lemma {:induction false} InsertKeepsTies<T(!new)>(s: seq<T>, x: T, le: (T, T) -> bool, y: T)
    requires TotalPreorder(le)
    ensures Ties(Insert(s, x, le), y, le) == Ties(s, y, le) + if le(x, y) && le(y, x) then [x] else []
  {
    if s == [] || le(s[|s| - 1], x) {
      assert (s + [x])[..|s|] == s;
    } else {
      var init, last := s[..|s| - 1], s[|s| - 1];
      InsertKeepsTies(init, x, le, y);
      var inserted := Insert(init, x, le);
      assert (inserted + [last])[..|inserted|] == inserted;
    }
  }

  /** Sorting by a total preorder gives a sorted permutation in which ties keep their order. */
  lemma {:induction false} SortByIsSorted<T(!new)>(s: seq<T>, le: (T, T) -> bool)
    requires TotalPreorder(le)
    ensures SortedBy(SortBy(s, le), le) && Reordered(s, SortBy(s, le), le)
  {
    hide TotalPreorder, SortedBy, Insert;
    if s == [] {
      NothingIsSorted(le);
    } else {
      var init, last := s[..|s| - 1], s[|s| - 1];
      assert s == init + [last];
      SortByIsSorted(init, le);
      InsertSorts(SortBy(init, le), last, le);
      InsertAdds(SortBy(init, le), last, le);
      forall y ensures Ties(SortBy(s, le), y, le) == Ties(s, y, le) {
        InsertKeepsTies(SortBy(init, le), last, le, y);
      }
    }
  }

  lemma NothingIsSorted<T>(le: (T, T) -> bool)
    ensures SortedBy([], le)
  {
  }

  /** There is only one such permutation, so whatever sorts stably sorts like this. */
  lemma {:induction false} StableSortIsUnique<T(!new)>(a: seq<T>, b: seq<T>, le: (T, T) -> bool)
    requires TotalPreorder(le) && SortedBy(a, le) && SortedBy(b, le) && Reordered(a, b, le)
    ensures a == b
  {
    SameMembers(a, b, le);
    hide TotalPreorder, Reordered;
    if a != [] {
      LastIsSame(a, b, le);
      LastLeaves(a, b, le);
      StableSortIsUnique(a[..|a| - 1], b[..|b| - 1], le);
      assert a == a[..|a| - 1] + [a[|a| - 1]] && b == b[..|b| - 1] + [b[|b| - 1]];
    }
  }

  lemma SameMembers<T(!new)>(s: seq<T>, r: seq<T>, le: (T, T) -> bool)
    requires Reordered(s, r, le)
    ensures multiset(s) == multiset(r) && |s| == |r|
  {
    assert |multiset(s)| == |multiset(r)|;
  }

  lemma LastLeaves<T(!new)>(a: seq<T>, b: seq<T>, le: (T, T) -> bool)
    requires Reordered(a, b, le) && a != [] && b != [] && a[|a| - 1] == b[|b| - 1]
    ensures Reordered(a[..|a| - 1], b[..|b| - 1], le)
  {
    var p, q, x := a[..|a| - 1], b[..|b| - 1], a[|a| - 1];
    MultisetOfLast(a);
    MultisetOfLast(b);
    forall z ensures Ties(q, z, le) == Ties(p, z, le) {
      var tie := if le(x, z) && le(z, x) then [x] else [];
      assert Ties(a, z, le) == Ties(p, z, le) + tie && Ties(b, z, le) == Ties(q, z, le) + tie;
      hide Ties;
      SameSuffix(Ties(p, z, le), Ties(q, z, le), tie);
    }
  }

  lemma MultisetOfLast<T>(a: seq<T>)
    requires a != []
    ensures multiset(a[..|a| - 1]) == multiset(a) - multiset{a[|a| - 1]}
  {
    assert a == a[..|a| - 1] + [a[|a| - 1]];
  }

  lemma SameSuffix<T>(p: seq<T>, q: seq<T>, suffix: seq<T>)
    requires p + suffix == q + suffix
    ensures p == q
  {
    assert |p + suffix| == |q + suffix|;
    assert p == (p + suffix)[..|p|] && q == (q + suffix)[..|q|];
  }

  lemma LastIsSame<T(!new)>(a: seq<T>, b: seq<T>, le: (T, T) -> bool)
    requires TotalPreorder(le) && SortedBy(a, le) && SortedBy(b, le) && Reordered(a, b, le)
    requires a != [] && b != []
    ensures a[|a| - 1] == b[|b| - 1]
  {
    var x, y := a[|a| - 1], b[|b| - 1];
    assert x in multiset(a) && y in multiset(b);
    var i :| 0 <= i < |b| && b[i] == x;
    var j :| 0 <= j < |a| && a[j] == y;
    assert le(x, y) && le(y, x);
    assert le(x, x);
    assert Ties(a, x, le) == Ties(b, x, le);
    assert Ties(a, x, le)[|Ties(a, x, le)| - 1] == x;
    assert Ties(b, x, le)[|Ties(b, x, le)| - 1] == y;
  }

  ghost predicate Distinct<T>(s: seq<T>) {
    forall i, j :: 0 <= i < j < |s| ==> s[i] != s[j]
  }

  /** A permutation has the same members, and none twice if none was there twice. */
  lemma DistinctStays<T>(a: seq<T>, b: seq<T>)
    requires multiset(a) == multiset(b)
    ensures forall x :: x in a <==> x in b
    ensures Distinct(a) ==> Distinct(b)
  {
    forall x ensures x in a <==> x in b {
      assert x in a <==> x in multiset(a);
      assert x in b <==> x in multiset(b);
    }
    if Distinct(a) {
      forall i, j | 0 <= i < j < |b| ensures b[i] != b[j] {
        TwiceAtLeast(b, i, j);
        assert b[i] in a;
        var k :| 0 <= k < |a| && a[k] == b[i];
        OnceOnly(a, k);
      }
    }
  }

  lemma OnceOnly<T>(a: seq<T>, k: nat)
    requires Distinct(a) && k < |a|
    ensures multiset(a)[a[k]] == 1
  {
    assert a == a[..k] + [a[k]] + a[k + 1..];
    assert a[k] !in a[..k] && a[k] !in a[k + 1..];
  }

  lemma TwiceAtLeast<T>(b: seq<T>, i: nat, j: nat)
    requires i < j < |b|
    ensures b[i] == b[j] ==> multiset(b)[b[i]] >= 2
  {
    assert b == b[..j] + [b[j]] + b[j + 1..];
    assert b[i] == b[..j][i];
    assert b[i] in b[..j];
  }

  /** `x` stands before `y` somewhere in the list. */
  ghost predicate Precedes<T(!new)>(s: seq<T>, x: T, y: T) {
    exists i, j :: 0 <= i < j < |s| && s[i] == x && s[j] == y
  }

  lemma {:induction false} TiesComeFrom<T(!new)>(s: seq<T>, x: T, le: (T, T) -> bool, i: nat, j: nat)
    requires i < j < |Ties(s, x, le)|
    ensures Precedes(s, Ties(s, x, le)[i], Ties(s, x, le)[j])
  {
    var n := |s| - 1;
    var before := Ties(s[..n], x, le);
    if j < |before| {
      TiesComeFrom(s[..n], x, le, i, j);
      var k, l :| 0 <= k < l < n && s[..n][k] == before[i] && s[..n][l] == before[j];
      assert s[k] == before[i] && s[l] == before[j];
    } else {
      TieIsThere(s[..n], x, le, before[i]);
      var k :| 0 <= k < n && s[..n][k] == before[i];
      assert s[k] == before[i] && s[n] == Ties(s, x, le)[j];
    }
  }

  lemma {:induction false} TieIsThere<T(!new)>(s: seq<T>, x: T, le: (T, T) -> bool, y: T)
    ensures y in Ties(s, x, le) <==> y in s && le(x, y) && le(y, x)
  {
    if s != [] {
      TieIsThere(s[..|s| - 1], x, le, y);
      assert s == s[..|s| - 1] + [s[|s| - 1]];
    }
  }

  lemma {:induction false} TiesKeepTheirOrder<T(!new)>(s: seq<T>, x: T, le: (T, T) -> bool, i: nat, j: nat)
    requires i < j < |s| && le(s[i], x) && le(x, s[i]) && le(s[j], x) && le(x, s[j])
    ensures Precedes(Ties(s, x, le), s[i], s[j])
  {
    var n := |s| - 1;
    var before := Ties(s[..n], x, le);
    if j < n {
      TiesKeepTheirOrder(s[..n], x, le, i, j);
      var k, l :| 0 <= k < l < |before| && before[k] == s[i] && before[l] == s[j];
      assert Ties(s, x, le)[k] == s[i] && Ties(s, x, le)[l] == s[j];
    } else {
      assert s[..n][i] == s[i];
      TieIsThere(s[..n], x, le, s[i]);
      var k :| 0 <= k < |before| && before[k] == s[i];
      assert Ties(s, x, le)[k] == s[i] && Ties(s, x, le)[|before|] == s[j];
    }
  }

  /** What ties after sorting stood in this order before. */
  lemma TiesStoodSo<T(!new)>(s: seq<T>, r: seq<T>, le: (T, T) -> bool, i: nat, j: nat)
    requires TotalPreorder(le) && Reordered(s, r, le)
    requires i < j < |r| && le(r[i], r[j]) && le(r[j], r[i])
    ensures Precedes(s, r[i], r[j])
  {
    var x := r[j];
    assert le(x, x);
    TiesKeepTheirOrder(r, x, le, i, j);
    assert Ties(r, x, le) == Ties(s, x, le);
    var k, l :| 0 <= k < l < |Ties(r, x, le)| && Ties(r, x, le)[k] == r[i] && Ties(r, x, le)[l] == r[j];
    TiesComeFrom(s, x, le, k, l);
  }
}
