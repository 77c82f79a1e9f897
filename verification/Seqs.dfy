/** Two facts about lists: what a filtering map keeps, and that distinctness is a matter of counts. */
module Seqs {

  function FilterMap<T, U>(keep: T -> bool, make: T -> U, xs: seq<T>): seq<U> {
    if xs == [] then []
    else
      var last := |xs| - 1;
      FilterMap(keep, make, xs[..last]) + if keep(xs[last]) then [make(xs[last])] else []
  }

  lemma FilterMapNext<T, U>(keep: T -> bool, make: T -> U, xs: seq<T>, k: nat)
    requires k < |xs|
    ensures FilterMap(keep, make, xs[..k + 1]) ==
            FilterMap(keep, make, xs[..k]) + if keep(xs[k]) then [make(xs[k])] else []
  {
    assert xs[..k + 1][..k] == xs[..k];
  }

  ghost predicate Made<T(!new), U>(keep: T -> bool, make: T -> U, xs: seq<T>, u: U) {
    exists k :: 0 <= k < |xs| && keep(xs[k]) && make(xs[k]) == u
  }

  lemma {:induction false} FilterMapMeans<T(!new), U>(keep: T -> bool, make: T -> U, xs: seq<T>)
    ensures forall u :: u in FilterMap(keep, make, xs) <==> Made(keep, make, xs, u)
  {
    if xs != [] {
      var last := |xs| - 1;
      FilterMapMeans(keep, make, xs[..last]);
      forall u ensures Made(keep, make, xs, u) <==>
          Made(keep, make, xs[..last], u) || (keep(xs[last]) && make(xs[last]) == u) {
        if Made(keep, make, xs[..last], u) {
          var k :| 0 <= k < last && keep(xs[..last][k]) && make(xs[..last][k]) == u;
          assert keep(xs[k]) && make(xs[k]) == u;
        }
        if k :| 0 <= k < last && keep(xs[k]) && make(xs[k]) == u {
          assert xs[..last][k] == xs[k];
        }
      }
    }
  }

  ghost predicate Distinct<T, K>(key: T -> K, xs: seq<T>) {
    forall i, j :: 0 <= i < j < |xs| ==> key(xs[i]) != key(xs[j])
  }

  /** Distinct keys stay distinct through a filtering map that determines them. */
  lemma {:induction false} FilterMapDistinct<T(!new), U(!new), K>(
    keep: T -> bool, make: T -> U, key: T -> K, key': U -> K, xs: seq<T>)
    requires Distinct(key, xs) && forall x :: keep(x) ==> key'(make(x)) == key(x)
    ensures Distinct(key', FilterMap(keep, make, xs))
  {
    if xs != [] {
      var last := |xs| - 1;
      var front := FilterMap(keep, make, xs[..last]);
      FilterMapDistinct(keep, make, key, key', xs[..last]);
      FilterMapMeans(keep, make, xs[..last]);
      if keep(xs[last]) {
        forall i | 0 <= i < |front| ensures key'(front[i]) != key'(make(xs[last])) {
          assert front[i] in front;
          var k :| 0 <= k < last && keep(xs[..last][k]) && make(xs[..last][k]) == front[i];
          assert key(xs[k]) != key(xs[last]);
        }
      }
    }
  }

  lemma {:induction false} DistinctIsOnce<T>(s: seq<T>)
    ensures (forall i, j :: 0 <= i < j < |s| ==> s[i] != s[j]) <==> forall x :: multiset(s)[x] <= 1
  {
    if s != [] {
      var front, last := s[..|s| - 1], s[|s| - 1];
      DistinctIsOnce(front);
      assert s == front + [last];
      assert multiset(front)[last] > 0 <==> last in front;
      assert forall x :: multiset(s)[x] == multiset(front)[x] + if x == last then 1 else 0;
      if last in front {
        var i :| 0 <= i < |front| && front[i] == last;
        assert s[i] == s[|s| - 1];
        assert multiset(s)[last] > 1;
      } else {
        assert (forall i, j :: 0 <= i < j < |s| ==> s[i] != s[j]) <==>
               (forall i, j :: 0 <= i < j < |front| ==> front[i] != front[j]);
      }
    }
  }

  /** Rearranging a list with distinct keys keeps them distinct. */
  lemma RearrangedDistinct<T, K>(key: T -> K, s: seq<T>, t: seq<T>)
    requires multiset(s) == multiset(t) && Distinct(key, s)
    ensures Distinct(key, t)
  {
    assert forall i, j :: 0 <= i < j < |s| ==> key(s[i]) != key(s[j]) && s[i] != s[j];
    DistinctIsOnce(s);
    DistinctIsOnce(t);
    forall i, j | 0 <= i < j < |t| ensures key(t[i]) != key(t[j]) {
      assert t[i] in multiset(s) && t[j] in multiset(s);
      var p :| 0 <= p < |s| && s[p] == t[i];
      var q :| 0 <= q < |s| && s[q] == t[j];
      assert p != q;
    }
  }
}
