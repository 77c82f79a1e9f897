/** A flag that one kind of event sets and another kind clears, seen over a whole run. */
module Latch {

  /** Set at step i and cleared at none of the steps between i and n. */
  ghost predicate SetAt(n: nat, sets: nat -> bool, clears: nat -> bool, i: nat) {
    i < n && sets(i) && forall j: nat :: i < j < n ==> !clears(j)
  }

  /** If every step leaves the flag up exactly when it sets it, or finds it up and does not
      clear it, then the flag is up exactly when it was set once and never cleared since. */
  lemma {:induction false} UpIffSet(n: nat, up: nat -> bool, sets: nat -> bool, clears: nat -> bool)
    requires !up(0)
    requires forall i: nat {:trigger sets(i)} :: i < n ==> (up(i + 1) <==> sets(i) || (up(i) && !clears(i)))
    ensures up(n) <==> exists i: nat :: SetAt(n, sets, clears, i)
  {
    if n > 0 {
      UpIffSet(n - 1, up, sets, clears);
      assert up(n) <==> sets(n - 1) || (up(n - 1) && !clears(n - 1)) by {
        assert up((n - 1) + 1) == up(n);
      }
      if sets(n - 1) {
        assert SetAt(n, sets, clears, n - 1);
      } else if up(n) {
        var i: nat :| SetAt(n - 1, sets, clears, i);
        assert SetAt(n, sets, clears, i);
      } else if exists i: nat :: SetAt(n, sets, clears, i) {
        var i: nat :| SetAt(n, sets, clears, i);
        assert SetAt(n - 1, sets, clears, i);
      }
    }
  }
}
