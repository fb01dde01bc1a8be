/** Weak fairness brings every goal nearer that some thread can always work on. */
module Progressing {

  /** From moment i on: until the goal is reached, the helper can move, a move of it brings the goal nearer, and nothing else
      takes the goal further away or changes the helper without bringing it nearer. */
  ghost predicate Drives<T(!new)>(goal: nat -> bool, distance: nat -> nat, helper: nat -> T, able: (nat, T) -> bool, moves: (nat, T) -> bool, i: nat) {
    forall k: nat {:trigger DrivesAt(goal, distance, helper, able, moves, k)} ::
      i <= k && !goal(k) ==> DrivesAt(goal, distance, helper, able, moves, k)
  }

  ghost predicate DrivesAt<T(!new)>(goal: nat -> bool, distance: nat -> nat, helper: nat -> T, able: (nat, T) -> bool, moves: (nat, T) -> bool, k: nat) {
    && able(k, helper(k))
    && (goal(k + 1) || distance(k + 1) < distance(k)
        || (distance(k + 1) == distance(k) && helper(k + 1) == helper(k) && !moves(k, helper(k))))
  }

  /** A thread that can move from some moment on moves at some later moment. */
  ghost predicate Fair<T(!new)>(able: (nat, T) -> bool, moves: (nat, T) -> bool, t: T) {
    forall i: nat :: AbleFrom(able, t, i) ==> MovesFrom(moves, t, i)
  }

  ghost predicate AbleFrom<T(!new)>(able: (nat, T) -> bool, t: T, i: nat) { forall k: nat :: i <= k ==> able(k, t) }

  ghost predicate MovesFrom<T(!new)>(moves: (nat, T) -> bool, t: T, i: nat) { exists k: nat :: i <= k && moves(k, t) }

  /** From moment i on nothing is reached or gained. */
  ghost predicate Stuck(goal: nat -> bool, distance: nat -> nat, i: nat) {
    forall m: nat {:trigger goal(m)} {:trigger distance(m)} :: i <= m ==> !goal(m) && distance(m) >= distance(i)
  }

  /** While nothing is gained the helper stays the same, can move, and does not. */
  lemma {:induction false} HelperStays<T(!new)>(goal: nat -> bool, distance: nat -> nat, helper: nat -> T, able: (nat, T) -> bool,
                                                moves: (nat, T) -> bool, i: nat, k: nat)
    requires Drives(goal, distance, helper, able, moves, i) && i <= k && Stuck(goal, distance, i)
    ensures helper(k) == helper(i) && distance(k) == distance(i) && able(k, helper(i)) && !moves(k, helper(i))
  {
    assert DrivesAt(goal, distance, helper, able, moves, k);
    if i < k {
      HelperStays(goal, distance, helper, able, moves, i, k - 1);
      assert DrivesAt(goal, distance, helper, able, moves, k - 1);
    }
  }

  lemma StuckHelper<T(!new)>(goal: nat -> bool, distance: nat -> nat, helper: nat -> T, able: (nat, T) -> bool, moves: (nat, T) -> bool, i: nat)
    requires Drives(goal, distance, helper, able, moves, i) && Stuck(goal, distance, i)
    ensures AbleFrom(able, helper(i), i) && !MovesFrom(moves, helper(i), i)
  {
    forall k: nat | i <= k ensures able(k, helper(i)) && !moves(k, helper(i)) {
      HelperStays(goal, distance, helper, able, moves, i, k);
    }
  }

  lemma NeverStuck<T(!new)>(goal: nat -> bool, distance: nat -> nat, helper: nat -> T, able: (nat, T) -> bool, moves: (nat, T) -> bool, i: nat)
    requires Drives(goal, distance, helper, able, moves, i) && Fair(able, moves, helper(i))
    ensures !Stuck(goal, distance, i)
  {
    if Stuck(goal, distance, i) {
      StuckHelper(goal, distance, helper, able, moves, i);
    }
  }

  lemma {:induction false} GoalIsReached<T(!new)>(goal: nat -> bool, distance: nat -> nat, helper: nat -> T, able: (nat, T) -> bool,
                                                  moves: (nat, T) -> bool, i: nat) returns (j: nat)
    requires Drives(goal, distance, helper, able, moves, i)
    requires forall k: nat {:trigger helper(k)} :: i <= k && !goal(k) ==> Fair(able, moves, helper(k))
    ensures i <= j && goal(j)
    decreases distance(i)
  {
    if goal(i) {
      j := i;
    } else {
      assert Fair(able, moves, helper(i));
      NeverStuck(goal, distance, helper, able, moves, i);
      var k: nat :| i <= k && (goal(k) || distance(k) < distance(i));
      if goal(k) {
        j := k;
      } else {
        j := GoalIsReached(goal, distance, helper, able, moves, k);
      }
    }
  }
}
