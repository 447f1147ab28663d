/** Telling a state from the events that led to it. */
module History {
  // An event, and the state it met.
  datatype Moment<S, E> = Moment(state: S, event: E)

  ghost function Moments<S, E>(events: seq<E>, states: seq<S>): (moments: seq<Moment<S, E>>)
    requires |states| == |events| + 1
    ensures |moments| == |events| && forall k :: 0 <= k < |events| ==> moments[k] == Moment(states[k], events[k])
  {
    seq(|events|, k requires 0 <= k < |events| => Moment(states[k], events[k]))
  }

  // Some step before k began it, and none since has ended it.
  ghost predicate Since<T(!new)>(steps: seq<T>, k: nat, begins: T -> bool, ends: T -> bool)
    requires k <= |steps|
  {
    exists j :: 0 <= j < k && begins(steps[j]) && forall m :: j < m < k ==> !ends(steps[m])
  }

  lemma {:induction false} SinceNext<T(!new)>(steps: seq<T>, k: nat, begins: T -> bool, ends: T -> bool)
    requires k < |steps|
    ensures Since(steps, k + 1, begins, ends) <==> begins(steps[k]) || (Since(steps, k, begins, ends) && !ends(steps[k]))
  {
    if Since(steps, k, begins, ends) && !ends(steps[k]) {
      var j :| 0 <= j < k && begins(steps[j]) && forall m :: j < m < k ==> !ends(steps[m]);
      assert forall m :: j < m < k + 1 ==> !ends(steps[m]);
    }
    if Since(steps, k + 1, begins, ends) {
      var j :| 0 <= j < k + 1 && begins(steps[j]) && forall m :: j < m < k + 1 ==> !ends(steps[m]);
      assert j < k ==> !ends(steps[k]);
    }
  }
}
