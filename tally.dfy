/**
 The summary of a reconcile plan: how many actions of each kind it holds.
 */
module Tally {
  import opened Types

  /** The number of actions of the given kind. */
  function Count(actions: seq<ReconcileAction>, kind: Action): (n: nat)
    ensures n <= |actions|
    ensures n == 0 <==> forall i :: 0 <= i < |actions| ==> actions[i].action != kind
  {
    if actions == [] then 0
    else Count(actions[..|actions| - 1], kind) + (if actions[|actions| - 1].action == kind then 1 else 0)
  }

  /** Every action has exactly one kind, so the three counts add up to the
      length of the plan. */
  lemma {:induction false} CountsSum(actions: seq<ReconcileAction>)
    ensures Count(actions, Create) + Count(actions, Update) + Count(actions, Delete) == |actions|
  {
    if actions != [] {
      CountsSum(actions[..|actions| - 1]);
    }
  }

  /** Tallies the actions by kind. A kind with no action gets no entry, as in
      the source, where the map only gains a key when an action of that kind
      is counted. */
  method Summary(actions: ReconcileActions) returns (summary: map<Action, nat>)
    ensures forall k :: k in summary <==> Count(actions.actions, k) > 0
    ensures forall k :: k in summary ==> summary[k] == Count(actions.actions, k)
  {
    summary := map[];
    for i := 0 to |actions.actions|
      invariant forall k :: k in summary <==> Count(actions.actions[..i], k) > 0
      invariant forall k :: k in summary ==> summary[k] == Count(actions.actions[..i], k)
    {
      assert actions.actions[..i + 1][..i] == actions.actions[..i];
      var action := actions.actions[i].action;
      summary := summary[action := (if action in summary then summary[action] else 0) + 1];
    }
    assert actions.actions[..|actions.actions|] == actions.actions;
  }
}
