/**
 What happens once a plan is carried out. The reconciler itself never calls
 the API; here the API's effect on the current alerts, keyed by name, is the
 obvious one: a create stores a new result with the action's identifier and
 body, an update replaces the embedded alert and keeps the identifier, a delete
 removes the entry. Carrying out an indexed-path plan, or a fast-path plan
 whose desired names are distinct, brings the current alerts in sync with the
 desired ones, so reconciling again yields no action. A report listing one
 name twice, and a fast path over a repeated desired name, fall outside this.
 */
module Convergence {
  import opened Types
  import opened Reconciler
  import opened Indexer
  import opened PlanProperties
  import opened Scenarios

  /** The effect of one action on the current alerts; `stamp` is the time the
      API records for a create or an update. */
  function Step(a: ReconcileAction, current: map<string, ApiResult>, stamp: Timestamp): (after: map<string, ApiResult>)
  {
    var n := NameOf(a);
    match a.action
    case Create => current[n := ApiResult(stamp, a.alertId, stamp, a.body)]
    case Update =>
      if n in current then current[n := current[n].(updated := stamp, alert := a.body)]
      else current[n := ApiResult(stamp, a.alertId, stamp, a.body)]
    case Delete => current - {n}
  }

  /** The actions carried out in order. */
  function Apply(actions: seq<ReconcileAction>, current: map<string, ApiResult>, stamp: Timestamp): (after: map<string, ApiResult>)
  {
    if actions == [] then current
    else Apply(actions[1..], Step(actions[0], current, stamp), stamp)
  }

  /** A name no action is about keeps its entry, or its absence. */
  lemma {:induction false} ApplyElsewhere(actions: seq<ReconcileAction>, current: map<string, ApiResult>, stamp: Timestamp, k: string)
    requires k !in ActionNames(actions)
    ensures k in Apply(actions, current, stamp) <==> k in current
    ensures k in current ==> Apply(actions, current, stamp)[k] == current[k]
  {
    if actions != [] {
      assert NameOf(actions[0]) != k;
      assert k !in ActionNames(actions[1..]) by {
        forall i | 0 <= i < |actions[1..]|
          ensures NameOf(actions[1..][i]) != k
        {
          assert actions[1..][i] == actions[i + 1];
        }
      }
      ApplyElsewhere(actions[1..], Step(actions[0], current, stamp), stamp, k);
    }
  }

  /** With unique names, the name of action i ends up as that action left it:
      removed after a delete, holding the action's body otherwise. */
  lemma {:induction false} ApplyAt(actions: seq<ReconcileAction>, current: map<string, ApiResult>, stamp: Timestamp, i: nat)
    requires NamesUnique(actions) && i < |actions|
    ensures actions[i].action == Delete ==> NameOf(actions[i]) !in Apply(actions, current, stamp)
    ensures actions[i].action != Delete ==>
      NameOf(actions[i]) in Apply(actions, current, stamp) &&
      Apply(actions, current, stamp)[NameOf(actions[i])].alert == actions[i].body
  {
    var rest := actions[1..];
    var next := Step(actions[0], current, stamp);
    if i == 0 {
      assert NameOf(actions[0]) !in ActionNames(rest) by {
        forall j | 0 <= j < |rest|
          ensures NameOf(rest[j]) != NameOf(actions[0])
        {
          assert rest[j] == actions[j + 1];
        }
      }
      ApplyElsewhere(rest, next, stamp, NameOf(actions[0]));
    } else {
      assert NamesUnique(rest) by {
        forall j, l | 0 <= j < l < |rest|
          ensures NameOf(rest[j]) != NameOf(rest[l])
        {
          assert rest[j] == actions[j + 1] && rest[l] == actions[l + 1];
        }
      }
      assert rest[i - 1] == actions[i];
      ApplyAt(rest, next, stamp, i - 1);
    }
  }

  /** Carrying out a plan brings the current alerts in sync with the desired
      ones: the same names, each holding its desired alert. */
  lemma PlanConverges(actions: seq<ReconcileAction>, desired: map<string, Alert>, current: map<string, ApiResult>, stamp: Timestamp)
    requires IsPlan(actions, desired, current)
    ensures InSync(desired, Apply(actions, current, stamp))
  {
    var after := Apply(actions, current, stamp);
    forall k | k in desired || k in current
      ensures k in after <==> k in desired
      ensures k in desired ==> after[k].alert == desired[k]
    {
      if k in ActionNames(actions) {
        var i :| 0 <= i < |actions| && NameOf(actions[i]) == k;
        assert Justified(actions[i], desired, current);
        ApplyAt(actions, current, stamp, i);
      } else {
        assert k !in PendingNames(desired, current);
        ApplyElsewhere(actions, current, stamp, k);
      }
    }
    forall k | k in after
      ensures k in desired || k in current
    {
      if k !in current {
        if k !in ActionNames(actions) {
          ApplyElsewhere(actions, current, stamp, k);
        } else {
          assert k in PendingNames(desired, current);
        }
      }
    }
  }

  /** Idempotence: reconciling the same desired alerts against what a plan left
      behind yields an empty plan. */
  lemma ReconcileIsIdempotent(actions: seq<ReconcileAction>, again: seq<ReconcileAction>, desired: map<string, Alert>,
                              current: map<string, ApiResult>, stamp: Timestamp)
    requires IsPlan(actions, desired, current)
    requires IsPlan(again, desired, Apply(actions, current, stamp))
    ensures again == []
  {
    PlanConverges(actions, desired, current, stamp);
    PlanEmptyIffInSync(again, desired, Apply(actions, current, stamp));
  }

  /** Convergence needs a report that lists each name once. With nothing
      desired and a report listing one name twice, the index keeps the later
      entry, so the plan deletes only that one; the API then still reports the
      earlier entry, and the next plan deletes it. */
  lemma DuplicateReportNeedsTwoRuns(first: seq<ReconcileAction>, second: seq<ReconcileAction>, r1: ApiResult, r2: ApiResult)
    requires r1.alert.alertName == r2.alert.alertName
    requires IsPlan(first, IndexBy([], ConfigName), IndexBy([r1, r2], ResultName))
    requires IsPlan(second, IndexBy([], ConfigName), IndexBy([r1], ResultName))
    ensures first == [ReconcileAction(r2.id, Delete, r2.alert)]
    ensures second == [ReconcileAction(r1.id, Delete, r1.alert)]
  {
    assert [r1][..0] == [] && [r2][..0] == [] && [r1, r2][..1] == [r1];
    assert IndexBy([r1, r2], ResultName) == IndexBy([r2], ResultName);
    UndesiredAlertIsDeleted(first, r2);
    UndesiredAlertIsDeleted(second, r1);
  }

  /** On an empty current state with distinct desired names, the fast path's
      output is a plan in the indexed path's sense. */
  lemma FastPlanIsPlan(fast: seq<ReconcileAction>, alerts: seq<Alert>)
    requires IsFastPlan(fast, alerts) && DistinctNames(alerts, ConfigName)
    ensures IsPlan(fast, IndexBy(alerts, ConfigName), map[])
  {
    var desired := IndexBy(alerts, ConfigName);
    IndexByKeys(alerts, ConfigName);
    AllMissing(desired);
    forall i | 0 <= i < |fast|
      ensures Justified(fast[i], desired, map[])
    {
      DistinctEntry(alerts, ConfigName, i);
    }
    forall i, j | 0 <= i < j < |fast|
      ensures NameOf(fast[i]) != NameOf(fast[j])
    {
      assert ConfigName(alerts[i]) != ConfigName(alerts[j]);
    }
    forall k | k in NamesOf(alerts, ConfigName)
      ensures k in ActionNames(fast)
    {
      var i :| 0 <= i < |alerts| && ConfigName(alerts[i]) == k;
      assert NameOf(fast[i]) == k;
    }
  }

  /** Carrying out the fast path's plan for distinct desired names against an
      empty current state brings it in sync with the desired alerts. */
  lemma FastPlanConverges(fast: seq<ReconcileAction>, alerts: seq<Alert>, stamp: Timestamp)
    requires IsFastPlan(fast, alerts) && DistinctNames(alerts, ConfigName)
    ensures InSync(IndexBy(alerts, ConfigName), Apply(fast, map[], stamp))
  {
    FastPlanIsPlan(fast, alerts);
    PlanConverges(fast, IndexBy(alerts, ConfigName), map[], stamp);
  }

  /** After the initial provisioning run, reconciling the same distinct desired
      alerts again yields an empty plan. */
  lemma FastPlanIsIdempotent(fast: seq<ReconcileAction>, again: seq<ReconcileAction>, alerts: seq<Alert>, stamp: Timestamp)
    requires IsFastPlan(fast, alerts) && DistinctNames(alerts, ConfigName)
    requires IsPlan(again, IndexBy(alerts, ConfigName), Apply(fast, map[], stamp))
    ensures again == []
  {
    FastPlanIsPlan(fast, alerts);
    ReconcileIsIdempotent(fast, again, IndexBy(alerts, ConfigName), map[], stamp);
  }
}
