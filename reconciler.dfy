/**
 The reconciliation engine: from the desired alert definitions and the alerts
 the API reports, compute the create, update and delete actions that turn the
 current set into the desired one.

 Go leaves the iteration order of a map unspecified. Each pass below walks the
 keys of a map by picking any key not yet visited, so the proofs hold for every
 order, and what the passes promise about their output is stated per position
 together with a ghost list `keys` naming the map key each action came from.
 */
module Reconciler {
  import opened Types
  import opened RandomIds
  import opened Indexer

  /** Builds one action from its three parts, copied as they are. */
  function CreateReconcileAction(alertId: string, action: Action, body: Alert): (r: ReconcileAction)
    ensures r.alertId == alertId && r.action == action && r.body == body
  {
    ReconcileAction(alertId, action, body)
  }

  // ---------------------------------------------------------------------------
  // Classification of a name against the two indexes

  /** Desired, but not present. */
  predicate IsMissing(k: string, desired: map<string, Alert>, current: map<string, ApiResult>)
  {
    k in desired && k !in current
  }

  /** Present on both sides, with an embedded alert that differs from the desired one. */
  predicate IsChanged(k: string, desired: map<string, Alert>, current: map<string, ApiResult>)
  {
    k in desired && k in current && current[k].alert != desired[k]
  }

  /** Present, but no longer desired. */
  predicate IsRemoved(k: string, desired: map<string, Alert>, current: map<string, ApiResult>)
  {
    k !in desired && k in current
  }

  function MissingNames(desired: map<string, Alert>, current: map<string, ApiResult>): (names: set<string>)
  {
    desired.Keys - current.Keys
  }

  function ChangedNames(desired: map<string, Alert>, current: map<string, ApiResult>): (names: set<string>)
  {
    set k | k in desired.Keys && k in current.Keys && current[k].alert != desired[k]
  }

  function RemovedNames(desired: map<string, Alert>, current: map<string, ApiResult>): (names: set<string>)
  {
    current.Keys - desired.Keys
  }

  /** The names that need an action: every name on either side except those
      present on both sides with equal content. */
  function PendingNames(desired: map<string, Alert>, current: map<string, ApiResult>): (names: set<string>)
  {
    MissingNames(desired, current) + ChangedNames(desired, current) + RemovedNames(desired, current)
  }

  // `Distinct` and `Elements` are `DistinctNames` and `NamesOf` of the
  // indexer with the identity as the name. They are kept first-order here so
  // that the passes' loop invariants, which quantify over them, do not go
  // through applications of a function-valued parameter.

  /** No name occurs twice in the list. */
  predicate Distinct(keys: seq<string>)
  {
    forall i, j :: 0 <= i < j < |keys| ==> keys[i] != keys[j]
  }

  /** The names occurring in the list. */
  function Elements(keys: seq<string>): (elements: set<string>)
  {
    set i | 0 <= i < |keys| :: keys[i]
  }

  /** Appending a name adds it to the elements, and keeps the list distinct
      when the name is new. */
  lemma ElementsSnoc(keys: seq<string>, k: string)
    ensures Elements(keys + [k]) == Elements(keys) + {k}
    ensures Distinct(keys) && k !in Elements(keys) ==> Distinct(keys + [k])
  {
    var ks := keys + [k];
    assert ks[|keys|] == k;
    forall x | x in Elements(keys)
      ensures x in Elements(ks)
    {
      var i :| 0 <= i < |keys| && keys[i] == x;
      assert ks[i] == x;
    }
    if Distinct(keys) && k !in Elements(keys) {
      forall i, j | 0 <= i < j < |ks|
        ensures ks[i] != ks[j]
      {
        assert ks[i] == keys[i];
        if j < |keys| {
          assert ks[j] == keys[j];
        } else {
          assert keys[i] in Elements(keys);
        }
      }
    }
  }

  // ---------------------------------------------------------------------------
  // What a reconcile plan is

  /** The name an action is about: the name of its body. */
  function NameOf(a: ReconcileAction): (name: string)
  {
    a.body.alertName
  }

  function ActionNames(actions: seq<ReconcileAction>): (names: set<string>)
  {
    set i | 0 <= i < |actions| :: NameOf(actions[i])
  }

  /** Position of each kind in the plan: creates, then updates, then deletes. */
  function Rank(a: Action): (rank: nat)
  {
    match a
    case Create => 0
    case Update => 1
    case Delete => 2
  }

  /** Every create precedes every update, which precedes every delete. */
  ghost predicate Grouped(actions: seq<ReconcileAction>)
  {
    forall i, j :: 0 <= i < j < |actions| ==> Rank(actions[i].action) <= Rank(actions[j].action)
  }

  /** No alert name occurs in more than one action. */
  ghost predicate NamesUnique(actions: seq<ReconcileAction>)
  {
    forall i, j :: 0 <= i < j < |actions| ==> NameOf(actions[i]) != NameOf(actions[j])
  }

  /** The action is the one the classification of its name calls for: a create
      carries the desired body; an update carries the current identifier and
      the desired body; a delete carries the current identifier and the current
      body. */
  ghost predicate Justified(a: ReconcileAction, desired: map<string, Alert>, current: map<string, ApiResult>)
  {
    var n := NameOf(a);
    match a.action
    case Create => IsMissing(n, desired, current) && a.body == desired[n]
    case Update => IsChanged(n, desired, current) && a.alertId == current[n].id && a.body == desired[n]
    case Delete => IsRemoved(n, desired, current) && a.alertId == current[n].id && a.body == current[n].alert
  }

  /** A correct plan for the two indexes: grouped by kind, one action per name,
      each action the one its name's classification calls for, and an action
      for every name that needs one. */
  ghost predicate IsPlan(actions: seq<ReconcileAction>, desired: map<string, Alert>, current: map<string, ApiResult>)
  {
    && Grouped(actions)
    && NamesUnique(actions)
    && (forall i :: 0 <= i < |actions| ==> Justified(actions[i], desired, current))
    && ActionNames(actions) == PendingNames(desired, current)
  }

  /** The fast path's plan: one create per desired alert, in the list's order. */
  ghost predicate IsFastPlan(actions: seq<ReconcileAction>, alerts: seq<Alert>)
  {
    && |actions| == |alerts|
    && forall i :: 0 <= i < |actions| ==> actions[i].action == Create && actions[i].body == alerts[i]
  }

  // ---------------------------------------------------------------------------
  // The three classification passes

  /** The update the reconciler emits for a changed name: the current
      identifier with the desired content. */
  predicate IsUpdateFor(a: ReconcileAction, k: string, desired: map<string, Alert>, current: map<string, ApiResult>)
  {
    IsChanged(k, desired, current) && a == ReconcileAction(current[k].id, Update, desired[k])
  }

  /** The delete the reconciler emits for a removed name: the current
      identifier with the current content. */
  predicate IsDeleteFor(a: ReconcileAction, k: string, desired: map<string, Alert>, current: map<string, ApiResult>)
  {
    IsRemoved(k, desired, current) && a == ReconcileAction(current[k].id, Delete, current[k].alert)
  }

  /** The action is the update of some changed name. */
  ghost predicate UpdatesChangedName(a: ReconcileAction, desired: map<string, Alert>, current: map<string, ApiResult>)
  {
    exists k :: IsUpdateFor(a, k, desired, current)
  }

  /** The action is the delete of some removed name. */
  ghost predicate DeletesRemovedName(a: ReconcileAction, desired: map<string, Alert>, current: map<string, ApiResult>)
  {
    exists k :: IsDeleteFor(a, k, desired, current)
  }

  /** A create action, with a freshly generated identifier, for every desired
      name that is not present. */
  method CreateActionsForMissingAlerts(desired: map<string, Alert>, current: map<string, ApiResult>, rng: Rng)
    returns (actions: seq<ReconcileAction>, ghost keys: seq<string>)
    modifies rng
    ensures |keys| == |actions| && Distinct(keys)
    ensures Elements(keys) == MissingNames(desired, current)
    ensures forall i :: 0 <= i < |actions| ==>
      IsMissing(keys[i], desired, current) &&
      actions[i].action == Create && actions[i].body == desired[keys[i]] &&
      IsNthId(actions[i].alertId, rng.stream, old(rng.drawn), i)
    ensures rng.drawn == old(rng.drawn) + IDLENGTH * |actions|
  {
    actions, keys := [], [];
    var remaining := desired.Keys;
    while remaining != {}
      invariant remaining <= desired.Keys
      invariant |keys| == |actions| && Distinct(keys)
      invariant Elements(keys) == MissingNames(desired, current) - remaining
      invariant forall i :: 0 <= i < |actions| ==>
        IsMissing(keys[i], desired, current) &&
        actions[i].action == Create && actions[i].body == desired[keys[i]] &&
        IsNthId(actions[i].alertId, rng.stream, old(rng.drawn), i)
      invariant rng.drawn == old(rng.drawn) + IDLENGTH * |actions|
      decreases remaining
    {
      var alertName :| alertName in remaining;
      remaining := remaining - {alertName};
      if alertName !in current {
        ElementsSnoc(keys, alertName);
        var alertId := RandId(rng, IDLENGTH);
        actions := actions + [CreateReconcileAction(alertId, Create, desired[alertName])];
        keys := keys + [alertName];
      }
    }
  }

  /** An update action for every name present on both sides whose current
      embedded alert differs from the desired one. */
  method CreateActionsForUpdatedAlerts(desired: map<string, Alert>, current: map<string, ApiResult>)
    returns (actions: seq<ReconcileAction>, ghost keys: seq<string>)
    ensures |keys| == |actions| && Distinct(keys)
    ensures Elements(keys) == ChangedNames(desired, current)
    ensures forall i :: 0 <= i < |actions| ==>
      IsChanged(keys[i], desired, current) &&
      actions[i] == ReconcileAction(current[keys[i]].id, Update, desired[keys[i]])
    ensures forall i :: 0 <= i < |actions| ==> UpdatesChangedName(actions[i], desired, current)
    ensures forall k :: IsChanged(k, desired, current) ==>
      exists i :: 0 <= i < |actions| && IsUpdateFor(actions[i], k, desired, current)
  {
    actions, keys := [], [];
    var remaining := desired.Keys;
    while remaining != {}
      invariant remaining <= desired.Keys
      invariant |keys| == |actions| && Distinct(keys)
      invariant Elements(keys) == ChangedNames(desired, current) - remaining
      invariant forall i :: 0 <= i < |actions| ==>
        IsChanged(keys[i], desired, current) &&
        actions[i] == ReconcileAction(current[keys[i]].id, Update, desired[keys[i]])
      decreases remaining
    {
      var alertName :| alertName in remaining;
      remaining := remaining - {alertName};
      if alertName in current {
        var currentAlert := current[alertName];
        if currentAlert.alert != desired[alertName] {
          ElementsSnoc(keys, alertName);
          actions := actions + [CreateReconcileAction(currentAlert.id, Update, desired[alertName])];
          keys := keys + [alertName];
        }
      }
    }
    forall i | 0 <= i < |actions|
      ensures UpdatesChangedName(actions[i], desired, current)
    {
      assert IsUpdateFor(actions[i], keys[i], desired, current);
    }
    forall k | IsChanged(k, desired, current)
      ensures exists i :: 0 <= i < |actions| && IsUpdateFor(actions[i], k, desired, current)
    {
      assert k in Elements(keys);
    }
  }

  /** A delete action for every current name that is no longer desired. */
  method CreateActionsForDeletedAlerts(desired: map<string, Alert>, current: map<string, ApiResult>)
    returns (actions: seq<ReconcileAction>, ghost keys: seq<string>)
    ensures |keys| == |actions| && Distinct(keys)
    ensures Elements(keys) == RemovedNames(desired, current)
    ensures forall i :: 0 <= i < |actions| ==>
      IsRemoved(keys[i], desired, current) &&
      actions[i] == ReconcileAction(current[keys[i]].id, Delete, current[keys[i]].alert)
    ensures forall i :: 0 <= i < |actions| ==> DeletesRemovedName(actions[i], desired, current)
    ensures forall k :: IsRemoved(k, desired, current) ==>
      exists i :: 0 <= i < |actions| && IsDeleteFor(actions[i], k, desired, current)
  {
    actions, keys := [], [];
    var remaining := current.Keys;
    while remaining != {}
      invariant remaining <= current.Keys
      invariant |keys| == |actions| && Distinct(keys)
      invariant Elements(keys) == RemovedNames(desired, current) - remaining
      invariant forall i :: 0 <= i < |actions| ==>
        IsRemoved(keys[i], desired, current) &&
        actions[i] == ReconcileAction(current[keys[i]].id, Delete, current[keys[i]].alert)
      decreases remaining
    {
      var alertName :| alertName in remaining;
      remaining := remaining - {alertName};
      if alertName !in desired {
        var currentAlert := current[alertName];
        ElementsSnoc(keys, alertName);
        actions := actions + [CreateReconcileAction(currentAlert.id, Delete, currentAlert.alert)];
        keys := keys + [alertName];
      }
    }
    forall i | 0 <= i < |actions|
      ensures DeletesRemovedName(actions[i], desired, current)
    {
      assert IsDeleteFor(actions[i], keys[i], desired, current);
    }
    forall k | IsRemoved(k, desired, current)
      ensures exists i :: 0 <= i < |actions| && IsDeleteFor(actions[i], k, desired, current)
    {
      assert k in Elements(keys);
    }
  }

  // ---------------------------------------------------------------------------
  // Reconcile

  /** The plan that turns the current alerts into the desired ones. With no
      current alerts, every desired alert is created, in the list's order;
      otherwise both lists are indexed by name and the three passes' outputs
      are concatenated: creates, then updates, then deletes. Either way the
      i-th action, when it is a create, carries the i-th generated identifier. */
  method Reconcile(desired: DesiredAlertsConfig, current: CurrentAlertsConfig, rng: Rng)
    returns (reconcileActions: ReconcileActions)
    modifies rng
    ensures |current.results| == 0 ==> IsFastPlan(reconcileActions.actions, desired.alerts)
    ensures |current.results| != 0 ==>
      IsPlan(reconcileActions.actions, IndexBy(desired.alerts, ConfigName), IndexBy(current.results, ResultName))
    ensures forall i :: 0 <= i < |reconcileActions.actions| && reconcileActions.actions[i].action == Create ==>
      IsNthId(reconcileActions.actions[i].alertId, rng.stream, old(rng.drawn), i)
    ensures |current.results| == 0 ==> rng.drawn == old(rng.drawn) + IDLENGTH * |desired.alerts|
    ensures |current.results| != 0 ==>
      rng.drawn == old(rng.drawn) + IDLENGTH * |MissingNames(IndexBy(desired.alerts, ConfigName), IndexBy(current.results, ResultName))|
  {
    reconcileActions := ReconcileActions([]);
    var desiredAlerts := desired.alerts;
    var currentAlerts := current.results;

    if |currentAlerts| == 0 {
      for i := 0 to |desiredAlerts|
        invariant |reconcileActions.actions| == i
        invariant forall j :: 0 <= j < i ==>
          reconcileActions.actions[j].action == Create && reconcileActions.actions[j].body == desiredAlerts[j] &&
          IsNthId(reconcileActions.actions[j].alertId, rng.stream, old(rng.drawn), j)
        invariant rng.drawn == old(rng.drawn) + IDLENGTH * i
      {
        var alertId := RandId(rng, IDLENGTH);
        assert IsNthId(alertId, rng.stream, old(rng.drawn), i);
        var action := CreateReconcileAction(alertId, Create, desiredAlerts[i]);
        reconcileActions := ReconcileActions(reconcileActions.actions + [action]);
      }
      return;
    }

    var desiredAlertsByName := ConfigByAlertName(desiredAlerts);
    var currentAlertsByName := ResultsByAlertName(currentAlerts);
    IndexByKeyed(desiredAlerts, ConfigName);
    IndexByKeyed(currentAlerts, ResultName);
    assert DesiredKeyed(desiredAlertsByName);
    assert CurrentKeyed(currentAlertsByName);

    var missingAlerts, missingKeys := CreateActionsForMissingAlerts(desiredAlertsByName, currentAlertsByName, rng);
    if |missingAlerts| > 0 {
      reconcileActions := ReconcileActions(reconcileActions.actions + missingAlerts);
    }
    assert reconcileActions.actions == missingAlerts;

    var changedAlerts, changedKeys := CreateActionsForUpdatedAlerts(desiredAlertsByName, currentAlertsByName);
    if |changedAlerts| > 0 {
      reconcileActions := ReconcileActions(reconcileActions.actions + changedAlerts);
    }
    assert reconcileActions.actions == missingAlerts + changedAlerts;

    var deletedAlerts, deletedKeys := CreateActionsForDeletedAlerts(desiredAlertsByName, currentAlertsByName);
    if |deletedAlerts| > 0 {
      reconcileActions := ReconcileActions(reconcileActions.actions + deletedAlerts);
    }

    assert reconcileActions.actions == missingAlerts + changedAlerts + deletedAlerts;
    CreatesComeFirst(missingAlerts, changedAlerts, deletedAlerts, rng.stream, old(rng.drawn));
    ConcatenationIsPlan(desiredAlertsByName, currentAlertsByName,
      missingAlerts, missingKeys, changedAlerts, changedKeys, deletedAlerts, deletedKeys);
    DistinctCount(missingKeys);
  }

  // ---------------------------------------------------------------------------
  // Why the concatenation is a plan

  /** A list without repetitions has as many elements as entries. */
  lemma {:induction false} DistinctCount(keys: seq<string>)
    requires Distinct(keys)
    ensures |Elements(keys)| == |keys|
  {
    if keys != [] {
      var init, last := keys[..|keys| - 1], keys[|keys| - 1];
      assert keys == init + [last];
      assert Distinct(init) by {
        forall i, j | 0 <= i < j < |init|
          ensures init[i] != init[j]
        {
          assert init[i] == keys[i] && init[j] == keys[j];
        }
      }
      assert last !in Elements(init) by {
        forall i | 0 <= i < |init|
          ensures init[i] != last
        {
          assert init[i] == keys[i];
        }
      }
      DistinctCount(init);
      ElementsSnoc(init, last);
    }
  }

  /** When only the first group holds creates, the i-th action of the
      concatenation, if it is a create, is the i-th action of the first group. */
  lemma CreatesComeFirst(missing: seq<ReconcileAction>, changed: seq<ReconcileAction>,
                         deleted: seq<ReconcileAction>, stream: nat -> nat, start: nat)
    requires forall i :: 0 <= i < |missing| ==> IsNthId(missing[i].alertId, stream, start, i)
    requires forall i :: 0 <= i < |changed| ==> changed[i].action == Update
    requires forall i :: 0 <= i < |deleted| ==> deleted[i].action == Delete
    ensures forall i :: 0 <= i < |missing + changed + deleted| && (missing + changed + deleted)[i].action == Create ==>
      IsNthId((missing + changed + deleted)[i].alertId, stream, start, i)
  {
    var all := missing + changed + deleted;
    forall i | 0 <= i < |all| && all[i].action == Create
      ensures IsNthId(all[i].alertId, stream, start, i)
    {
      assert i < |missing|;
      assert all[i] == missing[i];
    }
  }

  /** Every entry of the map is stored under its own name. */
  ghost predicate DesiredKeyed(desired: map<string, Alert>)
  {
    forall k :: k in desired ==> desired[k].alertName == k
  }

  ghost predicate CurrentKeyed(current: map<string, ApiResult>)
  {
    forall k :: k in current ==> current[k].alert.alertName == k
  }

  /** Two lists of distinct names with no name in common concatenate to a list
      of distinct names. */
  lemma DistinctConcat(a: seq<string>, b: seq<string>)
    requires Distinct(a) && Distinct(b) && Elements(a) !! Elements(b)
    ensures Distinct(a + b)
    ensures Elements(a + b) == Elements(a) + Elements(b)
  {
    var ab := a + b;
    forall i, j | 0 <= i < j < |ab|
      ensures ab[i] != ab[j]
    {
      if i < |a| && |a| <= j {
        assert ab[i] in Elements(a);
        assert ab[j] == b[j - |a|];
        assert ab[j] in Elements(b);
      } else if |a| <= i {
        assert ab[i] == b[i - |a|] && ab[j] == b[j - |a|];
      }
    }
    forall k | k in Elements(ab)
      ensures k in Elements(a) + Elements(b)
    {
      var i :| 0 <= i < |ab| && ab[i] == k;
      if |a| <= i {
        assert ab[i] == b[i - |a|];
      }
    }
    forall k | k in Elements(a) + Elements(b)
      ensures k in Elements(ab)
    {
      if k in Elements(a) {
        var i :| 0 <= i < |a| && a[i] == k;
        assert ab[i] == k;
      } else {
        var i :| 0 <= i < |b| && b[i] == k;
        assert ab[|a| + i] == k;
      }
    }
  }

  /** The actions are listed, position by position, with the map key each
      came from, and each is the action that key's classification calls for. */
  ghost predicate Aligned(actions: seq<ReconcileAction>, keys: seq<string>,
                          desired: map<string, Alert>, current: map<string, ApiResult>)
  {
    && |actions| == |keys|
    && forall i :: 0 <= i < |actions| ==> NameOf(actions[i]) == keys[i] && Justified(actions[i], desired, current)
  }

  lemma AlignedConcat(a: seq<ReconcileAction>, ka: seq<string>, b: seq<ReconcileAction>, kb: seq<string>,
                      desired: map<string, Alert>, current: map<string, ApiResult>)
    requires Aligned(a, ka, desired, current) && Aligned(b, kb, desired, current)
    ensures Aligned(a + b, ka + kb, desired, current)
  {
    var ab, kab := a + b, ka + kb;
    forall i | 0 <= i < |ab|
      ensures NameOf(ab[i]) == kab[i] && Justified(ab[i], desired, current)
    {
      if i >= |a| {
        assert ab[i] == b[i - |a|] && kab[i] == kb[i - |a|];
      }
    }
  }

  /** Concatenating two grouped lists, no action of the first ranking after
      any of the second, keeps them grouped. */
  lemma GroupedConcat(a: seq<ReconcileAction>, b: seq<ReconcileAction>)
    requires Grouped(a) && Grouped(b)
    requires forall i, j :: 0 <= i < |a| && 0 <= j < |b| ==> Rank(a[i].action) <= Rank(b[j].action)
    ensures Grouped(a + b)
  {
    var ab := a + b;
    forall i, j | 0 <= i < j < |ab|
      ensures Rank(ab[i].action) <= Rank(ab[j].action)
    {
      if j < |a| {
        assert ab[i] == a[i] && ab[j] == a[j];
      } else if i < |a| {
        assert ab[i] == a[i] && ab[j] == b[j - |a|];
      } else {
        assert ab[i] == b[i - |a|] && ab[j] == b[j - |a|];
      }
    }
  }

  /** The three passes' outputs, concatenated in the fixed order, form a plan
      for indexes that store every entry under its own name. */
  lemma ConcatenationIsPlan(desired: map<string, Alert>, current: map<string, ApiResult>,
                            missing: seq<ReconcileAction>, missingKeys: seq<string>,
                            changed: seq<ReconcileAction>, changedKeys: seq<string>,
                            deleted: seq<ReconcileAction>, deletedKeys: seq<string>)
    requires DesiredKeyed(desired) && CurrentKeyed(current)
    requires |missingKeys| == |missing| && Distinct(missingKeys)
    requires Elements(missingKeys) == MissingNames(desired, current)
    requires forall i :: 0 <= i < |missing| ==>
      IsMissing(missingKeys[i], desired, current) &&
      missing[i].action == Create && missing[i].body == desired[missingKeys[i]]
    requires |changedKeys| == |changed| && Distinct(changedKeys)
    requires Elements(changedKeys) == ChangedNames(desired, current)
    requires forall i :: 0 <= i < |changed| ==>
      IsChanged(changedKeys[i], desired, current) &&
      changed[i] == ReconcileAction(current[changedKeys[i]].id, Update, desired[changedKeys[i]])
    requires |deletedKeys| == |deleted| && Distinct(deletedKeys)
    requires Elements(deletedKeys) == RemovedNames(desired, current)
    requires forall i :: 0 <= i < |deleted| ==>
      IsRemoved(deletedKeys[i], desired, current) &&
      deleted[i] == ReconcileAction(current[deletedKeys[i]].id, Delete, current[deletedKeys[i]].alert)
    ensures IsPlan(missing + changed + deleted, desired, current)
  {
    assert Aligned(missing, missingKeys, desired, current);
    assert Aligned(changed, changedKeys, desired, current);
    assert Aligned(deleted, deletedKeys, desired, current);
    AlignedConcat(missing, missingKeys, changed, changedKeys, desired, current);
    AlignedConcat(missing + changed, missingKeys + changedKeys, deleted, deletedKeys, desired, current);
    GroupedConcat(missing, changed);
    GroupedConcat(missing + changed, deleted);
    DistinctConcat(missingKeys, changedKeys);
    DistinctConcat(missingKeys + changedKeys, deletedKeys);
    NamesFromKeys(missing + changed + deleted, missingKeys + changedKeys + deletedKeys);
  }

  /** A list of actions whose names are listed, position by position, by a
      list of distinct names has unique names, and its names are the listed ones. */
  lemma NamesFromKeys(actions: seq<ReconcileAction>, keys: seq<string>)
    requires |keys| == |actions| && Distinct(keys)
    requires forall i :: 0 <= i < |actions| ==> NameOf(actions[i]) == keys[i]
    ensures NamesUnique(actions)
    ensures ActionNames(actions) == Elements(keys)
  {
  }
}
