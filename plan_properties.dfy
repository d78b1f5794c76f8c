/**
 What every plan the reconciler may produce has in common, whatever order Go's
 map iteration takes: each name that needs an action gets exactly one, of the
 kind its classification calls for; the plan is empty exactly when the two
 sides are in sync; identifiers and timestamps of the current alerts never
 change which actions are emitted; the summary counts follow from the
 classification; and the fast path for an empty current list agrees with the
 indexed path exactly when the desired names are distinct.
 */
module PlanProperties {
  import opened Types
  import opened Indexer
  import opened Reconciler
  import opened Tally

  datatype Option<T> = None | Some(value: T)

  /** The action a name calls for, if any. */
  function Classification(k: string, desired: map<string, Alert>, current: map<string, ApiResult>): (kind: Option<Action>)
  {
    if IsMissing(k, desired, current) then Some(Create)
    else if IsChanged(k, desired, current) then Some(Update)
    else if IsRemoved(k, desired, current) then Some(Delete)
    else None
  }

  /** The names needing an action are exactly those the classification gives
      an action for. */
  lemma PendingIsClassified(k: string, desired: map<string, Alert>, current: map<string, ApiResult>)
    ensures k in PendingNames(desired, current) <==> Classification(k, desired, current).Some?
  {
  }

  /** A justified action has the kind its name's classification gives. */
  lemma JustifiedIsClassified(a: ReconcileAction, desired: map<string, Alert>, current: map<string, ApiResult>)
    requires Justified(a, desired, current)
    ensures Classification(NameOf(a), desired, current) == Some(a.action)
  {
  }

  /** Partition: every action of a plan has the kind its name's classification
      gives, every classified name has an action, and (by NamesUnique) only one. */
  lemma PlanClassifies(actions: seq<ReconcileAction>, desired: map<string, Alert>, current: map<string, ApiResult>)
    requires IsPlan(actions, desired, current)
    ensures forall i :: 0 <= i < |actions| ==> Classification(NameOf(actions[i]), desired, current) == Some(actions[i].action)
    ensures forall k :: Classification(k, desired, current).Some? ==>
      exists i :: 0 <= i < |actions| && NameOf(actions[i]) == k && Some(actions[i].action) == Classification(k, desired, current)
  {
    forall i | 0 <= i < |actions|
      ensures Classification(NameOf(actions[i]), desired, current) == Some(actions[i].action)
    {
      JustifiedIsClassified(actions[i], desired, current);
    }
    forall k | Classification(k, desired, current).Some?
      ensures exists i :: 0 <= i < |actions| && NameOf(actions[i]) == k && Some(actions[i].action) == Classification(k, desired, current)
    {
      PendingIsClassified(k, desired, current);
      assert k in ActionNames(actions);
      var i :| 0 <= i < |actions| && NameOf(actions[i]) == k;
      JustifiedIsClassified(actions[i], desired, current);
    }
  }

  // `NamesUnique` and `ActionNames` are the indexer's `DistinctNames` and
  // `NamesOf` with `NameOf` as the name, written first-order for the same
  // reason as the passes' `Distinct` and `Elements`; the two lemmas below are
  // their counterparts of `DistinctNamesSnoc` and `NamesOfSnoc`.

  /** Dropping the last action keeps names unique, and the last action's
      name is not among the others. */
  lemma NamesUniqueInit(actions: seq<ReconcileAction>)
    requires actions != [] && NamesUnique(actions)
    ensures NamesUnique(actions[..|actions| - 1])
    ensures NameOf(actions[|actions| - 1]) !in ActionNames(actions[..|actions| - 1])
  {
    var init := actions[..|actions| - 1];
    forall i, j | 0 <= i < j < |init|
      ensures NameOf(init[i]) != NameOf(init[j])
    {
      assert init[i] == actions[i] && init[j] == actions[j];
    }
    forall i | 0 <= i < |init|
      ensures NameOf(init[i]) != NameOf(actions[|actions| - 1])
    {
      assert init[i] == actions[i];
    }
  }

  lemma ActionNamesSnoc(actions: seq<ReconcileAction>)
    requires actions != []
    ensures ActionNames(actions) == ActionNames(actions[..|actions| - 1]) + {NameOf(actions[|actions| - 1])}
  {
    var init := actions[..|actions| - 1];
    forall k | k in ActionNames(actions)
      ensures k in ActionNames(init) + {NameOf(actions[|actions| - 1])}
    {
      var i :| 0 <= i < |actions| && NameOf(actions[i]) == k;
      if i < |init| {
        assert init[i] == actions[i];
      }
    }
    forall k | k in ActionNames(init)
      ensures k in ActionNames(actions)
    {
      var i :| 0 <= i < |init| && NameOf(init[i]) == k;
      assert actions[i] == init[i];
    }
  }

  /** A list of actions with unique names has as many names as actions. */
  lemma {:induction false} UniqueNamesCount(actions: seq<ReconcileAction>)
    requires NamesUnique(actions)
    ensures |ActionNames(actions)| == |actions|
  {
    if actions != [] {
      NamesUniqueInit(actions);
      UniqueNamesCount(actions[..|actions| - 1]);
      ActionNamesSnoc(actions);
    }
  }

  /** A plan has one action per name that needs one. */
  lemma PlanSize(actions: seq<ReconcileAction>, desired: map<string, Alert>, current: map<string, ApiResult>)
    requires IsPlan(actions, desired, current)
    ensures |actions| == |PendingNames(desired, current)|
  {
    UniqueNamesCount(actions);
  }

  /** The two sides hold the same names with the same embedded alerts. */
  ghost predicate InSync(desired: map<string, Alert>, current: map<string, ApiResult>)
  {
    desired.Keys == current.Keys && forall k :: k in desired ==> current[k].alert == desired[k]
  }

  /** Steady state: a plan is empty exactly when the two sides are in sync, so
      reconciling against a current state that already matches the desired
      one yields no action, and any difference yields at least one. */
  lemma PlanEmptyIffInSync(actions: seq<ReconcileAction>, desired: map<string, Alert>, current: map<string, ApiResult>)
    requires IsPlan(actions, desired, current)
    ensures actions == [] <==> InSync(desired, current)
  {
    if actions != [] {
      var k := NameOf(actions[0]);
      assert k in ActionNames(actions);
      assert k in PendingNames(desired, current);
    }
    if !InSync(desired, current) {
      if desired.Keys != current.Keys {
        if k :| k in desired.Keys && k !in current.Keys {
          assert k in MissingNames(desired, current);
        } else {
          var k :| k in current.Keys && k !in desired.Keys;
          assert k in RemovedNames(desired, current);
        }
      } else {
        var k :| k in desired && current[k].alert != desired[k];
        assert k in ChangedNames(desired, current);
      }
      assert PendingNames(desired, current) != {};
      assert ActionNames(actions) != {};
    }
  }

  /** The decision an action records: its name, kind and body, without the
      identifier. */
  function Decision(a: ReconcileAction): (decision: (string, Action, Alert))
  {
    (NameOf(a), a.action, a.body)
  }

  function Decisions(actions: seq<ReconcileAction>): (decisions: set<(string, Action, Alert)>)
  {
    set i | 0 <= i < |actions| :: Decision(actions[i])
  }

  /** Two current states that differ at most in identifiers and timestamps. */
  ghost predicate SameAlerts(current1: map<string, ApiResult>, current2: map<string, ApiResult>)
  {
    current1.Keys == current2.Keys && forall k :: k in current1 ==> current1[k].alert == current2[k].alert
  }

  /** The same names need an action against either state. */
  lemma PendingIgnoresIds(desired: map<string, Alert>, current1: map<string, ApiResult>, current2: map<string, ApiResult>)
    requires SameAlerts(current1, current2)
    ensures PendingNames(desired, current1) == PendingNames(desired, current2)
  {
    assert ChangedNames(desired, current1) == ChangedNames(desired, current2);
  }

  /** Two justified actions about the same name, against current states that
      differ at most in identifiers and timestamps, record the same decision. */
  lemma SameDecision(a: ReconcileAction, b: ReconcileAction, desired: map<string, Alert>,
                     current1: map<string, ApiResult>, current2: map<string, ApiResult>)
    requires SameAlerts(current1, current2) && NameOf(a) == NameOf(b)
    requires Justified(a, desired, current1) && Justified(b, desired, current2)
    ensures Decision(a) == Decision(b)
  {
  }

  lemma DecisionsIncluded(actions1: seq<ReconcileAction>, actions2: seq<ReconcileAction>, desired: map<string, Alert>,
                          current1: map<string, ApiResult>, current2: map<string, ApiResult>)
    requires IsPlan(actions1, desired, current1) && IsPlan(actions2, desired, current2)
    requires SameAlerts(current1, current2)
    ensures Decisions(actions1) <= Decisions(actions2)
  {
    PendingIgnoresIds(desired, current1, current2);
    forall x | x in Decisions(actions1)
      ensures x in Decisions(actions2)
    {
      var i :| 0 <= i < |actions1| && Decision(actions1[i]) == x;
      var k := NameOf(actions1[i]);
      assert k in ActionNames(actions2);
      var j :| 0 <= j < |actions2| && NameOf(actions2[j]) == k;
      SameDecision(actions1[i], actions2[j], desired, current1, current2);
    }
  }

  /** Identifiers, creation and update times sit outside the embedded alert,
      so they never change what is decided: any two plans against current
      states that differ only in them have the same length and the same
      decisions. With equal current states this says that the plan is fixed,
      up to order and the identifiers of creates. */
  lemma DecisionsIgnoreIds(actions1: seq<ReconcileAction>, actions2: seq<ReconcileAction>, desired: map<string, Alert>,
                           current1: map<string, ApiResult>, current2: map<string, ApiResult>)
    requires IsPlan(actions1, desired, current1) && IsPlan(actions2, desired, current2)
    requires SameAlerts(current1, current2)
    ensures |actions1| == |actions2|
    ensures Decisions(actions1) == Decisions(actions2)
  {
    DecisionsIncluded(actions1, actions2, desired, current1, current2);
    DecisionsIncluded(actions2, actions1, desired, current2, current1);
    PendingIgnoresIds(desired, current1, current2);
    PlanSize(actions1, desired, current1);
    PlanSize(actions2, desired, current2);
  }

  /** The names the actions of one kind are about. */
  function KindNames(actions: seq<ReconcileAction>, kind: Action): (names: set<string>)
  {
    set i | 0 <= i < |actions| && actions[i].action == kind :: NameOf(actions[i])
  }

  lemma KindNamesSnoc(actions: seq<ReconcileAction>, kind: Action)
    requires actions != []
    ensures KindNames(actions, kind) == KindNames(actions[..|actions| - 1], kind) +
      (if actions[|actions| - 1].action == kind then {NameOf(actions[|actions| - 1])} else {})
  {
    var init, last := actions[..|actions| - 1], actions[|actions| - 1];
    forall k | k in KindNames(init, kind)
      ensures k in KindNames(actions, kind)
    {
      var i :| 0 <= i < |init| && init[i].action == kind && NameOf(init[i]) == k;
      assert actions[i] == init[i];
    }
    forall k | k in KindNames(actions, kind)
      ensures k in KindNames(init, kind) + (if last.action == kind then {NameOf(last)} else {})
    {
      var i :| 0 <= i < |actions| && actions[i].action == kind && NameOf(actions[i]) == k;
      if i < |init| {
        assert init[i] == actions[i];
      }
    }
    if last.action == kind {
      assert NameOf(actions[|actions| - 1]) in KindNames(actions, kind);
    }
  }

  /** With unique names, the count of a kind is the number of names of that kind. */
  lemma {:induction false} CountIsKindNames(actions: seq<ReconcileAction>, kind: Action)
    requires NamesUnique(actions)
    ensures Count(actions, kind) == |KindNames(actions, kind)|
  {
    if actions != [] {
      var init := actions[..|actions| - 1];
      NamesUniqueInit(actions);
      CountIsKindNames(init, kind);
      KindNamesSnoc(actions, kind);
      assert KindNames(init, kind) <= ActionNames(init);
    }
  }

  /** The actions of one kind of a plan are about exactly the names of the
      matching class. */
  lemma PlanKindNames(actions: seq<ReconcileAction>, desired: map<string, Alert>, current: map<string, ApiResult>)
    requires IsPlan(actions, desired, current)
    ensures KindNames(actions, Create) == MissingNames(desired, current)
    ensures KindNames(actions, Update) == ChangedNames(desired, current)
    ensures KindNames(actions, Delete) == RemovedNames(desired, current)
  {
    PlanClassifies(actions, desired, current);
    forall kind | kind in {Create, Update, Delete}
      ensures forall k :: k in KindNames(actions, kind) <==> Classification(k, desired, current) == Some(kind)
    {
      forall k
        ensures k in KindNames(actions, kind) <==> Classification(k, desired, current) == Some(kind)
      {
        if Classification(k, desired, current) == Some(kind) {
          var i :| 0 <= i < |actions| && NameOf(actions[i]) == k && Some(actions[i].action) == Classification(k, desired, current);
          assert actions[i].action == kind;
        }
      }
    }
  }

  /** The summary of a plan: as many creates as missing names, as many
      updates as changed names, as many deletes as removed names. */
  lemma PlanCounts(actions: seq<ReconcileAction>, desired: map<string, Alert>, current: map<string, ApiResult>)
    requires IsPlan(actions, desired, current)
    ensures Count(actions, Create) == |MissingNames(desired, current)|
    ensures Count(actions, Update) == |ChangedNames(desired, current)|
    ensures Count(actions, Delete) == |RemovedNames(desired, current)|
  {
    PlanKindNames(actions, desired, current);
    CountIsKindNames(actions, Create);
    CountIsKindNames(actions, Update);
    CountIsKindNames(actions, Delete);
  }

  /** Against an empty current state every desired name is missing. */
  lemma AllMissing(desired: map<string, Alert>)
    ensures PendingNames(desired, map[]) == desired.Keys
  {
    assert ChangedNames(desired, map[]) == {};
  }

  /** With distinct names, each decision of the fast path is one of the
      indexed path's. */
  lemma FastDecisionsIndexed(fast: seq<ReconcileAction>, indexed: seq<ReconcileAction>, alerts: seq<Alert>)
    requires IsFastPlan(fast, alerts) && DistinctNames(alerts, ConfigName)
    requires IsPlan(indexed, IndexBy(alerts, ConfigName), map[])
    ensures Decisions(fast) <= Decisions(indexed)
  {
    var desired := IndexBy(alerts, ConfigName);
    IndexByContents(alerts, ConfigName);
    AllMissing(desired);
    forall x | x in Decisions(fast)
      ensures x in Decisions(indexed)
    {
      var i :| 0 <= i < |fast| && Decision(fast[i]) == x;
      var k := alerts[i].alertName;
      assert IsLastWithName(alerts, ConfigName, i);
      assert k in NamesOf(alerts, ConfigName);
      assert k in ActionNames(indexed);
      var j :| 0 <= j < |indexed| && NameOf(indexed[j]) == k;
      assert Justified(indexed[j], desired, map[]);
      assert Decision(indexed[j]) == x;
    }
  }

  /** With distinct names, each decision of the indexed path is one of the
      fast path's. */
  lemma IndexedDecisionsFast(fast: seq<ReconcileAction>, indexed: seq<ReconcileAction>, alerts: seq<Alert>)
    requires IsFastPlan(fast, alerts) && DistinctNames(alerts, ConfigName)
    requires IsPlan(indexed, IndexBy(alerts, ConfigName), map[])
    ensures Decisions(indexed) <= Decisions(fast)
  {
    var desired := IndexBy(alerts, ConfigName);
    IndexByContents(alerts, ConfigName);
    forall x | x in Decisions(indexed)
      ensures x in Decisions(fast)
    {
      var j :| 0 <= j < |indexed| && Decision(indexed[j]) == x;
      var k := NameOf(indexed[j]);
      assert Justified(indexed[j], desired, map[]);
      assert k in NamesOf(alerts, ConfigName);
      var i :| 0 <= i < |alerts| && ConfigName(alerts[i]) == k;
      assert IsLastWithName(alerts, ConfigName, i);
      assert Decision(fast[i]) == x;
    }
  }

  /** Fast-path equivalence. Against an empty current state, the fast path
      and the indexed path make the same decisions, the same number of times,
      exactly when the desired names are distinct; with a repeated name the
      indexed path keeps only the last definition and so emits fewer actions. */
  lemma FastPathMatchesIndexed(fast: seq<ReconcileAction>, indexed: seq<ReconcileAction>, alerts: seq<Alert>)
    requires IsFastPlan(fast, alerts)
    requires IsPlan(indexed, IndexBy(alerts, ConfigName), map[])
    ensures DistinctNames(alerts, ConfigName) ==> |fast| == |indexed| && Decisions(fast) == Decisions(indexed)
    ensures !DistinctNames(alerts, ConfigName) ==> |indexed| < |fast|
  {
    var desired := IndexBy(alerts, ConfigName);
    IndexBySize(alerts, ConfigName);
    AllMissing(desired);
    PlanSize(indexed, desired, map[]);
    if DistinctNames(alerts, ConfigName) {
      FastDecisionsIndexed(fast, indexed, alerts);
      IndexedDecisionsFast(fast, indexed, alerts);
    }
  }
}
