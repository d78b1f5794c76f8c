/**
 The reconciler's test scenarios and further examples, stated for arbitrary
 alerts rather than fixed ones: what any plan against the indexed inputs must
 be.
 */
module Scenarios {
  import opened Types
  import opened Indexer
  import opened Reconciler
  import opened PlanProperties

  /** The results report exactly the given alerts, in order, each under some
      identifier. */
  ghost predicate Reports(results: seq<ApiResult>, alerts: seq<Alert>)
  {
    |results| == |alerts| && forall i :: 0 <= i < |results| ==> results[i].alert == alerts[i]
  }

  /** In a list with distinct names, every element is the index entry for its
      name. */
  lemma DistinctEntry<T>(s: seq<T>, name: T -> string, i: nat)
    requires DistinctNames(s, name) && i < |s|
    ensures name(s[i]) in IndexBy(s, name) && IndexBy(s, name)[name(s[i])] == s[i]
  {
    IndexByContents(s, name);
    assert IsLastWithName(s, name, i);
  }

  /** Reported results carry their alerts' names, and are distinct when the
      alerts are. */
  lemma ReportedNames(results: seq<ApiResult>, alerts: seq<Alert>)
    requires Reports(results, alerts)
    ensures NamesOf(results, ResultName) == NamesOf(alerts, ConfigName)
    ensures DistinctNames(alerts, ConfigName) ==> DistinctNames(results, ResultName)
  {
    forall k | k in NamesOf(alerts, ConfigName)
      ensures k in NamesOf(results, ResultName)
    {
      var i :| 0 <= i < |alerts| && ConfigName(alerts[i]) == k;
      assert ResultName(results[i]) == k;
    }
  }

  /** A plan against one-element-per-name state is a single given action when
      exactly one name needs one and that action is justified. */
  lemma SingleAction(actions: seq<ReconcileAction>, desired: map<string, Alert>, current: map<string, ApiResult>, k: string)
    requires IsPlan(actions, desired, current) && PendingNames(desired, current) == {k}
    ensures |actions| == 1 && NameOf(actions[0]) == k && Justified(actions[0], desired, current)
  {
    PlanSize(actions, desired, current);
    assert NameOf(actions[0]) in ActionNames(actions);
  }

  /** Distinct names in a concatenation are distinct in each part, and the
      parts share none. */
  lemma SplitDistinct(existing: seq<Alert>, added: seq<Alert>)
    requires DistinctNames(existing + added, ConfigName)
    ensures DistinctNames(existing, ConfigName) && DistinctNames(added, ConfigName)
    ensures forall i, j :: 0 <= i < |existing| && 0 <= j < |added| ==> existing[i].alertName != added[j].alertName
  {
    var all := existing + added;
    forall i, j | 0 <= i < j < |existing|
      ensures ConfigName(existing[i]) != ConfigName(existing[j])
    {
      assert existing[i] == all[i] && existing[j] == all[j];
    }
    forall i, j | 0 <= i < j < |added|
      ensures ConfigName(added[i]) != ConfigName(added[j])
    {
      assert all[|existing| + i] == added[i] && all[|existing| + j] == added[j];
    }
    forall i, j | 0 <= i < |existing| && 0 <= j < |added|
      ensures existing[i].alertName != added[j].alertName
    {
      assert all[i] == existing[i] && all[|existing| + j] == added[j];
    }
  }

  /** Every reported name is desired with the content it is reported with. */
  lemma ExistingUnchanged(existing: seq<Alert>, added: seq<Alert>, results: seq<ApiResult>)
    requires DistinctNames(existing + added, ConfigName) && Reports(results, existing)
    ensures forall k :: k in IndexBy(results, ResultName) ==>
      k in IndexBy(existing + added, ConfigName) &&
      IndexBy(results, ResultName)[k].alert == IndexBy(existing + added, ConfigName)[k]
  {
    var all := existing + added;
    SplitDistinct(existing, added);
    ReportedNames(results, existing);
    IndexByKeys(results, ResultName);
    forall k | k in IndexBy(results, ResultName)
      ensures k in IndexBy(all, ConfigName) && IndexBy(results, ResultName)[k].alert == IndexBy(all, ConfigName)[k]
    {
      var i :| 0 <= i < |existing| && ConfigName(existing[i]) == k;
      assert all[i] == existing[i];
      DistinctEntry(all, ConfigName, i);
      DistinctEntry(results, ResultName, i);
    }
  }

  /** Every added name is missing from the report and indexes its own alert. */
  lemma AddedMissing(existing: seq<Alert>, added: seq<Alert>, results: seq<ApiResult>)
    requires DistinctNames(existing + added, ConfigName) && Reports(results, existing)
    ensures forall j :: 0 <= j < |added| ==>
      IsMissing(added[j].alertName, IndexBy(existing + added, ConfigName), IndexBy(results, ResultName)) &&
      IndexBy(existing + added, ConfigName)[added[j].alertName] == added[j]
  {
    var all := existing + added;
    SplitDistinct(existing, added);
    ReportedNames(results, existing);
    IndexByKeys(results, ResultName);
    forall j | 0 <= j < |added|
      ensures added[j].alertName !in IndexBy(results, ResultName)
      ensures added[j].alertName in IndexBy(all, ConfigName) && IndexBy(all, ConfigName)[added[j].alertName] == added[j]
    {
      assert all[|existing| + j] == added[j];
      DistinctEntry(all, ConfigName, |existing| + j);
    }
  }

  /** The names of a concatenation are the names of its parts. */
  lemma NamesOfConcat(existing: seq<Alert>, added: seq<Alert>)
    ensures NamesOf(existing + added, ConfigName) == NamesOf(existing, ConfigName) + NamesOf(added, ConfigName)
  {
    var all := existing + added;
    forall k | k in NamesOf(all, ConfigName)
      ensures k in NamesOf(existing, ConfigName) + NamesOf(added, ConfigName)
    {
      var i :| 0 <= i < |all| && ConfigName(all[i]) == k;
      if i < |existing| {
        assert all[i] == existing[i];
      } else {
        assert all[i] == added[i - |existing|];
      }
    }
    forall k | k in NamesOf(existing, ConfigName) + NamesOf(added, ConfigName)
      ensures k in NamesOf(all, ConfigName)
    {
      if k in NamesOf(existing, ConfigName) {
        var i :| 0 <= i < |existing| && ConfigName(existing[i]) == k;
        assert all[i] == existing[i];
      } else {
        var j :| 0 <= j < |added| && ConfigName(added[j]) == k;
        assert all[|existing| + j] == added[j];
      }
    }
  }

  /** With the existing alerts reported unchanged, exactly the added names need
      an action, and each is missing. */
  lemma AddedPending(existing: seq<Alert>, added: seq<Alert>, results: seq<ApiResult>)
    requires DistinctNames(existing + added, ConfigName) && Reports(results, existing)
    ensures PendingNames(IndexBy(existing + added, ConfigName), IndexBy(results, ResultName)) == NamesOf(added, ConfigName)
    ensures forall k :: k in PendingNames(IndexBy(existing + added, ConfigName), IndexBy(results, ResultName)) ==>
      IsMissing(k, IndexBy(existing + added, ConfigName), IndexBy(results, ResultName))
  {
    var desired, current := IndexBy(existing + added, ConfigName), IndexBy(results, ResultName);
    ExistingUnchanged(existing, added, results);
    assert ChangedNames(desired, current) == {};
    assert RemovedNames(desired, current) == {};
    IndexByKeys(existing + added, ConfigName);
    IndexByKeys(results, ResultName);
    ReportedNames(results, existing);
    NamesOfConcat(existing, added);
    SplitDistinct(existing, added);
    assert NamesOf(existing, ConfigName) !! NamesOf(added, ConfigName);
    assert MissingNames(desired, current) == NamesOf(added, ConfigName);
  }

  /** Existing alerts are not recreated: with distinct names, when the API
      already reports the alerts `existing` with identical content and the
      desired list is `existing` followed by `added`, the plan consists of one
      create per added alert and nothing else. */
  lemma ExistingAlertsNotRecreated(actions: seq<ReconcileAction>, existing: seq<Alert>, added: seq<Alert>, results: seq<ApiResult>)
    requires DistinctNames(existing + added, ConfigName) && Reports(results, existing)
    requires IsPlan(actions, IndexBy(existing + added, ConfigName), IndexBy(results, ResultName))
    ensures |actions| == |added|
    ensures forall i :: 0 <= i < |actions| ==> actions[i].action == Create && actions[i].body in added
    ensures forall j :: 0 <= j < |added| ==> exists i :: 0 <= i < |actions| && actions[i].body == added[j]
  {
    var desired, current := IndexBy(existing + added, ConfigName), IndexBy(results, ResultName);
    AddedPending(existing, added, results);
    AddedMissing(existing, added, results);
    forall i | 0 <= i < |actions|
      ensures actions[i].action == Create && actions[i].body in added
    {
      assert Justified(actions[i], desired, current);
      assert NameOf(actions[i]) in NamesOf(added, ConfigName);
    }
    forall j | 0 <= j < |added|
      ensures exists i :: 0 <= i < |actions| && actions[i].body == added[j]
    {
      assert added[j].alertName in ActionNames(actions);
      var i :| 0 <= i < |actions| && NameOf(actions[i]) == added[j].alertName;
      assert Justified(actions[i], desired, current);
    }
    SplitDistinct(existing, added);
    IndexBySize(added, ConfigName);
    IndexByKeys(added, ConfigName);
    PlanSize(actions, desired, current);
  }

  /** A changed alert is updated in place: desired `[a2, b]` against reported
      `[a, b]`, where `a2` has `a`'s name but other content, gives a single
      update carrying `a`'s identifier and the new content. */
  lemma ChangedAlertIsUpdated(actions: seq<ReconcileAction>, a: Alert, a2: Alert, b: Alert, ra: ApiResult, rb: ApiResult)
    requires a2.alertName == a.alertName && a.alertName != b.alertName && a2 != a
    requires ra.alert == a && rb.alert == b
    requires IsPlan(actions, IndexBy([a2, b], ConfigName), IndexBy([ra, rb], ResultName))
    ensures actions == [ReconcileAction(ra.id, Update, a2)]
  {
    var desired := map[a.alertName := a2][b.alertName := b];
    var current := map[a.alertName := ra][b.alertName := rb];
    assert [a2][..0] == [] && [a2, b][..1] == [a2];
    assert IndexBy([a2], ConfigName) == map[a.alertName := a2];
    assert IndexBy([a2, b], ConfigName) == desired;
    assert [ra][..0] == [] && [ra, rb][..1] == [ra];
    assert IndexBy([ra], ResultName) == map[a.alertName := ra];
    assert IndexBy([ra, rb], ResultName) == current;
    assert PendingNames(desired, current) == {a.alertName};
    SingleAction(actions, desired, current, a.alertName);
  }

  /** An alert no longer desired is deleted: desired `[a, c]` against reported
      `[a, b, c]` gives a single delete carrying `b`'s identifier and body. */
  lemma RemovedAlertIsDeleted(actions: seq<ReconcileAction>, a: Alert, b: Alert, c: Alert, ra: ApiResult, rb: ApiResult, rc: ApiResult)
    requires a.alertName != b.alertName && b.alertName != c.alertName && a.alertName != c.alertName
    requires ra.alert == a && rb.alert == b && rc.alert == c
    requires IsPlan(actions, IndexBy([a, c], ConfigName), IndexBy([ra, rb, rc], ResultName))
    ensures actions == [ReconcileAction(rb.id, Delete, b)]
  {
    var desired := map[a.alertName := a][c.alertName := c];
    var current := map[a.alertName := ra][b.alertName := rb][c.alertName := rc];
    assert [a][..0] == [] && [a, c][..1] == [a];
    assert IndexBy([a], ConfigName) == map[a.alertName := a];
    assert IndexBy([a, c], ConfigName) == desired;
    assert [ra][..0] == [] && [ra, rb][..1] == [ra] && [ra, rb, rc][..2] == [ra, rb];
    assert IndexBy([ra], ResultName) == map[a.alertName := ra];
    assert IndexBy([ra, rb], ResultName) == map[a.alertName := ra][b.alertName := rb];
    assert IndexBy([ra, rb, rc], ResultName) == current;
    assert PendingNames(desired, current) == {b.alertName};
    SingleAction(actions, desired, current, b.alertName);
  }

  /** With nothing desired, a reported alert is deleted. */
  lemma UndesiredAlertIsDeleted(actions: seq<ReconcileAction>, ra: ApiResult)
    requires IsPlan(actions, IndexBy([], ConfigName), IndexBy([ra], ResultName))
    ensures actions == [ReconcileAction(ra.id, Delete, ra.alert)]
  {
    var current := map[ra.alert.alertName := ra];
    assert IndexBy([ra], ResultName) == current;
    assert PendingNames(map[], current) == {ra.alert.alertName};
    SingleAction(actions, map[], current, ra.alert.alertName);
  }

  /** An alert reported with exactly its desired content needs no action. */
  lemma IdenticalAlertNeedsNoAction(actions: seq<ReconcileAction>, a: Alert, ra: ApiResult)
    requires ra.alert == a
    requires IsPlan(actions, IndexBy([a], ConfigName), IndexBy([ra], ResultName))
    ensures actions == []
  {
    var desired, current := map[a.alertName := a], map[a.alertName := ra];
    assert IndexBy([a], ConfigName) == desired;
    assert IndexBy([ra], ResultName) == current;
    PlanEmptyIffInSync(actions, desired, current);
  }

  /** Reordering an alert's notification rules is a change: desired `[a2, b]`
      against reported `[a, b]`, where `a2` is `a` with its two distinct rules
      swapped, gives a single update carrying `a`'s identifier and the
      reordered alert. */
  lemma ReorderedNotificationsAreUpdated(actions: seq<ReconcileAction>, a: Alert, b: Alert, ra: ApiResult, rb: ApiResult,
                                         x: Notifications, y: Notifications)
    requires a.notifications == [x, y] && x != y && a.alertName != b.alertName
    requires ra.alert == a && rb.alert == b
    requires IsPlan(actions, IndexBy([a.(notifications := [y, x]), b], ConfigName), IndexBy([ra, rb], ResultName))
    ensures actions == [ReconcileAction(ra.id, Update, a.(notifications := [y, x]))]
  {
    NotificationOrderMatters(a, x, y);
    assert a == a.(notifications := [x, y]);
    ChangedAlertIsUpdated(actions, a, a.(notifications := [y, x]), b, ra, rb);
  }
}
