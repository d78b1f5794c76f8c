/**
 The data shapes of the alert reconciler: the desired alert definitions read
 from the YAML configuration, the alerts the API reports as current, and the
 actions the reconciler emits. Every entity is an immutable value, so each is
 a datatype, and Go's `reflect.DeepEqual` on these structs is Dafny's
 structural equality.
 */
module Types {

  /** One notification rule of an alert. The Go type is named `Notifications`
      although each value describes a single rule. */
  datatype Notifications = Notifications(
    notificationType: string,
    notificationChannel: string,
    delayMin: int,
    intervalMin: int,
    notificationSchedule: string)

  /** The threshold that triggers an alert. */
  datatype MetricThreshold = MetricThreshold(
    metricName: string,
    operator: string,
    threshold: int,
    units: string)

  /** An alert definition. `alertName` is the key the reconciler matches on;
      `notifications` is ordered, so the same rules in another order make a
      different alert. */
  datatype Alert = Alert(
    alertName: string,
    enabled: bool,
    metricThreshold: MetricThreshold,
    notifications: seq<Notifications>)

  /** A point in time, kept opaque: the reconciler never looks inside it. */
  datatype Timestamp = Timestamp(unixNano: int)

  /** An alert as the API reports it: the embedded `Alert` plus the identifier
      the API assigned and two timestamps, all three outside the embedded alert. */
  datatype ApiResult = ApiResult(
    created: Timestamp,
    id: string,
    updated: Timestamp,
    alert: Alert)
  {
    /** Go promotes the embedded alert's fields, so `result.AlertName` is the
        embedded alert's name. */
    function AlertName(): (name: string)
      ensures name == alert.alertName
    {
      alert.alertName
    }
  }

  /** The desired configuration: a list of alert definitions. */
  datatype DesiredAlertsConfig = DesiredAlertsConfig(alerts: seq<Alert>)

  /** The current configuration: the list of results the API returned. */
  datatype CurrentAlertsConfig = CurrentAlertsConfig(results: seq<ApiResult>)

  /** The kind of a reconcile action. */
  datatype Action = Delete | Create | Update
  {
    /** The string value each constant has in the source. */
    function Name(): (s: string)
      ensures s == "delete" <==> this == Delete
      ensures s == "create" <==> this == Create
      ensures s == "update" <==> this == Update
    {
      match this
      case Delete => "delete"
      case Create => "create"
      case Update => "update"
    }
  }

  /** One step of the reconcile plan: the alert identifier it applies to, its
      kind and the alert definition that goes with it. */
  datatype ReconcileAction = ReconcileAction(alertId: string, action: Action, body: Alert)

  /** The reconcile plan: an ordered list of actions. */
  datatype ReconcileActions = ReconcileActions(actions: seq<ReconcileAction>)

  /** The source declares three action constants with pairwise distinct
      string values, so no two of the kinds modelled here share a value. */
  lemma ActionNamesDistinct(a: Action, b: Action)
    ensures a.Name() == b.Name() <==> a == b
  {
  }

  /** Notification rules are ordered: two distinct rules in the other order
      make a different alert, so whole-structure equality sees a change. */
  lemma NotificationOrderMatters(a: Alert, x: Notifications, y: Notifications)
    requires x != y
    ensures a.(notifications := [x, y]) != a.(notifications := [y, x])
  {
    assert a.(notifications := [x, y]).notifications[0] != a.(notifications := [y, x]).notifications[0];
  }
}
