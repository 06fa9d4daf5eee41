/**
  The alert log of the location context: a newest-first list of alert
  records. New alerts are put in front; the only later change to a record is
  its `acknowledged` flag.
 */
module Alerts {

  datatype AlertType = Sos | ZoneExit | ZoneEntry | LowBattery

  /** The string stored in an alert's `type` field. */
  function TypeName(t: AlertType): string
  {
    match t
    case Sos => "sos"
    case ZoneExit => "zone_exit"
    case ZoneEntry => "zone_entry"
    case LowBattery => "low_battery"
  }

  datatype Alert = Alert(
    id: string,
    kind: AlertType,
    message: string,
    timestamp: int,
    userId: string,
    userName: string,
    acknowledged: bool)

  /** What a caller hands to addAlert: everything but id, timestamp and the flag. */
  datatype AlertDraft = AlertDraft(kind: AlertType, message: string, userId: string, userName: string)

  /** addAlert: the draft becomes an unacknowledged record with the given id
      and time, placed in front of the log. */
  function AddAlert(log: seq<Alert>, d: AlertDraft, id: string, now: int): (r: seq<Alert>)
    ensures |r| == |log| + 1
    ensures r[0].id == id && r[0].timestamp == now && !r[0].acknowledged
    ensures r[0].kind == d.kind && r[0].message == d.message
    ensures r[0].userId == d.userId && r[0].userName == d.userName
    ensures r[1..] == log
  {
    [Alert(id, d.kind, d.message, now, d.userId, d.userName, false)] + log
  }

  /** acknowledgeAlert: every record whose id matches gets its flag set; no
      other field and no other record changes. */
  function Acknowledge(log: seq<Alert>, id: string): (r: seq<Alert>)
    ensures |r| == |log|
    ensures forall i :: 0 <= i < |log| ==> r[i].acknowledged == (log[i].acknowledged || log[i].id == id)
    ensures forall i :: 0 <= i < |log| ==> r[i] == log[i].(acknowledged := r[i].acknowledged)
  {
    if |log| == 0 then []
    else
      var head := if log[0].id == id then log[0].(acknowledged := true) else log[0];
      [head] + Acknowledge(log[1..], id)
  }

  /** Acknowledging twice is acknowledging once. */
  lemma AcknowledgeIdempotent(log: seq<Alert>, id: string)
    ensures Acknowledge(Acknowledge(log, id), id) == Acknowledge(log, id)
  {
    var once := Acknowledge(log, id);
    var twice := Acknowledge(once, id);
    assert forall i :: 0 <= i < |log| ==> twice[i] == once[i];
  }

  /** Acknowledging an id no record carries changes nothing. */
  lemma AcknowledgeUnknownId(log: seq<Alert>, id: string)
    requires forall i :: 0 <= i < |log| ==> log[i].id != id
    ensures Acknowledge(log, id) == log
  {
    var r := Acknowledge(log, id);
    assert forall i :: 0 <= i < |log| ==> r[i] == log[i];
  }

  /** A freshly added alert is acknowledged by its own id and by no other. */
  lemma AcknowledgeAfterAdd(log: seq<Alert>, d: AlertDraft, id: string, now: int, other: string)
    requires other != id
    ensures Acknowledge(AddAlert(log, d, id, now), id)[0].acknowledged
    ensures !Acknowledge(AddAlert(log, d, id, now), other)[0].acknowledged
  {
  }
}
