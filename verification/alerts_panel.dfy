/**
  The pure parts of the alert center view: the badge variant per alert type,
  the badge label, the three counters, and which alerts offer an
  "Acknowledge" button.
 */
module AlertsPanel {
  import opened Alerts

  /** The badge styles the view picks from. */
  datatype Variant = Destructive | Default | Secondary | Outline

  /** getAlertVariant, on the type string. */
  function AlertVariant(t: string): (v: Variant)
    ensures v == Destructive <==> t == "sos"
    ensures v == Default <==> t == "zone_exit"
    ensures v == Secondary <==> t == "zone_entry"
  {
    if t == "sos" then Destructive
    else if t == "zone_exit" then Default
    else if t == "zone_entry" then Secondary
    else Outline
  }

  /** Over the four alert types the variant tells the type apart, except that
      a low-battery alert shares the fallback style. */
  lemma VariantOfKinds(k: AlertType)
    ensures AlertVariant(TypeName(k)) == match k
      case Sos => Destructive
      case ZoneExit => Default
      case ZoneEntry => Secondary
      case LowBattery => Outline
  {
  }

  /** `s.replace(from, to)` with one-character strings: JavaScript replaces
      the first occurrence only. */
  function ReplaceFirst(s: string, from: char, to: char): (r: string)
    ensures |r| == |s|
  {
    if |s| == 0 then []
    else if s[0] == from then [to] + s[1..]
    else [s[0]] + ReplaceFirst(s[1..], from, to)
  }

  /** Position by position: a character other than `from` is kept, and an
      occurrence of `from` becomes `to` exactly when no earlier one exists. */
  lemma {:induction false} ReplaceFirstAt(s: string, from: char, to: char, j: int)
    requires 0 <= j < |s|
    ensures s[j] != from ==> ReplaceFirst(s, from, to)[j] == s[j]
    ensures s[j] == from ==>
      ReplaceFirst(s, from, to)[j] == (if forall i :: 0 <= i < j ==> s[i] != from then to else from)
  {
    if s[0] != from && j > 0 {
      ReplaceFirstAt(s[1..], from, to, j - 1);
      assert forall i :: 0 <= i < j - 1 ==> s[1..][i] == s[i + 1];
      if s[j] == from && forall i :: 0 <= i < j - 1 ==> s[1..][i] != from {
        forall i | 0 <= i < j ensures s[i] != from {
          if i > 0 {
            assert s[i] == s[1..][i - 1];
          }
        }
      }
    }
  }

  function UpperChar(c: char): char
  {
    if 'a' <= c <= 'z' then (c as int - 32) as char else c
  }

  /** `toUpperCase`, for the ASCII letters the alert types use. */
  function ToUpper(s: string): (r: string)
    ensures |r| == |s|
    ensures forall j :: 0 <= j < |s| ==> r[j] == UpperChar(s[j])
  {
    seq(|s|, j requires 0 <= j < |s| => UpperChar(s[j]))
  }

  /** Upper-casing leaves no ASCII lower-case letter and is idempotent. */
  lemma ToUpperIdempotent(s: string)
    ensures forall j :: 0 <= j < |s| ==> !('a' <= ToUpper(s)[j] <= 'z')
    ensures ToUpper(ToUpper(s)) == ToUpper(s)
  {
  }

  /** The badge text: the first underscore becomes a space, then upper case. */
  function Label(t: string): (r: string)
    ensures |r| == |t|
  {
    ToUpper(ReplaceFirst(t, '_', ' '))
  }

  /** Without an occurrence nothing is replaced, so a type without an
      underscore is only upper-cased. */
  lemma {:induction false} ReplaceFirstAbsent(s: string, from: char, to: char)
    requires from !in s
    ensures ReplaceFirst(s, from, to) == s
    ensures from == '_' && to == ' ' ==> Label(s) == ToUpper(s)
  {
    if |s| > 0 {
      ReplaceFirstAbsent(s[1..], from, to);
    }
  }

  /** Replacing in front of the first occurrence leaves the prefix alone. */
  lemma {:induction false} ReplaceFirstSplit(p: string, q: string, from: char, to: char)
    requires from !in p
    ensures ReplaceFirst(p + [from] + q, from, to) == p + [to] + q
  {
    if |p| > 0 {
      ReplaceFirstSplit(p[1..], q, from, to);
      assert (p + [from] + q)[1..] == p[1..] + [from] + q;
    }
  }

  /** A type `p_q` whose first underscore ends `p` is labelled as the upper
      case of `p` and `q` with a space between. */
  lemma LabelSplit(p: string, q: string)
    requires '_' !in p
    ensures Label(p + "_" + q) == ToUpper(p) + " " + ToUpper(q)
  {
    ReplaceFirstSplit(p, q, '_', ' ');
  }

  /** The badges of the four alert types. */
  lemma LabelSos()
    ensures Label(TypeName(Sos)) == "SOS"
  {
    assert ReplaceFirst("sos", '_', ' ') == "sos";
  }

  lemma LabelZoneExit()
    ensures Label(TypeName(ZoneExit)) == "ZONE EXIT"
  {
    assert TypeName(ZoneExit) == "zone" + "_" + "exit";
    LabelSplit("zone", "exit");
    assert ToUpper("zone") == "ZONE" && ToUpper("exit") == "EXIT";
    assert "ZONE" + " " + "EXIT" == "ZONE EXIT";
  }

  lemma LabelZoneEntry()
    ensures Label(TypeName(ZoneEntry)) == "ZONE ENTRY"
  {
    assert TypeName(ZoneEntry) == "zone" + "_" + "entry";
    LabelSplit("zone", "entry");
    assert ToUpper("zone") == "ZONE" && ToUpper("entry") == "ENTRY";
    assert "ZONE" + " " + "ENTRY" == "ZONE ENTRY";
  }

  lemma LabelLowBattery()
    ensures Label(TypeName(LowBattery)) == "LOW BATTERY"
  {
    assert TypeName(LowBattery) == "low" + "_" + "battery";
    LabelSplit("low", "battery");
    assert ToUpper("low") == "LOW" && ToUpper("battery") == "BATTERY";
    assert "LOW" + " " + "BATTERY" == "LOW BATTERY";
  }

  /** Only the first underscore is replaced: a label keeps an underscore
      exactly when the type holds two or more. */
  lemma LabelUnderscores(t: string)
    ensures (exists j :: 0 <= j < |t| && Label(t)[j] == '_')
        <==> (exists i, j :: 0 <= i < j < |t| && t[i] == '_' && t[j] == '_')
  {
    var r := Label(t);
    if exists j :: 0 <= j < |t| && r[j] == '_' {
      var j :| 0 <= j < |t| && r[j] == '_';
      ReplaceFirstAt(t, '_', ' ', j);
      var i :| 0 <= i < j && t[i] == '_';
    }
    if exists i, j :: 0 <= i < j < |t| && t[i] == '_' && t[j] == '_' {
      var i, j :| 0 <= i < j < |t| && t[i] == '_' && t[j] == '_';
      ReplaceFirstAt(t, '_', ' ', j);
      assert r[j] == UpperChar(ReplaceFirst(t, '_', ' ')[j]);
    }
  }

  /** The "New Alerts" counter: `alerts.filter(a => !a.acknowledged).length`. */
  function UnacknowledgedCount(log: seq<Alert>): (n: nat)
    ensures n <= |log|
    ensures n == 0 <==> forall i :: 0 <= i < |log| ==> log[i].acknowledged
  {
    if |log| == 0 then 0 else (if log[0].acknowledged then 0 else 1) + UnacknowledgedCount(log[1..])
  }

  /** The "Resolved" counter: `alerts.filter(a => a.acknowledged).length`. */
  function AcknowledgedCount(log: seq<Alert>): (n: nat)
    ensures n <= |log|
    ensures n == 0 <==> forall i :: 0 <= i < |log| ==> !log[i].acknowledged
  {
    if |log| == 0 then 0 else (if log[0].acknowledged then 1 else 0) + AcknowledgedCount(log[1..])
  }

  /** "New Alerts" and "Resolved" add up to "Total Alerts". */
  lemma {:induction false} CountsPartition(log: seq<Alert>)
    ensures UnacknowledgedCount(log) + AcknowledgedCount(log) == |log|
  {
    if |log| > 0 {
      CountsPartition(log[1..]);
    }
  }

  /** A new alert is one more "New Alert" and changes no "Resolved". */
  lemma AddAlertCounts(log: seq<Alert>, d: AlertDraft, id: string, now: int)
    ensures UnacknowledgedCount(AddAlert(log, d, id, now)) == UnacknowledgedCount(log) + 1
    ensures AcknowledgedCount(AddAlert(log, d, id, now)) == AcknowledgedCount(log)
  {
    var r := AddAlert(log, d, id, now);
    assert r[1..] == log;
  }

  /** How many unacknowledged alerts carry `id`. */
  function PendingWithId(log: seq<Alert>, id: string): (n: nat)
    ensures n <= UnacknowledgedCount(log)
  {
    if |log| == 0 then 0
    else (if !log[0].acknowledged && log[0].id == id then 1 else 0) + PendingWithId(log[1..], id)
  }

  lemma AcknowledgeTail(log: seq<Alert>, id: string)
    requires |log| > 0
    ensures Acknowledge(log, id)[1..] == Acknowledge(log[1..], id)
  {
    var a := Acknowledge(log, id)[1..];
    var b := Acknowledge(log[1..], id);
    assert |a| == |b|;
    forall j | 0 <= j < |a| ensures a[j] == b[j] {
      assert log[1..][j] == log[j + 1];
    }
  }

  /** Acknowledging resolves exactly the pending alerts with that id. */
  lemma {:induction false} AcknowledgeCounts(log: seq<Alert>, id: string)
    ensures UnacknowledgedCount(Acknowledge(log, id)) == UnacknowledgedCount(log) - PendingWithId(log, id)
    ensures AcknowledgedCount(Acknowledge(log, id)) == AcknowledgedCount(log) + PendingWithId(log, id)
  {
    if |log| > 0 {
      AcknowledgeTail(log, id);
      AcknowledgeCounts(log[1..], id);
    }
  }

  /** The ids whose rows show an "Acknowledge" button, in display order. */
  function Offered(log: seq<Alert>): (r: seq<string>)
    ensures |r| == UnacknowledgedCount(log)
  {
    if |log| == 0 then []
    else if log[0].acknowledged then Offered(log[1..])
    else [log[0].id] + Offered(log[1..])
  }

  /** An id is offered exactly when some unacknowledged alert carries it. */
  lemma {:induction false} OfferedMembers(log: seq<Alert>, x: string)
    ensures x in Offered(log) <==> exists j :: 0 <= j < |log| && log[j].id == x && !log[j].acknowledged
  {
    if |log| > 0 {
      OfferedMembers(log[1..], x);
      if exists j :: 0 <= j < |log| && log[j].id == x && !log[j].acknowledged {
        var j :| 0 <= j < |log| && log[j].id == x && !log[j].acknowledged;
        if j > 0 {
          assert log[1..][j - 1] == log[j];
        }
      }
      if x in Offered(log[1..]) {
        var j :| 0 <= j < |log[1..]| && log[1..][j].id == x && !log[1..][j].acknowledged;
        assert log[j + 1] == log[1..][j];
      }
    }
  }

  /** Once an id is acknowledged no row offers it any more, and every other
      offered id stays offered. */
  lemma AcknowledgeWithdrawsOffer(log: seq<Alert>, id: string, other: string)
    requires other != id
    ensures id !in Offered(Acknowledge(log, id))
    ensures other in Offered(Acknowledge(log, id)) <==> other in Offered(log)
  {
    var r := Acknowledge(log, id);
    OfferedMembers(r, id);
    OfferedMembers(r, other);
    OfferedMembers(log, other);
    if other in Offered(log) {
      var j :| 0 <= j < |log| && log[j].id == other && !log[j].acknowledged;
      assert r[j].id == other && !r[j].acknowledged;
    }
  }
}
