/** What the gate posts is what the exporter reads: the one program's alerts are
    the other's findings. */
module EndToEnd {
  import opened Text
  import opened Clock
  import opened Findings
  import Pairs
  import Gate
  import opened Collectors
  import opened Severity

  /** The alert of a control is a finding of source "kubescape": of medium severity,
      its item the control, open since the gate ran. */
  lemma GateAlertIsFinding(c: string, rs: seq<string>, name: string, now: Time, expire: int)
    ensures var a := Gate.AlertFor(c, rs, name, now, expire);
            var al := AmAlert(a.labels, a.startsAt);
            Label(al, "source") == "kubescape" && AmFinding(al) == Finding("medium", c, now)
  {
    WordsOfScale("warning");
  }

  /** The alerts as Alertmanager hands them out. */
  function Served(alerts: seq<Gate.Alert>): (r: seq<AmAlert>)
    ensures |r| == |alerts| && forall i | 0 <= i < |r| :: r[i] == AmAlert(alerts[i].labels, alerts[i].startsAt)
  {
    seq(|alerts|, i requires 0 <= i < |alerts| => AmAlert(alerts[i].labels, alerts[i].startsAt))
  }

  function MediumFindings(cs: seq<string>, since: Time): (r: seq<Finding>)
    ensures |r| == |cs| && forall i | 0 <= i < |r| :: r[i] == Finding("medium", cs[i], since)
  {
    seq(|cs|, i requires 0 <= i < |cs| => Finding("medium", cs[i], since))
  }

  lemma {:induction false} SelectAll(items: seq<Named>, fs: seq<Finding>, name: string)
    requires |fs| == |items| && forall i | 0 <= i < |items| :: items[i] == (name, fs[i])
    ensures Select(items, name) == fs
  {
    if items != [] {
      var k := |items| - 1;
      SelectAll(items[..k], fs[..k], name);
      assert fs == fs[..k] + [fs[k]];
    }
  }

  /** From the regressions to the exporter's findings: under "kubescape" one
      medium finding for each control with a regression, in the gate's order. */
  lemma RegressionsAreFindings(ps: seq<Pairs.Pair>, names: map<string, string>, now: Time, expire: int)
    ensures var alerts := Gate.AlertsFor(Gate.Controls(ps), ps, names, now, expire);
            Select(NamedAmAlerts(Served(alerts)), "kubescape") == MediumFindings(Gate.Controls(ps), now)
  {
    var cs := Gate.Controls(ps);
    var alerts := Gate.AlertsFor(cs, ps, names, now, expire);
    var items := NamedAmAlerts(Served(alerts));
    forall i | 0 <= i < |items| ensures items[i] == ("kubescape", MediumFindings(cs, now)[i]) {
      GateAlertIsFinding(cs[i], Gate.ResourcesOf(ps, cs[i]), Gate.NameOf(names, cs[i]), now, expire);
    }
    SelectAll(items, MediumFindings(cs, now), "kubescape");
  }
}
