/** Whether setup may write to a machine, by what the machine has recorded (install.rs). */
module Versions {
  import opened Prelude

  datatype Order = Less | Equal | Greater

  /** The pieces of `semver` and `str` the decision rests on. */
  datatype Rules<!V> = Rules(
    trim: string -> string, parse: string -> Option<V>, show: V -> string, compare: (V, V) -> Order)

  /** A version written down and read again is that version. */
  ghost predicate Lawful<V(!new)>(r: Rules<V>) {
    && (forall v: V :: r.trim(r.show(v)) != "" && r.parse(r.trim(r.show(v))) == Some(v))
    && (forall v: V :: r.compare(v, v) == Equal)
    && (forall a: V, b: V, c: V :: r.compare(a, b) == Less && r.compare(b, c) == Less ==> r.compare(a, c) == Less)
  }

  datatype Decision<V> =
    | Fresh | Upgrade(from: V) | RefuseRunning | RefuseSameVersion(installed: V)
    | RefuseDowngrade(installed: V) | RefuseUnreadableStamp(found: string)

  function Decide<V>(r: Rules<V>, installed: Option<string>, candidate: V, running: bool): Decision<V> {
    if running then RefuseRunning
    else if installed.None? then Fresh
    else
      var trimmed := r.trim(installed.value);
      if trimmed == "" then Fresh
      else
        var version := r.parse(trimmed);
        if version.None? then RefuseUnreadableStamp(trimmed)
        else
          match r.compare(version.value, candidate)
          case Less => Upgrade(version.value)
          case Equal => RefuseSameVersion(version.value)
          case Greater => RefuseDowngrade(version.value)
  }

  predicate MayProceed<V>(d: Decision<V>) {
    d.Fresh? || d.Upgrade?
  }

  /** A machine that reads as having nothing installed. */
  predicate Blank<V>(r: Rules<V>, stamp: Option<string>) {
    stamp.None? || r.trim(stamp.value) == ""
  }

  /** Setup may write exactly when the program is not running and what is recorded is
      nothing or an older version; otherwise the refusal says which it was. */
  lemma DecisionMeans<V>(r: Rules<V>, installed: Option<string>, candidate: V, running: bool)
    ensures var d := Decide(r, installed, candidate, running);
      && (d == RefuseRunning <==> running)
      && (d == Fresh <==> !running && Blank(r, installed))
      && (d.RefuseUnreadableStamp? <==> !running && !Blank(r, installed) && r.parse(r.trim(installed.value)).None?)
      && (forall v: V :: d == Upgrade(v) || d == RefuseSameVersion(v) || d == RefuseDowngrade(v) <==>
            !running && !Blank(r, installed) && r.parse(r.trim(installed.value)) == Some(v))
      && (d.Upgrade? ==> r.compare(d.from, candidate) == Less)
      && (d.RefuseSameVersion? ==> r.compare(d.installed, candidate) == Equal)
      && (d.RefuseDowngrade? ==> r.compare(d.installed, candidate) == Greater)
  {
  }
}
