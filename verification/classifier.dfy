/** The state classifier: the ordered tags the bar uses to style the battery widget. */
module Classifier {
  import opened Telemetry
  import opened PowerSource
  import Text
  import Nearest

  datatype Tag = Critical | Warning | Unknown | AC | Discharging(bucket: nat) | Charged | Charging

  /** The string the rendering layer sees for a tag. */
  function TagName(t: Tag): (s: string)
    ensures s != []
    ensures t.Discharging? ==>
              && |s| > |DischargingPrefix| && s[..|DischargingPrefix|] == DischargingPrefix
              && Text.AllDigits(s[|DischargingPrefix|..])
              && Text.Value(s[|DischargingPrefix|..]) == t.bucket
    ensures !t.Discharging? ==> s[0] != 'd'
  {
    match t
    case Critical => "critical"
    case Warning => "warning"
    case Unknown => "unknown"
    case AC => "AC"
    case Discharging(b) =>
      var s := DischargingPrefix + Text.Decimal(b);
      assert s[..|DischargingPrefix|] == DischargingPrefix && s[|DischargingPrefix|..] == Text.Decimal(b);
      Text.ValueOfDecimal(b);
      s
    case Charged => "charged"
    case Charging => "charging"
  }

  /** What the name of a discharging tag starts with; its level follows. */
  const DischargingPrefix: string := "discharging-"

  /** Distinct tags have distinct names, so the rendering layer can tell every state apart. */
  lemma TagNameInjective(a: Tag, b: Tag)
    ensures TagName(a) == TagName(b) <==> a == b
  {
    if a.Discharging? != b.Discharging? {
      var d := if a.Discharging? then a else b;
      assert TagName(d)[0] == DischargingPrefix[0];
    }
  }

  /** The list of strings the rendering layer receives for a list of tags. */
  function Names(tags: seq<Tag>): seq<string> {
    seq(|tags|, i requires 0 <= i < |tags| => TagName(tags[i]))
  }

  /** Two tag lists give the same strings exactly when they are the same
      list, so the strings returned carry everything the tags do. */
  lemma NamesInjective(a: seq<Tag>, b: seq<Tag>)
    ensures Names(a) == Names(b) <==> a == b
  {
    if Names(a) == Names(b) {
      assert |a| == |Names(a)| == |Names(b)| == |b|;
      forall i | 0 <= i < |a|
        ensures a[i] == b[i]
      {
        assert Names(a)[i] == TagName(a[i]) && Names(b)[i] == TagName(b[i]);
        TagNameInjective(a[i], b[i]);
      }
    }
  }

  /** The thresholds, in percent, when none are configured. */
  const DefaultCritical: real := 10.0
  const DefaultWarning: real := 20.0

  /** Below this fraction a reading is reported as if the sensor had failed. */
  const Floor: real := 0.01

  /** Above this fraction a battery that is not discharging counts as charged. */
  const ChargedAbove: real := 0.95

  /** The status text that selects the discharging levels. */
  const DischargingStatus: string := "Discharging"

  /** The reading takes the fixed critical-and-unknown answer. An unknown
      charge compares below every number, as `None` does in Python 2. */
  predicate ShortCircuits(c: Charge) {
    c.Unavailable? || c.fraction < Floor
  }

  predicate IsSeverity(t: Tag) {
    t == Critical || t == Warning
  }

  predicate IsPowerState(t: Tag) {
    t.AC? || t.Discharging? || t.Charged? || t.Charging?
  }

  /** The shape of every answer outside the short-circuit: at most one
      severity tag, in front, then exactly one power-state tag. */
  predicate WellShaped(tags: seq<Tag>) {
    && 1 <= |tags| <= 2
    && IsPowerState(tags[|tags| - 1])
    && (|tags| == 2 ==> IsSeverity(tags[0]))
  }

  /** The severity tag, if any, for a fraction and the two thresholds in percent. */
  function Severity(f: real, critical: real, warning: real): (tags: seq<Tag>)
    ensures |tags| <= 1
    ensures forall t :: t in tags ==> IsSeverity(t)
    ensures Critical in tags <==> f < critical / 100.0
    ensures Warning in tags <==> !(f < critical / 100.0) && f < warning / 100.0
  {
    if f < critical / 100.0 then [Critical]
    else if f < warning / 100.0 then [Warning]
    else []
  }

  /** The power-state tag of a battery that is not on mains power, from its
      fraction and the raw status text. */
  function PowerState(f: real, status: string): (t: Tag)
    ensures IsPowerState(t) && !t.AC?
    ensures t.Discharging? <==> Text.Strip(status) == DischargingStatus
    ensures t.Discharging? ==> t.bucket == Nearest.Bucket(f * 100.0)
    ensures t.Charged? <==> Text.Strip(status) != DischargingStatus && f > ChargedAbove
  {
    if Text.Strip(status) == DischargingStatus then Discharging(Nearest.Bucket(f * 100.0))
    else if f > ChargedAbove then Charged
    else Charging
  }

  /** The tags for a reading, the critical and warning thresholds in percent
      and the device's status file. The status file is only read for a known
      charge at or above the floor on battery power, and an unreadable one
      escapes as an `IOError`. */
  function State(r: Reading, critical: real, warning: real, status: StatusFile): (out: Result<seq<Tag>>)
    ensures ShortCircuits(r.charge) ==> out == Ok([Critical, Unknown])
    ensures !ShortCircuits(r.charge) ==> (out.Err? <==> !r.ac && status.StatusUnreadable?)
    ensures out.Err? ==> out.fault == IOError
    ensures out.Ok? ==> !(Critical in out.value && Warning in out.value)
    ensures out.Ok? && !ShortCircuits(r.charge) ==>
              var tags, f := out.value, r.charge.fraction;
              && WellShaped(tags)
              && (Critical in tags <==> f < critical / 100.0)
              && (Warning in tags <==> !(f < critical / 100.0) && f < warning / 100.0)
              && (tags[|tags| - 1] == AC <==> r.ac)
  {
    match r.charge
    case Unavailable => Ok([Critical, Unknown])
    case Known(f) =>
      if f < Floor then Ok([Critical, Unknown])
      else
        var severity := Severity(f, critical, warning);
        if r.ac then Ok(severity + [AC])
        else match status
          case StatusUnreadable => Err(IOError)
          case StatusText(text) => Ok(severity + [PowerState(f, text)])
  }

  /** The "unknown" tag is reported exactly when the charge is unknown or
      below the floor: it is the observable trace of the short-circuit. */
  lemma UnknownTagIffShortCircuit(r: Reading, critical: real, warning: real, status: StatusFile)
    ensures var out := State(r, critical, warning, status);
            out.Ok? && Unknown in out.value <==> ShortCircuits(r.charge)
  {
    var out := State(r, critical, warning, status);
    if out.Ok? && !ShortCircuits(r.charge) {
      var tags := out.value;
      assert WellShaped(tags);
      assert forall i :: 0 <= i < |tags| ==> tags[i] != Unknown;
    }
  }

  /** Neither mains power nor the short-circuit ever look at the status file. */
  lemma StatusNotConsulted(r: Reading, critical: real, warning: real, s: StatusFile, s': StatusFile)
    requires r.ac || ShortCircuits(r.charge)
    ensures State(r, critical, warning, s) == State(r, critical, warning, s')
    ensures State(r, critical, warning, s).Ok?
  {
  }

  /** On battery with a "Discharging" status (padding around it ignored), the
      power tag names the level nearest the percentage, the lower one on a
      tie (`Nearest.BucketByMidpoints` gives the levels' ranges). */
  lemma DischargingLevel(r: Reading, critical: real, warning: real, text: string)
    requires !r.ac && !ShortCircuits(r.charge)
    ensures Text.Strip(text) == DischargingStatus ==>
              var out := State(r, critical, warning, StatusText(text));
              var p := r.charge.fraction * 100.0;
              && out.Ok?
              && out.value[|out.value| - 1] == Discharging(Nearest.Bucket(p))
  {
    var f := r.charge.fraction;
    var tags := Severity(f, critical, warning) + [PowerState(f, text)];
    assert State(r, critical, warning, StatusText(text)) == Ok(tags);
    assert tags[|tags| - 1] == PowerState(f, text);
  }

  /** Any other status text gives "charged" above 95% and "charging" otherwise. */
  lemma NotDischarging(r: Reading, critical: real, warning: real, text: string)
    requires !r.ac && !ShortCircuits(r.charge)
    requires Text.Strip(text) != DischargingStatus
    ensures var out := State(r, critical, warning, StatusText(text));
            && out.Ok?
            && out.value[|out.value| - 1] == (if r.charge.fraction > ChargedAbove then Charged else Charging)
  {
  }

  /** A consistent reading on mains power gets the lone "AC" tag under any
      thresholds of at most 100%. */
  lemma MainsPowerTags(r: Reading, critical: real, warning: real, status: StatusFile)
    requires Consistent(r) && r.ac
    requires critical <= 100.0 && warning <= 100.0
    ensures State(r, critical, warning, status) == Ok([AC])
  {
    assert Severity(1.0, critical, warning) == [];
    assert [] + [AC] == [AC];
  }
}
