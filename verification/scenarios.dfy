/** Whole poll cycles: one poll, then the label and the tags of the reading
    it leaves, under the default thresholds. */
module Scenarios {
  import opened Telemetry
  import opened PowerSource
  import opened Display
  import opened Classifier

  /** No device directory: the label is "ac" and the only tag is "AC",
      whatever the module held before and whatever a status file would say. */
  lemma AbsentDevice(prev: Reading, status: StatusFile)
    ensures var r := Update(prev, DeviceAbsent).reading;
            && Render(DisplayLabel(r)) == "ac"
            && State(r, DefaultCritical, DefaultWarning, status) == Ok([AC])
            && Names([AC]) == ["AC"]
  {
    var r := Reading(true, Known(1.0));
    assert Update(prev, DeviceAbsent) == Completed(r);
    assert DisplayLabel(r) == AcText;
    MainsPowerTags(r, DefaultCritical, DefaultWarning, status);
    var names := Names([AC]);
    assert names[0] == "AC";
  }

  /** 5 of 100 units while discharging: "5%", critical, lowest level. */
  lemma NearlyEmptyDischarging(prev: Reading)
    ensures var out := Update(prev, DevicePresent(Parsed(100), Parsed(5.0)));
            && out == Completed(Reading(false, Known(0.05)))
            && Render(DisplayLabel(out.reading)) == "5%"
            && State(out.reading, DefaultCritical, DefaultWarning, StatusText("Discharging\n")) == Ok([Critical, Discharging(10)])
            && Names([Critical, Discharging(10)]) == ["critical", "discharging-10"]
  {
    NearlyEmptyText();
    DischargingLineStrips();
    NearlyEmptyTags("Discharging\n");
    DischargingName();
  }

  lemma NearlyEmptyText()
    ensures Render(DisplayLabel(Reading(false, Known(0.05)))) == "5%"
  {
    assert DisplayLabel(Reading(false, Known(0.05))) == Percent(5.0);
    PercentRendering(5.0, 5, "5");
  }

  lemma NearlyEmptyTags(text: string)
    requires Text.Strip(text) == DischargingStatus
    ensures State(Reading(false, Known(0.05)), DefaultCritical, DefaultWarning, StatusText(text))
         == Ok([Critical, Discharging(10)])
  {
    Nearest.BucketExamples();
    assert 0.05 * 100.0 == 5.0;
    assert PowerState(0.05, text) == Discharging(10);
    assert Severity(0.05, DefaultCritical, DefaultWarning) == [Critical];
    assert [Critical] + [Discharging(10)] == [Critical, Discharging(10)];
  }

  /** The status file ends in a newline, which the strip removes. */
  lemma DischargingLineStrips()
    ensures Text.Strip("Discharging\n") == DischargingStatus
  {
    Text.StripPadded([], DischargingStatus, "\n");
    assert [] + DischargingStatus + "\n" == "Discharging\n";
  }

  lemma ChargingLineStrips()
    ensures Text.Strip("Charging\n") == "Charging" != DischargingStatus
  {
    Text.StripPadded([], "Charging", "\n");
    assert [] + "Charging" + "\n" == "Charging\n";
    assert "Charging"[0] != DischargingStatus[0];
  }

  lemma DischargingName()
    ensures Names([Critical, Discharging(10)]) == ["critical", "discharging-10"]
  {
    assert Text.Decimal(10) == "10";
    assert "discharging-" + "10" == "discharging-10";
  }

  /** A whole percentage renders as its numeral and a percent sign. */
  lemma PercentRendering(p: real, n: nat, digits: string)
    requires p == n as real && Text.Decimal(n) == digits
    ensures Render(Percent(p)) == digits + "%"
  {
    assert Shown(p) == n;
    assert "" + digits + "%" == digits + "%";
  }

  /** 98 of 100 units while charging: "98%" and the lone "charged" tag. */
  lemma NearlyFullCharging(prev: Reading)
    ensures var out := Update(prev, DevicePresent(Parsed(100), Parsed(98.0)));
            && out == Completed(Reading(false, Known(0.98)))
            && Render(DisplayLabel(out.reading)) == "98%"
            && State(out.reading, DefaultCritical, DefaultWarning, StatusText("Charging\n")) == Ok([Charged])
  {
    NearlyFullText();
    ChargingLineStrips();
    NearlyFullTags("Charging\n");
  }

  lemma NearlyFullText()
    ensures Render(DisplayLabel(Reading(false, Known(0.98)))) == "98%"
  {
    assert DisplayLabel(Reading(false, Known(0.98))) == Percent(98.0);
    assert Text.Decimal(98) == "98";
    PercentRendering(98.0, 98, "98");
  }

  lemma NearlyFullTags(text: string)
    requires Text.Strip(text) != DischargingStatus
    ensures State(Reading(false, Known(0.98)), DefaultCritical, DefaultWarning, StatusText(text)) == Ok([Charged])
  {
    assert Severity(0.98, DefaultCritical, DefaultWarning) == [];
    assert PowerState(0.98, text) == Charged;
    assert [] + [Charged] == [Charged];
  }

  /** An unreadable capacity file: "n/a" and the fixed critical-and-unknown pair. */
  lemma MissingCapacity(prev: Reading, now: NumberFile<real>, status: StatusFile)
    ensures var out := Update(prev, DevicePresent(Unreadable, now));
            && out == Completed(Reading(false, Unavailable))
            && Render(DisplayLabel(out.reading)) == "n/a"
            && State(out.reading, DefaultCritical, DefaultWarning, status) == Ok([Critical, Unknown])
            && Names([Critical, Unknown]) == ["critical", "unknown"]
  {
  }

  /** Half a percent is below the floor: the same pair as an unknown
      charge, whatever the thresholds, power source or status. */
  lemma BelowFloor(ac: bool, critical: real, warning: real, status: StatusFile)
    ensures State(Reading(ac, Known(0.005)), critical, warning, status) == Ok([Critical, Unknown])
  {
  }

  /** A malformed capacity interrupts the poll: the AC flag is already
      cleared, the previous charge stays, and the label shows that charge. */
  lemma MalformedCapacity(prev: Reading, now: NumberFile<real>)
    ensures var out := Update(prev, DevicePresent(Malformed, now));
            && out == Raised(ValueError, Reading(false, prev.charge))
            && (prev.charge.Unavailable? ==> Render(DisplayLabel(out.reading)) == "n/a")
  {
  }
}
