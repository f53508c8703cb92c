/** The power-source reader: the module's reading and the poll that
    overwrites it from the device's pseudo-files. */
module PowerSource {
  import opened Telemetry

  /** The charge fraction, or the explicit "unknown" left behind when the
      charge files could not be read. */
  datatype Charge = Unavailable | Known(fraction: real)

  /** The state one module instance keeps between polls. */
  datatype Reading = Reading(ac: bool, charge: Charge)

  /** How a poll ends. Both ends carry the reading the module is left with:
      a raised fault interrupts the poll after it has already cleared the
      AC flag, so the left-behind reading is not the one it started from. */
  datatype UpdateOutcome =
    | Completed(reading: Reading)
    | Raised(fault: Fault, reading: Reading)

  /** The reading a freshly constructed module holds before its first poll. */
  const Initial: Reading := Reading(false, Known(1.0))

  /** Python's two-argument `min`: the first argument unless the second is smaller. */
  function Min(a: real, b: real): (m: real)
    ensures m <= a && m <= b
    ensures m == a || m == b
  {
    if b < a then b else a
  }

  /** The charge files failed to open or read before any parse error or division could happen. */
  predicate ReadFails(obs: Observation) {
    && obs.DevicePresent?
    && (obs.chargeFull.Unreadable? || (obs.chargeFull.Parsed? && obs.chargeNow.Unreadable?))
  }

  /** A file's contents failed to parse before any read failure could happen. */
  predicate ParseFails(obs: Observation) {
    && obs.DevicePresent?
    && (obs.chargeFull.Malformed? || (obs.chargeFull.Parsed? && obs.chargeNow.Malformed?))
  }

  /** Both numbers were read and the capacity is zero. */
  predicate ZeroCapacity(obs: Observation) {
    && obs.DevicePresent?
    && obs.chargeFull.Parsed? && obs.chargeNow.Parsed?
    && obs.chargeFull.value == 0
  }

  /** One poll. No device directory means mains power at full charge.
      Otherwise `charge_full` is read and parsed before `charge_now`: the
      first file that fails to open leaves the charge unknown, the first
      malformed number escapes as a `ValueError`, and a zero capacity escapes
      as a `ZeroDivisionError` only once both numbers have parsed. Otherwise
      the charge is the ratio of current charge to capacity, capped at 1. */
  function Update(prev: Reading, obs: Observation): (out: UpdateOutcome)
    ensures out.reading.ac <==> obs.DeviceAbsent?
    ensures obs.DeviceAbsent? ==> out == Completed(Reading(true, Known(1.0)))
    ensures ReadFails(obs) <==> out == Completed(Reading(false, Unavailable))
    ensures out.Raised? <==> ParseFails(obs) || ZeroCapacity(obs)
    ensures out.Raised? ==> out.reading.charge == prev.charge
    ensures out.Raised? && ParseFails(obs) ==> out.fault == ValueError
    ensures out.Raised? && ZeroCapacity(obs) ==> out.fault == ZeroDivisionError
    ensures out.reading.charge.Known? && out.Completed? ==> out.reading.charge.fraction <= 1.0
    ensures obs.DevicePresent? && obs.chargeFull.Parsed? && obs.chargeNow.Parsed? && out.Completed? ==>
              var ratio := obs.chargeNow.value / obs.chargeFull.value as real;
              && out.reading.charge.Known?
              && (out.reading.charge.fraction == 1.0 <==> ratio >= 1.0)
              && (out.reading.charge.fraction < 1.0 ==> out.reading.charge.fraction == ratio)
  {
    match obs
    case DeviceAbsent => Completed(Reading(true, Known(1.0)))
    case DevicePresent(full, now) =>
      var cleared := Reading(false, prev.charge);
      match full
      case Unreadable => Completed(Reading(false, Unavailable))
      case Malformed => Raised(ValueError, cleared)
      case Parsed(capacity) =>
        match now
        case Unreadable => Completed(Reading(false, Unavailable))
        case Malformed => Raised(ValueError, cleared)
        case Parsed(units) =>
          if capacity == 0 then Raised(ZeroDivisionError, cleared)
          else Completed(Reading(false, Known(Min(units / capacity as real, 1.0))))
  }

  /** What every reading a module can hold satisfies: the AC flag only ever
      comes with the full charge that marks mains power, and a known charge
      never exceeds 1. */
  predicate Consistent(r: Reading) {
    && (r.ac ==> r.charge == Known(1.0))
    && (r.charge.Known? ==> r.charge.fraction <= 1.0)
  }

  /** The reading of a freshly constructed module is consistent. */
  lemma InitialConsistent()
    ensures Consistent(Initial)
  {
  }

  /** Every poll, completed or interrupted, keeps the reading consistent. */
  lemma UpdateKeepsConsistent(prev: Reading, obs: Observation)
    requires Consistent(prev)
    ensures Consistent(Update(prev, obs).reading)
  {
  }

  /** A poll that completes does not depend on the reading it replaces. */
  lemma CompletedForgetsPrevious(prev: Reading, prev': Reading, obs: Observation)
    requires Update(prev, obs).Completed?
    ensures Update(prev, obs) == Update(prev', obs)
  {
  }

  /** With a positive capacity and a non-negative charge, the fraction lies in [0, 1]. */
  lemma FractionInUnitInterval(prev: Reading, capacity: int, units: real)
    requires capacity > 0 && units >= 0.0
    ensures var out := Update(prev, DevicePresent(Parsed(capacity), Parsed(units)));
            && out.Completed? && out.reading.charge.Known?
            && 0.0 <= out.reading.charge.fraction <= 1.0
  {
  }
}
