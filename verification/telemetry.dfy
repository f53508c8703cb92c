/** What the battery module sees of the operating system and of Python's
    exception machinery. File reads become values of these datatypes, so
    every operation of the model is a pure function of them. */
module Telemetry {

  /** The exceptions the battery module can raise or recover from. */
  datatype Fault = IOError | ValueError | ZeroDivisionError

  /** An operation that either returns a value or raises a fault to its caller. */
  datatype Result<T> = Ok(value: T) | Err(fault: Fault)

  /** Reading one numeric pseudo-file: the open or read fails (an `IOError`),
      the contents do not parse as a number (a `ValueError`), or the parsed number. */
  datatype NumberFile<T> = Unreadable | Malformed | Parsed(value: T)

  /** What one poll finds under the power-supply directory: no device
      directory at all, or the device with its `charge_full` (an integer)
      and `charge_now` (a float) files. */
  datatype Observation =
    | DeviceAbsent
    | DevicePresent(chargeFull: NumberFile<int>, chargeNow: NumberFile<real>)

  /** The device's `status` file, read afresh on every classification. */
  datatype StatusFile = StatusUnreadable | StatusText(text: string)
}
