# Battery status inference, modelled in Dafny

This project models the battery sensor of the bumblebee-status bar
(`bumblebee/modules/battery.py`). It covers the three pieces of decision
logic the module holds:

- the **poll** (`update`), which turns what the power-supply directory holds into
  a reading with an AC flag and a charge fraction. The fraction may be unknown;
- the **display label** (`charge`), which is `"ac"`, `"n/a"` or a whole percentage;
- the **state tags** (`state`), the ordered list of tags the bar styles the
  widget with. It starts with an optional `critical`/`warning` severity tag and
  ends with one power-state tag (`AC`, `discharging-<level>`, `charged` or
  `charging`). A fraction below 1% or an unknown one gives the fixed pair
  `critical`, `unknown`.

File reads become inputs. `Telemetry.Observation` says whether the device
directory exists and what `charge_full` and `charge_now` gave: unreadable,
malformed, or a number. `Telemetry.StatusFile` is the `status` file as
`state` reads it. Python exceptions become `Telemetry.Fault`.

Modules:

| file | module | contents |
|---|---|---|
| telemetry.dfy | `Telemetry` | observations, faults, `Result` |
| text.dfy | `Text` | Python 2 `str.strip()`, decimal numerals |
| power_source.dfy | `PowerSource` | the reading, `Update`, the reading invariant |
| nearest.dfy | `Nearest` | the discharge levels and the first-nearest choice |
| display.dfy | `Display` | the label, round-half-even, the label's text |
| classifier.dfy | `Classifier` | tags, their names, `State` |
| scenarios.dfy | `Scenarios` | whole poll-label-tags cycles |

Modelling choices:

- The charge is `Unavailable | Known(fraction)`. The source stores `None` for
  an unknown charge and compares it with `< 0.01`. Under Python 2, `None` is
  below every number, so an unknown charge takes the same short-circuit as a
  near-empty one. The model makes that reading explicit (`Classifier.ShortCircuits`).
- Charge fractions and thresholds are exact reals.
- A fault raised during a poll leaves the module with the AC flag cleared,
  because line 36 has already run. The charge is the one from before the poll.
  `PowerSource.Update` returns that left-behind reading with the fault.
- The nearest-level rule follows Python's `min(..., key=...)`. It scans
  `[10, 25, 50, 80, 100]` in order and replaces its answer only on a strictly
  smaller distance. A tie therefore goes to the lower level: 65 gives 50 and
  90 gives 80.
- Line 47 caps the fraction at 1 but sets no lower bound. When exactly one
  of the two counts is negative and the charge count is not zero, the
  fraction is negative and the label starts with a minus sign. `PowerSource.FractionInUnitInterval` states the
  range [0, 1] for a positive capacity and a non-negative charge.

## Model

| member | source | states |
|---|---|---|
| PowerSource.Update | bumblebee/modules/battery.py:34-49 | The AC flag is set exactly when the device directory is absent, and then the charge is 1. `charge_full` is read and parsed before `charge_now`. The first unreadable file gives an unknown charge and no fault. The first malformed number raises `ValueError`. A zero capacity raises `ZeroDivisionError` only once both numbers have parsed. A raised fault keeps the previous charge. A known fraction is never above 1, equals 1 exactly when the ratio reaches 1, and otherwise equals the ratio. |
| PowerSource.Min | bumblebee/modules/battery.py:47 | Python's two-argument `min`: the result is at most both arguments and equals one of them, which fixes it uniquely. On a tie the two values are equal, so keeping the first argument changes nothing. |
| PowerSource.InitialConsistent | bumblebee/modules/battery.py:24-25 | A freshly constructed module holds a consistent reading: not on AC, with a charge of 1. |
| PowerSource.UpdateKeepsConsistent | bumblebee/modules/battery.py:36-49 | Every reading a poll leaves is consistent when the one before was: AC only with a charge of 1, and a known charge of at most 1. This holds whether the poll completes or raises. |
| PowerSource.CompletedForgetsPrevious | bumblebee/modules/battery.py:36-47 | A poll that completes gives the same reading whatever the module held before. |
| PowerSource.FractionInUnitInterval | bumblebee/modules/battery.py:42-47 | With a positive capacity and a non-negative charge, the poll completes with a fraction in [0, 1]. |
| Display.DisplayLabel | bumblebee/modules/battery.py:27-32 | AC gives the "ac" label whatever the charge. Otherwise an unknown charge gives "n/a". Otherwise the label is the percentage, whose hundredth part is the fraction. |
| Display.RoundHalfEven | bumblebee/modules/battery.py:32 | The result is an integer within one half of the value. On an exact half it is the even neighbour. |
| Display.RoundMonotone | bumblebee/modules/battery.py:32 | Rounding preserves order. |
| Display.Shown | bumblebee/modules/battery.py:32 | The printed whole number is within one half of the percentage's magnitude. On an exact half it is the even neighbour, so 2.5 shows 2 and 3.5 shows 4. |
| Display.Render | bumblebee/modules/battery.py:27-32 | The text is "ac" exactly for the AC label and "n/a" exactly for the unknown label. It ends in "%" exactly for a percentage. |
| Display.PercentText | bumblebee/modules/battery.py:32 | A percentage in [0, 100] renders as digits and then "%". The digits read back as a number in [0, 100] within one half of the percentage. |
| Display.NegativePercentText | bumblebee/modules/battery.py:32 | A negative percentage renders as "-", then digits, then "%". The digits read back as a number within one half of the magnitude. |
| Display.ShownMonotone | bumblebee/modules/battery.py:32 | A higher non-negative percentage never shows a smaller number. |
| Display.AcTextIffOnAc | bumblebee/modules/battery.py:27-32 | The widget text is "ac" exactly when the reading is on AC. |
| Text.StripLeft | bumblebee/modules/battery.py:67 | The result is a suffix of the input. Everything removed is whitespace. The result does not start with whitespace. It is empty exactly when the input is all whitespace. |
| Text.StripRight | bumblebee/modules/battery.py:67 | The result is a prefix of the input. Everything removed is whitespace. The result does not end with whitespace. It is empty exactly when the input is all whitespace. |
| Text.Strip | bumblebee/modules/battery.py:67 | The result neither starts nor ends with whitespace. It is empty exactly when the input is all whitespace. It is a prefix of the input with its leading whitespace removed, and only whitespace follows it there. |
| Text.StripIsSlice | bumblebee/modules/battery.py:67 | The stripped text is a contiguous slice of the input with only whitespace on either side. |
| Text.StripPadded | bumblebee/modules/battery.py:67 | Any whitespace padding around a core that neither starts nor ends with whitespace strips back to that core. |
| Text.StripIdempotent | bumblebee/modules/battery.py:67 | Stripping twice gives the same result as stripping once. |
| Text.Decimal | bumblebee/modules/battery.py:69 | A numeral is non-empty and all digits, with no leading zero except for 0 itself. |
| Text.ValueOfDecimal | bumblebee/modules/battery.py:69 | Reading a numeral back gives the number. |
| Text.DecimalInjective | bumblebee/modules/battery.py:69 | Two numbers have the same numeral exactly when they are equal. |
| Nearest.ScanFrom | bumblebee/modules/battery.py:69 | Each step of the `min` scan ends at an index whose distance is minimal and strictly below the distance of every earlier candidate. |
| Nearest.FirstNearest | bumblebee/modules/battery.py:69 | `min` with a key returns the first candidate whose key is minimal. |
| Nearest.FirstNearestUnique | bumblebee/modules/battery.py:69 | At most one index is the first nearest. |
| Nearest.TieGoesLower | bumblebee/modules/battery.py:69 | On ascending candidates, equally near candidates lose to the lowest of them. |
| Nearest.Bucket | bumblebee/modules/battery.py:69 | The level is one of 10, 25, 50, 80, 100. No level is nearer. Among equally near levels it is the lowest. |
| Nearest.BucketByMidpoints | bumblebee/modules/battery.py:69 | The chosen level is 10 up to 17.5, 25 up to 37.5, 50 up to 65, 80 up to 90, and 100 above. |
| Nearest.BucketExamples | bumblebee/modules/battery.py:69 | 62 gives 50, the tie at 65 gives 50, the tie at 90 gives 80, and 5 gives 10. |
| Classifier.TagName | bumblebee/modules/battery.py:55-74 | The tag strings the source returns. A discharging tag's name is "discharging-" followed by digits that read back as its level. No other tag's name starts with "d". |
| Classifier.UnknownTagIffShortCircuit | bumblebee/modules/battery.py:54-55 | The "unknown" tag is returned exactly when the charge is unknown or below 0.01. An unknown charge takes this path because `None < 0.01` holds under Python 2. |
| Classifier.TagNameInjective | bumblebee/modules/battery.py:52-76 | Two tags have the same name exactly when they are the same tag. |
| Classifier.NamesInjective | bumblebee/modules/battery.py:52-76 | Two tag lists give the same list of strings exactly when they are the same list. |
| Classifier.Severity | bumblebee/modules/battery.py:57-60 | There is at most one severity tag. "critical" appears exactly below the critical threshold. "warning" appears exactly when the critical test fails and the fraction is below the warning threshold. |
| Classifier.PowerState | bumblebee/modules/battery.py:65-74 | Away from AC, the tag is a discharging level exactly when the stripped status is "Discharging". That level is the nearest to the percentage. The tag is "charged" exactly for any other status above 95%. |
| Classifier.State | bumblebee/modules/battery.py:51-76 | An unknown charge or one below 0.01 gives exactly critical, unknown. Otherwise: the status-file fault arises exactly when the module is not on AC and the file is unreadable. The list has one or two tags, ends with one power-state tag, and starts with the severity tag when it has two. The severity tags follow the thresholds. The last tag is AC exactly when the reading is on AC. Critical and warning never appear together. |
| Classifier.StatusNotConsulted | bumblebee/modules/battery.py:54-66 | On AC or in the short-circuit, the tags do not depend on the status file and no fault arises. |
| Classifier.DischargingLevel | bumblebee/modules/battery.py:68-69 | When "Discharging" is read, padding included, the last tag is the discharging tag at the nearest level. |
| Classifier.NotDischarging | bumblebee/modules/battery.py:70-74 | Any other status text gives "charged" above 95% and "charging" otherwise. |
| Classifier.MainsPowerTags | bumblebee/modules/battery.py:62-63 | A consistent AC reading gets exactly the tag AC under any thresholds up to 100%. |
| Scenarios.AbsentDevice | bumblebee/modules/battery.py:34-40 | An absent device gives the text "ac" and the tags AC under the default thresholds 10 and 20. |
| Scenarios.NearlyEmptyDischarging | bumblebee/modules/battery.py:42-69 | 5 of 100 units while discharging gives "5%" and the tags critical, discharging-10. |
| Scenarios.NearlyFullCharging | bumblebee/modules/battery.py:42-74 | 98 of 100 units while charging gives "98%" and the tag charged. |
| Scenarios.MissingCapacity | bumblebee/modules/battery.py:42-55 | An unreadable capacity file gives "n/a" and the tags critical, unknown. |
| Scenarios.BelowFloor | bumblebee/modules/battery.py:54-55 | A fraction of 0.005 gives critical, unknown whatever the AC flag, thresholds or status. |
| Scenarios.MalformedCapacity | bumblebee/modules/battery.py:36-44 | A malformed capacity raises `ValueError`. The AC flag is already cleared and the previous charge is kept. |

## Left out

- Filesystem access (`os.path.exists`, `open`, `read`) and the device path built from the `device` parameter are not modelled. They become the `Observation` and `StatusFile` inputs.
- The engine and widget plumbing and the `parameter` lookup are not modelled. This includes a threshold parameter that does not parse as a float. Thresholds are plain real arguments.
- Python 3's `TypeError` for `None < 0.01` is not modelled. Only the Python 2 reading is kept.
- Parsing of the pseudo-files' text by `int()` and `float()` is not modelled. A file is either malformed or yields a number. Non-finite floats (`nan`, `inf`), which `float()` accepts, are not modelled.
- Display.Render: rounds the exact percentage half to even. Python rounds the binary float `charge * 100`, which can land on the other side of a half. Python's `-0.0` has no real counterpart.
- Classifier.State: compares exact reals. The source's floats are binary approximations of 0.01, 0.95 and the thresholds divided by 100.
- Classifier.PowerState: finds the level for the exact percentage. Near a midpoint, the source's float product can pick the other level.
- Faults other than `IOError`, `ValueError` and `ZeroDivisionError` are not modelled.
