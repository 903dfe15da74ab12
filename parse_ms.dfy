/**
 * The external parse-ms package that index.js:1 imports, reduced to the
 * contract the formatter relies on for a non-negative integer count of
 * milliseconds: a mixed-radix split into days, hours, minutes, seconds and
 * milliseconds. An integer input has no microseconds or nanoseconds.
 */
module ParseMs {

  const MsPerSecond := 1000
  const MsPerMinute := 60 * MsPerSecond
  const MsPerHour := 60 * MsPerMinute
  const MsPerDay := 24 * MsPerHour

  datatype Parsed = Parsed(
    days: nat, hours: nat, minutes: nat, seconds: nat,
    milliseconds: nat, microseconds: nat, nanoseconds: nat)

  /** The decomposition of ms: each field holds what the larger units leave over. */
  function Parse(ms: nat): (p: Parsed)
    ensures p.hours < 24 && p.minutes < 60 && p.seconds < 60 && p.milliseconds < 1000
    ensures p.microseconds == 0 && p.nanoseconds == 0
    ensures p.days * MsPerDay + p.hours * MsPerHour + p.minutes * MsPerMinute
            + p.seconds * MsPerSecond + p.milliseconds == ms
  {
    var totalSeconds := ms / 1000;
    var totalMinutes := ms / 60000;
    var totalHours := ms / 3600000;
    assert totalMinutes == totalSeconds / 60;
    assert totalHours == totalMinutes / 60;
    assert ms / 86400000 == totalHours / 24;
    Parsed(ms / 86400000, totalHours % 24, totalMinutes % 60, totalSeconds % 60, ms % 1000, 0, 0)
  }
}
