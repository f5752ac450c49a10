/**
 * Escalation age (utils/escalationLength.ts): whole days since a record's
 * creation instant, and its display string. `now` is the current time in
 * milliseconds, the value the source reads from the clock.
 */
module EscalationLength {
  import opened Wrappers
  import opened Text

  const NanosPerMilli: nat := 1_000_000
  const MillisPerDay: nat := 24 * 60 * 60 * 1000

  /** Division of the source's `bigint` type: truncates toward zero. */
  function TruncDiv(x: int, d: nat): (q: int)
    requires d > 0
    ensures x >= 0 ==> q * d <= x < (q + 1) * d
    ensures x < 0 ==> q == -((-x) / d)
  {
    if x >= 0 then x / d else -((-x) / d)
  }

  /** `Number(createdDate / BigInt(1_000_000))`: the creation instant in milliseconds. */
  function CreatedMillis(createdDate: int): (ms: int)
    ensures createdDate >= 0 ==> ms * NanosPerMilli <= createdDate < (ms + 1) * NanosPerMilli
    ensures createdDate < 0 ==> ms <= 0
  {
    TruncDiv(createdDate, NanosPerMilli)
  }

  /**
   * `computeDaysSinceCreation`: `None` (the source's `null`) for the unsaved
   * sentinel 0, for a creation instant at or before the epoch, and for one in
   * the future; otherwise the number of whole days elapsed.
   */
  function DaysSinceCreation(createdDate: int, now: int): (days: Option<nat>)
    ensures days.None? <==>
              createdDate == 0 || CreatedMillis(createdDate) <= 0 || CreatedMillis(createdDate) > now
    ensures days.Some? ==>
              days.value * MillisPerDay <= now - CreatedMillis(createdDate) < (days.value + 1) * MillisPerDay
  {
    if createdDate == 0 then None
    else
      var createdTime := CreatedMillis(createdDate);
      if createdTime <= 0 || createdTime > now then None
      else
        var timeDifference := now - createdTime;
        var d := timeDifference / MillisPerDay;
        Some(if d >= 0 then d else 0)
  }

  /** `formatEscalationLength`, given the day count it computes. */
  function FormatDays(days: Option<nat>): (s: string)
  {
    match days
    case None => "Not yet created"
    case Some(n) =>
      if n == 0 then "0 days"
      else if n == 1 then "1 day"
      else Decimal(n) + " days"
  }

  function FormatEscalationLength(createdDate: int, now: int): (s: string)
    ensures DaysSinceCreation(createdDate, now).None? ==> s == "Not yet created"
    ensures DaysSinceCreation(createdDate, now) == Some(1) ==> s == "1 day"
    ensures forall n: nat :: DaysSinceCreation(createdDate, now) == Some(n) && n != 1 ==>
              s == Decimal(n) + " days"
  {
    FormatDays(DaysSinceCreation(createdDate, now))
  }

  /** Every positive instant below one millisecond truncates to 0 and is treated as unset. */
  lemma SubMillisecondIsUnset(createdDate: int, now: int)
    requires 0 < createdDate < NanosPerMilli
    ensures DaysSinceCreation(createdDate, now).None?
  {
  }

  /** With the clock frozen the result is one definite value, never negative. */
  lemma DaysAreExact(createdDate: int, now: int)
    requires DaysSinceCreation(createdDate, now).Some?
    ensures DaysSinceCreation(createdDate, now).value == (now - CreatedMillis(createdDate)) / MillisPerDay
  {
    var n := DaysSinceCreation(createdDate, now).value;
    var diff := now - CreatedMillis(createdDate);
    assert n * MillisPerDay <= diff < (n + 1) * MillisPerDay;
    DivisionIsFloor(diff, n);
  }

  lemma DivisionIsFloor(diff: int, n: nat)
    requires n * MillisPerDay <= diff < (n + 1) * MillisPerDay
    ensures diff / MillisPerDay == n
  {
  }

  /** As time passes a defined age stays defined and never decreases. */
  lemma DaysMonotoneInNow(createdDate: int, now: int, later: int)
    requires now <= later
    requires DaysSinceCreation(createdDate, now).Some?
    ensures DaysSinceCreation(createdDate, later).Some?
    ensures DaysSinceCreation(createdDate, now).value <= DaysSinceCreation(createdDate, later).value
  {
    var n := DaysSinceCreation(createdDate, now).value;
    var m := DaysSinceCreation(createdDate, later).value;
    var ms := CreatedMillis(createdDate);
    assert n * MillisPerDay <= now - ms <= later - ms < (m + 1) * MillisPerDay;
  }

  /** A record created three days and two hours before `now` is three days old. */
  lemma ThreeDaysTwoHours(createdDate: int, now: int)
    requires createdDate > 0 && createdDate % NanosPerMilli == 0
    requires now == createdDate / NanosPerMilli + 3 * MillisPerDay + 2 * 60 * 60 * 1000
    ensures DaysSinceCreation(createdDate, now) == Some(3)
    ensures FormatEscalationLength(createdDate, now) == "3 days"
  {
    var ms := CreatedMillis(createdDate);
    DivisionIsFloor(now - ms, 3);
    assert Decimal(3) == "3";
  }

  /** Different ages never share a display string. */
  lemma FormatDaysInjective(a: Option<nat>, b: Option<nat>)
    requires FormatDays(a) == FormatDays(b)
    ensures a == b
  {
    var s := FormatDays(a);
    if a.Some? && b.Some? {
      var m, n := a.value, b.value;
      assert FormatDays(Some(m)) == (if m == 1 then "1 day" else Decimal(m) + " days");
      assert FormatDays(Some(n)) == (if n == 1 then "1 day" else Decimal(n) + " days");
      if m != 1 && n != 1 {
        var dm, dn := Decimal(m), Decimal(n);
        assert dm == s[..|s| - 5] && dn == s[..|s| - 5];
        DecimalInjective(m, n);
      }
    } else if a.Some? {
      NotYetCreatedIsNotADayCount(a.value);
    } else if b.Some? {
      NotYetCreatedIsNotADayCount(b.value);
    }
  }

  lemma NotYetCreatedIsNotADayCount(n: nat)
    ensures FormatDays(Some(n)) != "Not yet created"
  {
    if n > 1 {
      var d := Decimal(n);
      assert (d + " days")[0] == d[0];
      assert IsDigit(d[0]);
    }
  }
}
