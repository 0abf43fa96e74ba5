/**
 * When a destination's next integrity audit is due (services/ftp_audit_scheduling.py), in a zone
 * whose offset from UTC is fixed. Instants are microseconds since 1970-01-01T00:00Z.
 */
module AuditSchedule {
  import opened Text

  const DAY: int := 86_400_000_000

  datatype Frequency = Daily | Weekly | Unsupported

  /** The time of day in microseconds, and the weekday with Monday as 0. */
  datatype Slot = Slot(frequency: Frequency, time: int, weekday: int) {
    ghost predicate Valid() { 0 <= time < DAY && 0 <= weekday < 7 }

    /** An instant at which the configuration asks for an audit. */
    ghost predicate Fits(instant: int, offset: int) {
      var local := instant + offset;
      local % DAY == time && (frequency == Weekly ==> Weekday(local / DAY) == weekday)
    }
  }

  /** date.weekday() of the day that many days after 1970-01-01, a Thursday. */
  function Weekday(day: int): (w: int)
    ensures 0 <= w < 7
  {
    (day + 3) % 7
  }

  /** datetime.combine(date, time, tzinfo=zone) as an instant. */
  function Combine(day: int, time: int, offset: int): int { day * DAY + time - offset }

  /** calculate_next_ftp_audit; None for the ValueError of an unsupported frequency. */
  function NextAudit(slot: Slot, reference: int, offset: int): Option<int> {
    var day := (reference + offset) / DAY;
    match slot.frequency
    case Daily =>
      var candidate := Combine(day, slot.time, offset);
      Some(if candidate <= reference then candidate + DAY else candidate)
    case Weekly =>
      var ahead := (slot.weekday - Weekday(day)) % 7;
      var candidate := Combine(day + ahead, slot.time, offset);
      Some(if candidate <= reference then candidate + 7 * DAY else candidate)
    case Unsupported => None
  }

  /** Day and time of day determine the instant, and are determined by it. */
  lemma DayAndTime(day: int, time: int)
    requires 0 <= time < DAY
    ensures (day * DAY + time) / DAY == day && (day * DAY + time) % DAY == time
  {
    var n := day * DAY + time;
    assert n == (n / DAY) * DAY + n % DAY;
  }

  lemma CombineFits(slot: Slot, day: int, offset: int)
    requires slot.Valid() && (slot.frequency == Weekly ==> Weekday(day) == slot.weekday)
    ensures slot.Fits(Combine(day, slot.time, offset), offset)
  {
    DayAndTime(day, slot.time);
  }

  /** Later slots of the same time of day lie on later days. */
  lemma FittingDay(slot: Slot, x: int, offset: int) returns (day: int)
    requires slot.Valid() && slot.Fits(x, offset)
    ensures x == Combine(day, slot.time, offset) && day == (x + offset) / DAY
    ensures slot.frequency == Weekly ==> Weekday(day) == slot.weekday
  {
    day := (x + offset) / DAY;
  }

  lemma AheadReaches(day: int, weekday: int, later: int)
    requires 0 <= weekday < 7
    ensures var ahead := (weekday - Weekday(day)) % 7;
      && 0 <= ahead < 7 && Weekday(day + ahead) == weekday && Weekday(day + ahead + 7) == weekday
      && (Weekday(later) == weekday && later >= day ==> later == day + ahead || later >= day + ahead + 7)
  {
  }

  /**
   * The next audit is the least instant after the reference that the configuration asks for, at
   * most one day or one week away.
   */
  lemma NextAuditIsLeast(slot: Slot, reference: int, offset: int)
    requires slot.Valid() && slot.frequency != Unsupported
    ensures var next := NextAudit(slot, reference, offset);
      && next.Some? && slot.Fits(next.value, offset)
      && reference < next.value <= reference + (if slot.frequency == Daily then DAY else 7 * DAY)
      && forall x | reference < x && slot.Fits(x, offset) :: next.value <= x
  {
    var day := (reference + offset) / DAY;
    var ahead := if slot.frequency == Daily then 0 else (slot.weekday - Weekday(day)) % 7;
    var step := if slot.frequency == Daily then 1 else 7;
    AheadReaches(day, slot.weekday, day);
    CombineFits(slot, day + ahead, offset);
    CombineFits(slot, day + ahead + step, offset);
    forall x | reference < x && slot.Fits(x, offset) ensures NextAudit(slot, reference, offset).value <= x {
      var d := FittingDay(slot, x, offset);
      AheadReaches(day, slot.weekday, d);
    }
  }
}
