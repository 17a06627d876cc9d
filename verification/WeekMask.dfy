/** The weekday byte of alarms and absences: Monday in bit 0 to Sunday in bit 6, active flag in bit 7. */
module WeekMask {

  /** The bit of a weekday; Sunday is 0. */
  function DayBit(week: nat): bv8
    requires week < 7
  {
    match week
    case 0 => 0x40
    case 1 => 0x01
    case 2 => 0x02
    case 3 => 0x04
    case 4 => 0x08
    case 5 => 0x10
    case _ => 0x20
  }

  predicate Repeating(mask: bv8) {
    mask & 0x7F != 0
  }

  predicate Active(mask: bv8) {
    mask & 0x80 != 0
  }

  function Deactivated(mask: bv8): bv8 {
    mask & 0x7F
  }

  /** The day is in the mask, or the mask names no day. */
  predicate OnDay(mask: bv8, week: nat)
    requires week < 7
  {
    !Repeating(mask) || mask & DayBit(week) != 0
  }

  /** lum_compareWeekData. */
  predicate CompareWeekData(compareWeek: bv8, curWeek: nat)
    requires curWeek < 7
  {
    if compareWeek & 0x7F == 0 then true
    else
      var tem := ((compareWeek & 0x3F) << 1) | ((compareWeek & 0x40) >> 6);
      tem & (1 << curWeek) != 0
  }

  /** The rotation applied to a window that ends on the next day. */
  function AddOneDay(compareWeek: bv8): bv8 {
    ((compareWeek & 0x40) >> 6) | ((compareWeek & 0x3F) << 1) | (compareWeek & 0x80)
  }

  lemma CompareIsOnDay(mask: bv8, week: nat)
    requires week < 7
    ensures CompareWeekData(mask, week) <==> OnDay(mask, week)
  {
  }

  /** The rotated mask holds on a day exactly when the mask holds on the day before. */
  lemma RotationIsNextDay(mask: bv8, week: nat)
    requires week < 7
    ensures CompareWeekData(AddOneDay(mask), (week + 1) % 7) <==> OnDay(mask, week)
    ensures Repeating(AddOneDay(mask)) <==> Repeating(mask)
  {
  }

  /** The days of a mask, bit by bit: Sunday is day 0. */
  lemma DaysOfMask(mask: bv8)
    ensures OnDay(mask, 0) <==> mask == 0 || mask == 0x80 || mask & 0x40 != 0
    ensures OnDay(mask, 1) <==> mask == 0 || mask == 0x80 || mask & 0x01 != 0
    ensures OnDay(mask, 2) <==> mask == 0 || mask == 0x80 || mask & 0x02 != 0
    ensures OnDay(mask, 3) <==> mask == 0 || mask == 0x80 || mask & 0x04 != 0
    ensures OnDay(mask, 4) <==> mask == 0 || mask == 0x80 || mask & 0x08 != 0
    ensures OnDay(mask, 5) <==> mask == 0 || mask == 0x80 || mask & 0x10 != 0
    ensures OnDay(mask, 6) <==> mask == 0 || mask == 0x80 || mask & 0x20 != 0
  {
  }

  /** The active flag is the highest bit, and switching off clears it and nothing else. */
  lemma FlagOfMask(mask: bv8)
    ensures Active(mask) <==> mask >= 0x80
    ensures Deactivated(mask) == if mask >= 0x80 then mask - 0x80 else mask
  {
  }

  lemma DeactivatedIsInactive(mask: bv8)
    ensures !Active(Deactivated(mask)) && (Repeating(Deactivated(mask)) <==> Repeating(mask))
  {
  }
}
