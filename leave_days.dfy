/** The leave form's day count and resumption date (static/js/main4.js,
    `calculateDaysAndResumption`).

    A calendar date is a day number: day 0 is Thursday 1 January 1970 and
    consecutive days have consecutive numbers, so the weekday is a residue
    modulo 7 numbered as `Date.prototype.getDay` numbers it (0 is Sunday). */
module LeaveDays {
  import opened Wrappers

  type Day = int

  /** `getDay()` of a date: 0 for Sunday through 6 for Saturday. */
  function Weekday(d: Day): (w: nat)
    ensures w < 7
  {
    (d + 4) % 7
  }

  predicate IsSunday(d: Day) {
    Weekday(d) == 0
  }

  /** Number of days in the inclusive range [lo, hi]. */
  function RangeLength(lo: Day, hi: Day): nat {
    if hi < lo then 0 else hi - lo + 1
  }

  /** The days of [lo, hi] that are not Sundays. */
  ghost function NonSundaysIn(lo: Day, hi: Day): set<Day> {
    set d | lo <= d <= hi && !IsSunday(d)
  }

  /** Counts the non-Sunday days of [lo, hi] from the top end down. */
  function NonSundayCount(lo: Day, hi: Day): (n: nat)
    ensures n <= RangeLength(lo, hi)
    decreases RangeLength(lo, hi)
  {
    if hi < lo then 0
    else NonSundayCount(lo, hi - 1) + (if IsSunday(hi) then 0 else 1)
  }

  /** The first day after `end` that is not a Sunday. */
  function ResumptionDate(end: Day): (r: Day)
    ensures end < r <= end + 2
    ensures !IsSunday(r)
    ensures forall d :: end < d < r ==> IsSunday(d)
  {
    if IsSunday(end + 1) then end + 2 else end + 1
  }

  /** What the form displays: the day count and the resumption date. */
  datatype LeaveSummary = LeaveSummary(dayCount: nat, resumption: Day)

  /** `calculateDaysAndResumption`. A date field that does not parse gives an
      Invalid Date, modelled as `None`; comparing with it is false, so nothing
      is displayed. Otherwise, when the end is not before the start, the loop
      walks every day of the range counting the ones that are not Sundays, and
      the resumption date is the day after the end, pushed past a Sunday. */
  method CalculateDaysAndResumption(start: Option<Day>, end: Option<Day>)
    returns (summary: Option<LeaveSummary>)
    ensures summary.Some? <==> start.Some? && end.Some? && start.value <= end.value
    ensures summary.Some? ==>
      var (s, e) := (start.value, end.value);
      && summary.value.dayCount == NonSundayCount(s, e) == |NonSundaysIn(s, e)|
      && summary.value.dayCount <= e - s + 1
      && summary.value.resumption == ResumptionDate(e)
      && e < summary.value.resumption <= e + 2
      && !IsSunday(summary.value.resumption)
  {
    if start.Some? && end.Some? && end.value >= start.value {
      var s, e := start.value, end.value;
      var dayCount := 0;
      var current := s;
      while current <= e
        invariant s <= current <= e + 1
        invariant dayCount == NonSundayCount(s, current - 1)
        decreases e - current
      {
        if Weekday(current) != 0 {
          dayCount := dayCount + 1;
        }
        current := current + 1;
      }
      var resume := e + 1;
      if Weekday(resume) == 0 {
        resume := resume + 1;
      }
      NonSundayCountIsCardinality(s, e);
      summary := Some(LeaveSummary(dayCount, resume));
    } else {
      summary := None;
    }
  }

  // ---------------------------------------------------------------------
  // Properties of the count

  /** The count is the number of non-Sunday days in the inclusive range. */
  lemma {:induction false} NonSundayCountIsCardinality(lo: Day, hi: Day)
    ensures NonSundayCount(lo, hi) == |NonSundaysIn(lo, hi)|
    decreases RangeLength(lo, hi)
  {
    if hi < lo {
      assert NonSundaysIn(lo, hi) == {};
    } else {
      NonSundayCountIsCardinality(lo, hi - 1);
      if IsSunday(hi) {
        assert NonSundaysIn(lo, hi) == NonSundaysIn(lo, hi - 1);
      } else {
        assert NonSundaysIn(lo, hi) == NonSundaysIn(lo, hi - 1) + {hi};
      }
    }
  }

  /** Every day counts exactly when the range holds no Sunday; one Sunday
      in the range puts the count strictly below the range length. */
  lemma {:induction false} FullCountIffNoSunday(lo: Day, hi: Day)
    ensures NonSundayCount(lo, hi) == RangeLength(lo, hi)
            <==> forall d :: lo <= d <= hi ==> !IsSunday(d)
    decreases RangeLength(lo, hi)
  {
    if hi >= lo {
      FullCountIffNoSunday(lo, hi - 1);
    }
  }

  /** The count of a range split at `mid` is the sum of the counts of the parts. */
  lemma {:induction false} NonSundayCountSplit(lo: Day, mid: Day, hi: Day)
    requires lo - 1 <= mid <= hi
    ensures NonSundayCount(lo, hi) == NonSundayCount(lo, mid) + NonSundayCount(mid + 1, hi)
    decreases hi - mid
  {
    if mid < hi {
      NonSundayCountSplit(lo, mid, hi - 1);
    }
  }

  /** Any seven consecutive days hold exactly one Sunday, so six of them count. */
  lemma OneWeekCountsSix(lo: Day)
    ensures NonSundayCount(lo, lo + 6) == 6
  {
    WeekdayShift(lo, 1); WeekdayShift(lo, 2); WeekdayShift(lo, 3);
    WeekdayShift(lo, 4); WeekdayShift(lo, 5); WeekdayShift(lo, 6);
    assert NonSundayCount(lo, lo + 6) == NonSundayCount(lo, lo + 5) + (if IsSunday(lo + 6) then 0 else 1);
    assert NonSundayCount(lo, lo + 5) == NonSundayCount(lo, lo + 4) + (if IsSunday(lo + 5) then 0 else 1);
    assert NonSundayCount(lo, lo + 4) == NonSundayCount(lo, lo + 3) + (if IsSunday(lo + 4) then 0 else 1);
    assert NonSundayCount(lo, lo + 3) == NonSundayCount(lo, lo + 2) + (if IsSunday(lo + 3) then 0 else 1);
    assert NonSundayCount(lo, lo + 2) == NonSundayCount(lo, lo + 1) + (if IsSunday(lo + 2) then 0 else 1);
    assert NonSundayCount(lo, lo + 1) == NonSundayCount(lo, lo) + (if IsSunday(lo + 1) then 0 else 1);
    assert NonSundayCount(lo, lo) == NonSundayCount(lo, lo - 1) + (if IsSunday(lo) then 0 else 1);
  }

  /** Moving `k` days forward moves the weekday `k` places round the week. */
  lemma WeekdayShift(d: Day, k: nat)
    ensures Weekday(d + k) == (Weekday(d) + k) % 7
  {
  }

  /** A leave of `w` whole weeks counts six days per week. */
  lemma {:induction false} WholeWeeksCountSixPerWeek(lo: Day, w: nat)
    ensures NonSundayCount(lo, lo + 7 * w - 1) == 6 * w
  {
    if w > 0 {
      WholeWeeksCountSixPerWeek(lo, w - 1);
      NonSundayCountSplit(lo, lo + 7 * (w - 1) - 1, lo + 7 * w - 1);
      OneWeekCountsSix(lo + 7 * (w - 1));
    }
  }

  // ---------------------------------------------------------------------
  // Properties of the resumption date

  /** A leave ending on a Saturday resumes on the Monday after; a leave
      ending on any other day resumes the next day. */
  lemma ResumptionByWeekday(end: Day)
    ensures Weekday(end) == 6 ==> ResumptionDate(end) == end + 2 && Weekday(ResumptionDate(end)) == 1
    ensures Weekday(end) != 6 ==> ResumptionDate(end) == end + 1
  {
  }
}
