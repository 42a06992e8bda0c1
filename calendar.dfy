/** Day arithmetic behind the recent-Sunday selector `get_past_n_sundays`.

    A date is its proleptic Gregorian ordinal, numbered the way Python's
    `date.toordinal()` numbers it (0001-01-01 is day 1), so subtracting a
    whole-day `timedelta` is integer subtraction. The `"%Y-%m-%d"` label of a
    date is not built here: a label is identified with its day number, which
    is sound because such labels compare lexicographically in the same order
    as the dates they name (RFC 3339, sections 5.1 and 5.6). */
module Calendar {

  type Day = int

  /** Number of weeks the job looks back, the default `n_sundays = 5`. */
  const PastWeekCount: nat := 5

  const Sunday: nat := 6

  /** `date.weekday()`: Monday is 0 and Sunday is 6 (day 1 was a Monday). */
  function Weekday(d: Day): (w: nat)
    ensures w < 7
    ensures (d - w) % 7 == 1
  {
    (d + 6) % 7
  }

  predicate IsSunday(d: Day) {
    Weekday(d) == Sunday
  }

  /** The Monday that starts the week containing `d`. */
  function WeekStart(d: Day): Day {
    d - Weekday(d)
  }

  /** Entry `i` of `get_past_n_sundays`: `today - (1 + 7*(i+1) + today.weekday())`. */
  function PastSunday(today: Day, i: int): Day {
    today - (1 + 7 * (i + 1) + Weekday(today))
  }

  /** `get_past_n_sundays(n)`, one date per `i` in `range(n)`, in that order. */
  function PastSundays(today: Day, n: nat): (r: seq<Day>)
    ensures |r| == n
  {
    seq(n, i => PastSunday(today, i))
  }

  /** Two days with the same weekday lie a whole number of weeks apart. */
  lemma {:induction false} SameWeekdayApart(a: Day, b: Day)
    requires Weekday(a) == Weekday(b) && a < b
    ensures (b - a) % 7 == 0 && b - a >= 7
  {
    var qa, qb := (a + 6) / 7, (b + 6) / 7;
    assert a + 6 == 7 * qa + Weekday(a);
    assert b + 6 == 7 * qb + Weekday(b);
    assert b - a == 7 * (qb - qa);
  }

  lemma {:induction false} PastSundayIsSunday(today: Day, i: int)
    ensures IsSunday(PastSunday(today, i))
  {
    var q := (today + 6) / 7;
    assert today + 6 == 7 * q + Weekday(today);
    var k := q - i - 2;
    assert PastSunday(today, i) + 6 == 7 * k + 6;
  }

  /** Every selected date is a Sunday; consecutive dates are one week apart,
      newest first; the newest lies between 14 and 8 days before today. */
  lemma {:induction false} PastSundaysShape(today: Day, n: nat)
    ensures forall i :: 0 <= i < n ==> IsSunday(PastSundays(today, n)[i])
    ensures forall i :: 0 <= i < n - 1 ==> PastSundays(today, n)[i + 1] == PastSundays(today, n)[i] - 7
    ensures forall i, j :: 0 <= i < j < n ==> PastSundays(today, n)[j] < PastSundays(today, n)[i]
    ensures n > 0 ==> today - 14 <= PastSundays(today, n)[0] <= today - 8
  {
    forall i | 0 <= i < n
      ensures IsSunday(PastSundays(today, n)[i])
    {
      PastSundayIsSunday(today, i);
    }
  }

  /** The selection is exactly the `n` latest Sundays that fall at least eight
      days before today: a date is selected iff it is such a Sunday and is no
      older than the last one selected. */
  lemma {:induction false} PastSundaysExactly(today: Day, n: nat, d: Day)
    ensures d in PastSundays(today, n) <==>
              n > 0 && IsSunday(d) && PastSunday(today, n - 1) <= d <= today - 8
  {
    var r := PastSundays(today, n);
    if d in r {
      var i :| 0 <= i < n && r[i] == d;
      PastSundayIsSunday(today, i);
    }
    if n > 0 && IsSunday(d) && PastSunday(today, n - 1) <= d <= today - 8 {
      var first := PastSunday(today, 0);
      PastSundayIsSunday(today, 0);
      if first < d {
        SameWeekdayApart(first, d);
        assert false;
      }
      var k := (first - d) / 7;
      if d < first {
        SameWeekdayApart(d, first);
      }
      assert first - d == 7 * k;
      assert 0 <= k < n;
      assert r[k] == d;
    }
  }

  /** The selection depends only on the week of `today`: any two days from
      Monday to Sunday of one week select the same dates. */
  lemma {:induction false} PastSundaysWithinWeek(today: Day, later: Day, n: nat)
    requires WeekStart(today) == WeekStart(later)
    ensures PastSundays(today, n) == PastSundays(later, n)
  {
    assert forall i :: 0 <= i < n ==> PastSundays(today, n)[i] == PastSundays(later, n)[i];
  }
}
