/** Calendar age in completed months (age.py, `age_in_months`). */
module Age {
  import opened Results

  /** A calendar date as Python's `datetime.date` holds it. */
  datatype Date = Date(year: int, month: int, day: int)

  datatype AgeError = ReferenceBeforeBirth

  predicate LeapYear(y: int) {
    y % 4 == 0 && (y % 100 != 0 || y % 400 == 0)
  }

  function DaysInMonth(y: int, m: int): (n: int)
    requires 1 <= m <= 12
    ensures 28 <= n <= 31
  {
    if m == 2 then (if LeapYear(y) then 29 else 28)
    else if m == 4 || m == 6 || m == 9 || m == 11 then 30
    else 31
  }

  /** Every `date` object Python can build: years 1..9999, real days only. */
  predicate ValidDate(d: Date) {
    && 1 <= d.year <= 9999
    && 1 <= d.month <= 12
    && 1 <= d.day <= DaysInMonth(d.year, d.month)
  }

  /** Python's `date.__lt__`: chronological, i.e. lexicographic on (year, month, day). */
  predicate Before(a: Date, b: Date) {
    || a.year < b.year
    || (a.year == b.year && a.month < b.month)
    || (a.year == b.year && a.month == b.month && a.day < b.day)
  }

  predicate NotAfter(a: Date, b: Date) {
    !Before(b, a)
  }

  /** Number of whole months from year 0, January, to the month of `d`. */
  function MonthIndex(d: Date): int {
    12 * d.year + d.month - 1
  }

  /** `age_in_months(birth, ref)`: fails when the reference date precedes the birth date,
      otherwise counts the month difference, one less when the day of month is not reached. */
  function AgeInMonths(birth: Date, ref: Date): (r: Result<int, AgeError>)
    requires ValidDate(birth) && ValidDate(ref)
    ensures r.Err? <==> Before(ref, birth)
    ensures r.Ok? ==> r.value >= 0
    ensures r.Ok? && ref.day >= birth.day ==> r.value == MonthIndex(ref) - MonthIndex(birth)
    ensures r.Ok? && ref.day < birth.day ==> r.value == MonthIndex(ref) - MonthIndex(birth) - 1
  {
    if Before(ref, birth) then Err(ReferenceBeforeBirth)
    else
      var months := (ref.year - birth.year) * 12 + (ref.month - birth.month);
      if ref.day < birth.day then Ok(months - 1) else Ok(months)
  }

  /** Independent reference: the date `n` months after `d`, keeping the day of month
      (it may name a day the month does not have, such as 31 February, which still
      compares correctly as a (year, month, day) triple). */
  function ShiftMonths(d: Date, n: int): (s: Date)
    ensures MonthIndex(s) == MonthIndex(d) + n
    ensures 1 <= s.month <= 12 && s.day == d.day
  {
    var idx := MonthIndex(d) + n;
    Date(idx / 12, idx % 12 + 1, d.day)
  }

  /** On dates with a real month, chronological order is order of (month index, day). */
  lemma BeforeByMonthIndex(a: Date, b: Date)
    requires 1 <= a.month <= 12 && 1 <= b.month <= 12
    ensures Before(a, b) <==>
      (MonthIndex(a) < MonthIndex(b) || (MonthIndex(a) == MonthIndex(b) && a.day < b.day))
  {
    if a.year < b.year {
      assert MonthIndex(a) < MonthIndex(b);
    } else if a.year > b.year {
      assert MonthIndex(a) > MonthIndex(b);
    }
  }

  /** The age is exactly the number of monthly anniversaries of the birth date reached by
      `ref`: the `n`-th anniversary is not after `ref` and the next one is after it. */
  lemma {:induction false} AgeIsCompletedMonths(birth: Date, ref: Date)
    requires ValidDate(birth) && ValidDate(ref) && NotAfter(birth, ref)
    ensures AgeInMonths(birth, ref).Ok?
    ensures var n := AgeInMonths(birth, ref).value;
      NotAfter(ShiftMonths(birth, n), ref) && Before(ref, ShiftMonths(birth, n + 1))
  {
    var n := AgeInMonths(birth, ref).value;
    BeforeByMonthIndex(ref, ShiftMonths(birth, n));
    BeforeByMonthIndex(ref, ShiftMonths(birth, n + 1));
  }

  /** For a fixed birth date the age never decreases as the reference date advances. */
  lemma {:induction false} AgeMonotone(birth: Date, ref1: Date, ref2: Date)
    requires ValidDate(birth) && ValidDate(ref1) && ValidDate(ref2)
    requires NotAfter(birth, ref1) && NotAfter(ref1, ref2)
    ensures AgeInMonths(birth, ref2).Ok?
    ensures AgeInMonths(birth, ref1).value <= AgeInMonths(birth, ref2).value
  {
    BeforeByMonthIndex(ref2, ref1);
    BeforeByMonthIndex(ref2, birth);
  }

  /** Worked examples: the day before and the day of a monthly anniversary, and a whole-day anniversary. */
  lemma BirthdayBoundaryExample()
    ensures AgeInMonths(Date(2015, 6, 15), Date(2022, 6, 14)) == Ok(83)
    ensures AgeInMonths(Date(2015, 6, 15), Date(2022, 6, 15)) == Ok(84)
    ensures AgeInMonths(Date(2016, 1, 10), Date(2023, 3, 10)) == Ok(86)
  {
  }
}
