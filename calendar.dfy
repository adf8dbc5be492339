/** The `Calendar` component: month and year navigation, day selection, and the placement
    of the week-day header and the days of the displayed month into a seven-column grid. */
module Calendar {
  import opened Wrappers

  /** A `datetime.date`. */
  datatype Date = Date(year: int, month: int, day: int)

  /** The year range of Python's `datetime.date` (MINYEAR, MAXYEAR). */
  const MinYear := 1
  const MaxYear := 9999

  /** Whether `date(year, month, day)` constructs a date, where `daysInMonth` is
      `calendar.monthrange(year, month)[1]`. */
  predicate ValidDate(year: int, month: int, day: int, daysInMonth: int) {
    MinYear <= year <= MaxYear && 1 <= month <= 12 && 1 <= day <= daysInMonth
  }

  /** Months counted from year 0, January: consecutive months differ by one. */
  function MonthIndex(year: int, month: int): int {
    year * 12 + (month - 1)
  }

  // ---------------------------------------------------------------------------
  // Month and year stepping, on (year, month) pairs

  /** `_on_switch_to_previous_month`: the month is decremented; 0 becomes 12 of the
      previous year. */
  function PreviousMonth(year: int, month: int): (int, int) {
    if month - 1 == 0 then (year - 1, 12) else (year, month - 1)
  }

  /** `_on_switch_to_next_month` as the source writes it: the month is incremented and
      the wrap test is `== 12`, so 11 becomes 1 of the next year and 12 becomes 13. */
  function NextMonthAsWritten(year: int, month: int): (r: (int, int))
    ensures month != 11 ==> r == (year, month + 1) && MonthIndex(r.0, r.1) == MonthIndex(year, month) + 1
    ensures month == 11 ==> r == (year + 1, 1) && MonthIndex(r.0, r.1) == MonthIndex(year, month) + 2
  {
    if month + 1 == 12 then (year + 1, 1) else (year, month + 1)
  }

  /** The evidently intended next-month step: 13 becomes 1 of the next year. */
  function NextMonth(year: int, month: int): (int, int) {
    if month + 1 == 13 then (year + 1, 1) else (year, month + 1)
  }

  /** Stepping back from a real month gives a real month, exactly one month earlier. */
  lemma PreviousMonthStepsBack(year: int, month: int)
    requires 1 <= month <= 12
    ensures 1 <= PreviousMonth(year, month).1 <= 12
    ensures MonthIndex(PreviousMonth(year, month).0, PreviousMonth(year, month).1) == MonthIndex(year, month) - 1
  {
  }

  /** The intended next-month step gives a real month, exactly one month later, and
      undoes the previous-month step. */
  lemma NextMonthStepsForward(year: int, month: int)
    requires 1 <= month <= 12
    ensures 1 <= NextMonth(year, month).1 <= 12
    ensures MonthIndex(NextMonth(year, month).0, NextMonth(year, month).1) == MonthIndex(year, month) + 1
    ensures NextMonth(PreviousMonth(year, month).0, PreviousMonth(year, month).1) == (year, month)
    ensures PreviousMonth(NextMonth(year, month).0, NextMonth(year, month).1) == (year, month)
  {
  }

  /** As written, the next-month step skips December: from November it lands on January
      of the next year, two months later; and from December it reaches month 13, which
      no `date` accepts. */
  lemma NextMonthAsWrittenSkipsDecember(year: int)
    ensures NextMonthAsWritten(year, 11) == (year + 1, 1)
    ensures MonthIndex(year + 1, 1) == MonthIndex(year, 11) + 2
    ensures NextMonthAsWritten(year, 12) == (year, 13)
    ensures forall d, n :: !ValidDate(year, 13, d, n)
  {
  }

  /** Only the November and December cases differ from the intended step. */
  lemma NextMonthAsWrittenAgrees(year: int, month: int)
    requires 1 <= month <= 10
    ensures NextMonthAsWritten(year, month) == NextMonth(year, month)
  {
  }

  /** The four navigation buttons of the calendar's header row. */
  datatype Navigation = PreviousYearButton | PreviousMonthButton | NextMonthButton | NextYearButton

  /** How many months a button moves the displayed month, as intended. */
  function MonthsMoved(button: Navigation): int {
    match button
    case PreviousYearButton => -12
    case PreviousMonthButton => -1
    case NextMonthButton => 1
    case NextYearButton => 12
  }

  function TotalMonthsMoved(buttons: seq<Navigation>): int {
    if buttons == [] then 0 else TotalMonthsMoved(buttons[..|buttons| - 1]) + MonthsMoved(buttons[|buttons| - 1])
  }

  /** The displayed (year, month) after pressing `buttons` in order, with the intended
      next-month step. */
  function Navigate(year: int, month: int, buttons: seq<Navigation>): (int, int) {
    if buttons == [] then (year, month)
    else
      var (y, m) := Navigate(year, month, buttons[..|buttons| - 1]);
      match buttons[|buttons| - 1]
      case PreviousYearButton => (y - 1, m)
      case PreviousMonthButton => PreviousMonth(y, m)
      case NextMonthButton => NextMonth(y, m)
      case NextYearButton => (y + 1, m)
  }

  /** With the intended step, any sequence of button presses keeps the displayed month a
      real month, and moves it by exactly the months the buttons stand for. */
  lemma {:induction false} NavigationKeepsMonthReal(year: int, month: int, buttons: seq<Navigation>)
    requires 1 <= month <= 12
    ensures 1 <= Navigate(year, month, buttons).1 <= 12
    ensures MonthIndex(Navigate(year, month, buttons).0, Navigate(year, month, buttons).1)
         == MonthIndex(year, month) + TotalMonthsMoved(buttons)
  {
    if buttons != [] {
      NavigationKeepsMonthReal(year, month, buttons[..|buttons| - 1]);
      var (y, m) := Navigate(year, month, buttons[..|buttons| - 1]);
      PreviousMonthStepsBack(y, m);
      NextMonthStepsForward(y, m);
    }
  }

  // ---------------------------------------------------------------------------
  // Grid placement

  /** `day_shift`: how far the first day of the month is shifted in the grid, from
      `date.weekday()` of the first (0 is Monday) and the session's first day of the
      week. Python's `%` with a positive modulus agrees with Dafny's. */
  function DayShift(weekdayOfFirst: int, firstDayOfWeek: int): (shift: int)
    ensures 0 <= shift <= 6
  {
    (weekdayOfFirst - firstDayOfWeek + 6) % 7
  }

  /** The grid cell of `day` (one-indexed), as `add_for_day` computes it. */
  function CellOf(day: int, shift: int): (cell: (int, int))
    requires 0 <= shift <= 6
    ensures 0 <= cell.1 <= 6
    ensures day >= 1 ==> cell.0 >= 4
    ensures 7 * (cell.0 - 4) + cell.1 == day + shift
  {
    var linearIndex := day + shift;
    (linearIndex / 7 + 4, linearIndex % 7)
  }

  /** Distinct days land in distinct cells. */
  lemma CellsDistinct(d1: int, d2: int, shift: int)
    requires 0 <= shift <= 6 && d1 != d2
    ensures CellOf(d1, shift) != CellOf(d2, shift)
  {
    var c1, c2 := CellOf(d1, shift), CellOf(d2, shift);
    assert 7 * (c1.0 - 4) + c1.1 != 7 * (c2.0 - 4) + c2.1;
  }

  /** Each day sits in the column whose header names its weekday: header column `c`
      shows the name with index `(c + firstDayOfWeek) % 7`, and that index is the
      weekday of `day`. */
  lemma DayUnderItsWeekday(day: int, weekdayOfFirst: int, firstDayOfWeek: int)
    ensures (CellOf(day, DayShift(weekdayOfFirst, firstDayOfWeek)).1 + firstDayOfWeek) % 7
         == (weekdayOfFirst + day - 1) % 7
  {
    var shift := DayShift(weekdayOfFirst, firstDayOfWeek);
    var col := CellOf(day, shift).1;
    var k := (weekdayOfFirst - firstDayOfWeek + 6) / 7;
    var q := (day + shift) / 7;
    assert shift == weekdayOfFirst - firstDayOfWeek + 6 - 7 * k;
    assert col == day + shift - 7 * q;
    assert col + firstDayOfWeek == (weekdayOfFirst + day - 1) + 7 * (1 - k - q);
    ModShift(weekdayOfFirst + day - 1, 1 - k - q);
  }

  lemma ModShift(a: int, m: int)
    ensures (a + 7 * m) % 7 == a % 7
  {
  }

  /** `str.upper` on one character, for the ASCII letters. */
  function UpperChar(c: char): char {
    if 'a' <= c <= 'z' then (c as int - 32) as char else c
  }

  /** The label of a week-day column: the first character of the day's name, upper-cased,
      or nothing for an empty name (the names are supplied by the client). */
  function ShortName(name: string): (short: string)
    ensures |short| == if name == [] then 0 else 1
    ensures name != [] && 'a' <= name[0] <= 'z' ==> 'A' <= short[0] <= 'Z' && short[0] as int + 32 == name[0] as int
    ensures name != [] && !('a' <= name[0] <= 'z') ==> short == name[..1]
  {
    if name == [] then [] else [UpperChar(name[0])]
  }

  /** One day of the displayed month in the grid. */
  datatype DayCell = DayCell(day: int, row: int, column: int, selected: bool)

  /** What `build` lays out: the seven week-day labels and the day cells, in order. */
  datatype Grid = Grid(header: seq<string>, days: seq<DayCell>)

  /** Why `build` raises: the displayed month is not a real month (`date(...)` raises
      ValueError), or the client sent fewer day names than a header column indexes
      (IndexError). */
  datatype BuildError = InvalidDisplayedMonth | MissingDayName(index: int)

  /** The index of the day name that header column `column` shows. */
  function HeaderIndex(column: int, firstDayOfWeek: int): (i: int)
    ensures 0 <= i <= 6
  {
    (column + firstDayOfWeek) % 7
  }

  class Calendar {
    var value: Date
    var displayedMonth: int
    var displayedYear: int

    /** `__post_init__`: the displayed month is the month of the selected date. */
    constructor (value: Date)
      ensures this.value == value
      ensures displayedMonth == value.month && displayedYear == value.year
    {
      this.value := value;
      displayedMonth := value.month;
      displayedYear := value.year;
    }

    method SwitchToPreviousMonth()
      modifies this
      ensures (displayedYear, displayedMonth) == PreviousMonth(old(displayedYear), old(displayedMonth))
      ensures value == old(value)
    {
      displayedMonth := displayedMonth - 1;
      if displayedMonth == 0 {
        displayedMonth := 12;
        displayedYear := displayedYear - 1;
      }
    }

    /** `_on_switch_to_next_month` as written: the wrap test is `== 12`. */
    method SwitchToNextMonthAsWritten()
      modifies this
      ensures (displayedYear, displayedMonth) == NextMonthAsWritten(old(displayedYear), old(displayedMonth))
      ensures value == old(value)
    {
      displayedMonth := displayedMonth + 1;
      if displayedMonth == 12 {
        displayedMonth := 1;
        displayedYear := displayedYear + 1;
      }
    }

    /** `_on_switch_to_next_month` with the wrap test the code evidently intends. */
    method SwitchToNextMonth()
      modifies this
      ensures (displayedYear, displayedMonth) == NextMonth(old(displayedYear), old(displayedMonth))
      ensures value == old(value)
    {
      displayedMonth := displayedMonth + 1;
      if displayedMonth == 13 {
        displayedMonth := 1;
        displayedYear := displayedYear + 1;
      }
    }

    method SwitchToPreviousYear()
      modifies this
      ensures displayedYear == old(displayedYear) - 1
      ensures displayedMonth == old(displayedMonth) && value == old(value)
    {
      displayedYear := displayedYear - 1;
    }

    method SwitchToNextYear()
      modifies this
      ensures displayedYear == old(displayedYear) + 1
      ensures displayedMonth == old(displayedMonth) && value == old(value)
    {
      displayedYear := displayedYear + 1;
    }

    /** `_on_select_day`: the selected date becomes `day` of the displayed month, when
      `date(...)` accepts it; otherwise it raises and nothing changes. `daysInMonth` is
      `calendar.monthrange` of the displayed month. */
    method SelectDay(day: int, daysInMonth: int) returns (ok: bool)
      modifies this
      ensures ok == ValidDate(old(displayedYear), old(displayedMonth), day, daysInMonth)
      ensures value == if ok then Date(old(displayedYear), old(displayedMonth), day) else old(value)
      ensures displayedYear == old(displayedYear) && displayedMonth == old(displayedMonth)
    {
      ok := ValidDate(displayedYear, displayedMonth, day, daysInMonth);
      if ok {
        value := Date(displayedYear, displayedMonth, day);
      }
    }

    /** Whether `day` of the displayed month is the selected date. */
    predicate IsSelected(day: int): (r: bool)
      reads this
      ensures r <==> value == Date(displayedYear, displayedMonth, day)
    {
      day == value.day && displayedMonth == value.month && displayedYear == value.year
    }

    /** The week-day header and day cells of `build`. `dayNamesLong` are the client's
        day names (Monday first), `weekdayOfFirst` is `date.weekday()` of the first of
        the displayed month and `daysInMonth` its `calendar.monthrange` length. */
    method Build(dayNamesLong: seq<string>, firstDayOfWeek: int, weekdayOfFirst: int, daysInMonth: int)
      returns (r: Result<Grid, BuildError>)
      requires 0 <= weekdayOfFirst <= 6 && 28 <= daysInMonth <= 31
      ensures r == Failure(InvalidDisplayedMonth) <==> !ValidDate(displayedYear, displayedMonth, 1, daysInMonth)
      ensures r.Failure? && r.error.MissingDayName? ==>
                ValidDate(displayedYear, displayedMonth, 1, daysInMonth)
                && (exists c :: 0 <= c < 7 && r.error.index == HeaderIndex(c, firstDayOfWeek) &&
                      forall c' :: 0 <= c' < c ==> HeaderIndex(c', firstDayOfWeek) < |dayNamesLong|)
                && r.error.index >= |dayNamesLong|
      ensures r.Success? <==>
                ValidDate(displayedYear, displayedMonth, 1, daysInMonth)
                && forall c :: 0 <= c < 7 ==> HeaderIndex(c, firstDayOfWeek) < |dayNamesLong|
      ensures r.Success? ==>
                && |r.value.header| == 7
                && (forall c :: 0 <= c < 7 ==> r.value.header[c] == ShortName(dayNamesLong[HeaderIndex(c, firstDayOfWeek)]))
                && |r.value.days| == daysInMonth
                && (forall i :: 0 <= i < daysInMonth ==>
                      var cell := CellOf(i + 1, DayShift(weekdayOfFirst, firstDayOfWeek));
                      r.value.days[i] == DayCell(i + 1, cell.0, cell.1, IsSelected(i + 1)))
    {
      // The month title is built from `date(year, month, 1)`
      if !ValidDate(displayedYear, displayedMonth, 1, daysInMonth) {
        return Failure(InvalidDisplayedMonth);
      }

      var shortNames := seq(|dayNamesLong|, i requires 0 <= i < |dayNamesLong| => ShortName(dayNamesLong[i]));
      var header: seq<string> := [];
      for ii := 0 to 7
        invariant |header| == ii
        invariant forall c :: 0 <= c < ii ==> HeaderIndex(c, firstDayOfWeek) < |dayNamesLong|
        invariant forall c :: 0 <= c < ii ==> header[c] == ShortName(dayNamesLong[HeaderIndex(c, firstDayOfWeek)])
      {
        var index := (ii + firstDayOfWeek) % 7;
        if index >= |shortNames| {
          assert index == HeaderIndex(ii, firstDayOfWeek) &&
                 forall c' :: 0 <= c' < ii ==> HeaderIndex(c', firstDayOfWeek) < |dayNamesLong|;
          return Failure(MissingDayName(index));
        }
        header := header + [shortNames[index]];
      }

      var dayShift := (weekdayOfFirst - firstDayOfWeek + 6) % 7;
      var days: seq<DayCell> := [];
      for ii := 1 to daysInMonth + 1
        invariant |days| == ii - 1
        invariant forall i :: 0 <= i < ii - 1 ==>
                    var cell := CellOf(i + 1, dayShift);
                    days[i] == DayCell(i + 1, cell.0, cell.1, IsSelected(i + 1))
      {
        var isSelectedDay := ii == value.day && displayedMonth == value.month && displayedYear == value.year;
        var linearIndex := ii + dayShift;
        days := days + [DayCell(ii, linearIndex / 7 + 4, linearIndex % 7, isSelectedDay)];
      }
      return Success(Grid(header, days));
    }
  }

  /** At most one day of a grid is marked selected. */
  lemma AtMostOneSelected(cal: Calendar, days: seq<DayCell>, shift: int)
    requires 0 <= shift <= 6
    requires forall i :: 0 <= i < |days| ==>
               var cell := CellOf(i + 1, shift);
               days[i] == DayCell(i + 1, cell.0, cell.1, cal.IsSelected(i + 1))
    ensures forall i, j :: 0 <= i < j < |days| ==> !(days[i].selected && days[j].selected)
  {
  }

  /** In the grid of a selected date's own month, exactly its day is selected. */
  lemma SelectedDayIsMarked(cal: Calendar, days: seq<DayCell>, shift: int)
    requires 0 <= shift <= 6
    requires cal.displayedMonth == cal.value.month && cal.displayedYear == cal.value.year
    requires 1 <= cal.value.day <= |days|
    requires forall i :: 0 <= i < |days| ==>
               var cell := CellOf(i + 1, shift);
               days[i] == DayCell(i + 1, cell.0, cell.1, cal.IsSelected(i + 1))
    ensures days[cal.value.day - 1].selected
  {
  }

  /** As written, pressing "next month" in December and rebuilding makes `build` raise:
      the displayed month is 13. */
  method DecemberThenNextFailsBuild(cal: Calendar, dayNamesLong: seq<string>, firstDayOfWeek: int,
                                    weekdayOfFirst: int, daysInMonth: int)
    returns (r: Result<Grid, BuildError>)
    requires cal.displayedMonth == 12
    requires 0 <= weekdayOfFirst <= 6 && 28 <= daysInMonth <= 31
    modifies cal
    ensures r == Failure(InvalidDisplayedMonth)
  {
    cal.SwitchToNextMonthAsWritten();
    r := cal.Build(dayNamesLong, firstDayOfWeek, weekdayOfFirst, daysInMonth);
  }
}
