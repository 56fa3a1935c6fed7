/** The day planner of src/screens/Main/Schedule.tsx: a strip of days around
    today, a month grid in a calendar modal, and a title search over the
    day's schedules. Moments are milliseconds on the local time line. */
module Schedule {
  import opened Wrappers
  import opened Seqs
  import opened Text
  import opened Dates
  import opened IsoDate
  import opened ScheduleCards

  // ---- the month grid ----------------------------------------------------

  /** `moment(t).startOf('month')` as a date: the first of the month of `t`. */
  function MonthStart(t: int): (d: Date)
    ensures ValidDate(d) && d.day == 1
    ensures d.year == DateOf(t).year && d.month == DateOf(t).month
  {
    Date(DateOf(t).year, DateOf(t).month, 1)
  }

  /** `firstDay.day()`: the number of blank cells before day 1 (0 = Sunday). */
  function StartOffset(t: int): (n: int)
    ensures 0 <= n <= 6
  {
    Weekday(MonthStart(t))
  }

  /** `currentMonth.daysInMonth()`. */
  function MonthLength(t: int): (n: int)
    ensures 28 <= n <= 31 && n == DaysInMonth(DateOf(t).year, DateOf(t).month)
  {
    DaysInMonth(DateOf(t).year, DateOf(t).month)
  }

  /** `generateCalendarDays`: one blank per weekday before the first of the
      month, then the month's days in order, each at `currentMonth`'s time
      of day. */
  method GenerateCalendarDays(currentMonth: int) returns (days: seq<Option<int>>)
    ensures |days| == StartOffset(currentMonth) + MonthLength(currentMonth)
    ensures forall k :: 0 <= k < StartOffset(currentMonth) ==> days[k] == None
    ensures forall i :: 1 <= i <= MonthLength(currentMonth) ==>
              days[StartOffset(currentMonth) + i - 1] == Some(WithDayOfMonth(currentMonth, i))
  {
    var startOffset := StartOffset(currentMonth);
    var daysInMonth := MonthLength(currentMonth);
    days := [];
    var i := 0;
    while i < startOffset
      invariant 0 <= i <= startOffset
      invariant |days| == i
      invariant forall k :: 0 <= k < i ==> days[k] == None
    {
      days := days + [None];
      i := i + 1;
    }
    i := 1;
    while i <= daysInMonth
      invariant 1 <= i <= daysInMonth + 1
      invariant |days| == startOffset + i - 1
      invariant forall k :: 0 <= k < startOffset ==> days[k] == None
      invariant forall j :: 1 <= j < i ==> days[startOffset + j - 1] == Some(WithDayOfMonth(currentMonth, j))
    {
      days := days + [Some(WithDayOfMonth(currentMonth, i))];
      i := i + 1;
    }
  }

  /** The grid lines up with its Su..Sa header: day `i` sits in the column
      of its own weekday. */
  lemma GridColumnIsWeekday(t: int, i: int)
    requires 1 <= i <= MonthLength(t)
    ensures Weekday(DateOf(WithDayOfMonth(t, i))) == (StartOffset(t) + i - 1) % 7
  {
    WithDayOfMonthDate(t, i);
    WeekdayInMonth(MonthStart(t), i);
  }

  /** Day `i` of a month falls `i - 1` weekdays after its first day. */
  lemma WeekdayInMonth(first: Date, i: int)
    requires ValidDate(first) && first.day == 1
    requires 1 <= i <= DaysInMonth(first.year, first.month)
    ensures Weekday(Date(first.year, first.month, i)) == (Weekday(first) + i - 1) % 7
  {
    var d := Date(first.year, first.month, i);
    var n := DayNumber(first) + 4;
    assert DayNumber(d) + 4 == n + i - 1;
    WeekdayByDayNumber(first);
    WeekdayByDayNumber(d);
    ModSevenAdd(n, i - 1);
  }

  lemma ModSevenAdd(a: int, b: int)
    ensures (a % 7 + b) % 7 == (a + b) % 7
  {
    ModSevenShift(a % 7 + b, a / 7);
  }

  // ---- the strip of days -------------------------------------------------

  /** `visibleDates`: 31 moments a day apart, today in the middle. */
  function VisibleDates(now: int): (r: seq<int>)
    ensures |r| == 31 && r[15] == now
    ensures forall k :: 0 <= k < 31 ==> r[k] / DayMs == now / DayMs + k - 15 && TimeOfDay(r[k]) == TimeOfDay(now)
  {
    seq(31, (k: int) => AddDaysAt(now, k - 15))
  }

  /** The instant a day later falls on the next calendar day. */
  lemma DayLater(t: int)
    ensures DateOf(t + DayMs) == NextDay(DateOf(t))
  {
    DayNumberInjective(DateOf(t + DayMs), NextDay(DateOf(t)));
  }

  /** The strip holds consecutive calendar days. */
  lemma VisibleDatesConsecutive(now: int, k: int)
    requires 0 <= k < 30
    ensures DateOf(VisibleDates(now)[k + 1]) == NextDay(DateOf(VisibleDates(now)[k]))
  {
    var r := VisibleDates(now);
    assert r[k + 1] == r[k] + DayMs;
    DayLater(r[k]);
  }

  /** `a.format('YYYY-MM-DD') === b.format('YYYY-MM-DD')`: the test behind
      `isSelected` and `isToday`. */
  predicate IsSameDay(a: int, b: int)
    ensures a / DayMs == b / DayMs ==> IsSameDay(a, b)
  {
    FormatIso(DateOf(a)) == FormatIso(DateOf(b))
  }

  /** For four-digit years the test compares calendar days and nothing else:
      the time of day plays no part. */
  lemma SameDayMeaning(a: int, b: int)
    requires 0 <= DateOf(a).year <= 9999 && 0 <= DateOf(b).year <= 9999
    ensures IsSameDay(a, b) <==> a / DayMs == b / DayMs
  {
    FormatInjective(DateOf(a), DateOf(b));
    SameDateIffSameDay(a, b);
  }

  /** Only the middle of the strip is drawn as today. */
  lemma TodayIsCentre(now: int, k: int)
    requires 0 <= k < 31
    requires 0 <= DateOf(VisibleDates(now)[k]).year <= 9999 && 0 <= DateOf(now).year <= 9999
    ensures IsSameDay(VisibleDates(now)[k], now) <==> k == 15
  {
    SameDayMeaning(VisibleDates(now)[k], now);
  }

  // ---- search --------------------------------------------------------------

  /** The search effect: a blank text shows every schedule; otherwise the
      schedules whose lowercased title contains the lowercased text. */
  function SearchSchedules(all: seq<ScheduleItem>, searchText: string): seq<ScheduleItem>
  {
    if Trim(searchText) == "" then all
    else Filter(all, (s: ScheduleItem) => Contains(Lower(s.title), Lower(searchText)))
  }

  /** A blank text (spaces, tabs, line breaks) keeps the whole list; any other
      text keeps exactly the schedules whose lowercased title contains the
      lowercased text, untrimmed; either way the order is kept. */
  lemma SearchSchedulesMeaning(all: seq<ScheduleItem>, searchText: string)
    ensures AllWhitespace(searchText) ==> SearchSchedules(all, searchText) == all
    ensures !AllWhitespace(searchText) ==>
              forall s :: s in SearchSchedules(all, searchText) <==> s in all && Contains(Lower(s.title), Lower(searchText))
    ensures forall s :: multiset(SearchSchedules(all, searchText))[s] ==
              if AllWhitespace(searchText) || Contains(Lower(s.title), Lower(searchText)) then multiset(all)[s] else 0
    ensures IsSubsequence(SearchSchedules(all, searchText), all)
  {
    var matching := (s: ScheduleItem) => Contains(Lower(s.title), Lower(searchText));
    FilterCounts(all, matching);
    TrimEmptyIffBlank(searchText);
    FilterMembershipAll(all, matching);
    FilterIsSubsequence(all, matching);
    SubsequenceReflexive(all);
    assert SearchSchedules(all, searchText) == if Trim(searchText) == "" then all else Filter(all, matching);
  }

  // ---- month navigation ----------------------------------------------------

  /** `changeMonth(n)` then `changeMonth(-n)` comes back to the same month. */
  lemma ChangeMonthBack(t: int, n: int)
    ensures MonthIndex(DateOf(AddMonthsAt(t, n))) == MonthIndex(DateOf(t)) + n
    ensures DateOf(AddMonthsAt(AddMonthsAt(t, n), -n)).year == DateOf(t).year
    ensures DateOf(AddMonthsAt(AddMonthsAt(t, n), -n)).month == DateOf(t).month
  {
    AddMonthsRoundTrip(DateOf(t), n);
  }

  // ---- the screen ------------------------------------------------------------

  class ScheduleScreen {
    var allSchedule: seq<ScheduleItem>
    var filteredSchedule: seq<ScheduleItem>
    var searchText: string
    var isLoading: bool
    var selectedDate: int
    var showSearch: bool
    var showCalendar: bool
    var currentMonth: int

    /** The first render. The selected moment and the shown month come from
        two separate clock reads, `selectedNow` and `monthNow`, which differ
        when the clock moves between them. */
    constructor(selectedNow: int, monthNow: int)
      ensures allSchedule == [] && filteredSchedule == [] && searchText == "" && isLoading
      ensures selectedDate == selectedNow && currentMonth == monthNow && !showSearch && !showCalendar
    {
      allSchedule := [];
      filteredSchedule := [];
      searchText := "";
      isLoading := true;
      selectedDate := selectedNow;
      showSearch := false;
      showCalendar := false;
      currentMonth := monthNow;
    }

    /** The end of `fetchScheduleData`: `data` replaces both lists. */
    method ReceiveSchedules(data: seq<ScheduleItem>)
      modifies this
      ensures allSchedule == data && filteredSchedule == data && !isLoading
      ensures searchText == old(searchText) && selectedDate == old(selectedDate) && currentMonth == old(currentMonth)
      ensures showSearch == old(showSearch) && showCalendar == old(showCalendar)
    {
      allSchedule := data;
      filteredSchedule := data;
      isLoading := false;
    }

    /** The search effect, which follows a change of the text or the list. */
    method ApplySearch()
      modifies this
      ensures filteredSchedule == SearchSchedules(old(allSchedule), old(searchText))
      ensures allSchedule == old(allSchedule) && searchText == old(searchText) && isLoading == old(isLoading)
      ensures selectedDate == old(selectedDate) && currentMonth == old(currentMonth)
      ensures showSearch == old(showSearch) && showCalendar == old(showCalendar)
    {
      var r := SearchSchedules(allSchedule, searchText);
      filteredSchedule := r;
    }

    /** Typing in the search box (`text`), or `clearSearch` (`text` empty). */
    method SetSearchText(text: string)
      modifies this
      ensures searchText == text
      ensures allSchedule == old(allSchedule) && filteredSchedule == old(filteredSchedule) && isLoading == old(isLoading)
      ensures selectedDate == old(selectedDate) && currentMonth == old(currentMonth)
      ensures showSearch == old(showSearch) && showCalendar == old(showCalendar)
    {
      searchText := text;
    }

    /** The search icon opens the search bar; its close button (`open`
        false) hides it. The search text is kept either way. */
    method SetSearchOpen(open: bool)
      modifies this
      ensures showSearch == open
      ensures allSchedule == old(allSchedule) && filteredSchedule == old(filteredSchedule) && searchText == old(searchText)
      ensures isLoading == old(isLoading) && selectedDate == old(selectedDate) && currentMonth == old(currentMonth)
      ensures showCalendar == old(showCalendar)
    {
      showSearch := open;
    }

    /** The calendar button opens the modal; closing it (`open` false) is the
        back action and the Close button. */
    method SetCalendarOpen(open: bool)
      modifies this
      ensures showCalendar == open
      ensures allSchedule == old(allSchedule) && filteredSchedule == old(filteredSchedule) && searchText == old(searchText)
      ensures isLoading == old(isLoading) && selectedDate == old(selectedDate) && currentMonth == old(currentMonth)
      ensures showSearch == old(showSearch)
    {
      showCalendar := open;
    }

    /** Pressing a day of the strip. */
    method SelectStripDate(date: int)
      modifies this
      ensures selectedDate == date
      ensures allSchedule == old(allSchedule) && filteredSchedule == old(filteredSchedule) && searchText == old(searchText)
      ensures isLoading == old(isLoading) && currentMonth == old(currentMonth)
      ensures showSearch == old(showSearch) && showCalendar == old(showCalendar)
    {
      selectedDate := date;
    }

    /** Pressing a day of the month grid selects it and closes the calendar. */
    method PressCalendarDay(day: int)
      modifies this
      ensures selectedDate == day && !showCalendar
      ensures allSchedule == old(allSchedule) && filteredSchedule == old(filteredSchedule) && searchText == old(searchText)
      ensures isLoading == old(isLoading) && currentMonth == old(currentMonth) && showSearch == old(showSearch)
    {
      selectedDate := day;
      showCalendar := false;
    }

    /** `changeMonth`: the month shown moves by `amount` months, signed. */
    method ChangeMonth(amount: int)
      modifies this
      ensures currentMonth == AddMonthsAt(old(currentMonth), amount)
      ensures MonthIndex(DateOf(currentMonth)) == MonthIndex(DateOf(old(currentMonth))) + amount
      ensures allSchedule == old(allSchedule) && filteredSchedule == old(filteredSchedule) && searchText == old(searchText)
      ensures isLoading == old(isLoading) && selectedDate == old(selectedDate)
      ensures showSearch == old(showSearch) && showCalendar == old(showCalendar)
    {
      currentMonth := AddMonthsAt(currentMonth, amount);
    }

    /** The "Today" button. The selected moment and the shown month come
        from two separate clock reads, `selectedNow` and `monthNow`. */
    method GoToToday(selectedNow: int, monthNow: int)
      modifies this
      ensures selectedDate == selectedNow && currentMonth == monthNow && !showCalendar
      ensures allSchedule == old(allSchedule) && filteredSchedule == old(filteredSchedule) && searchText == old(searchText)
      ensures isLoading == old(isLoading) && showSearch == old(showSearch)
    {
      selectedDate := selectedNow;
      currentMonth := monthNow;
      showCalendar := false;
    }
  }
}
