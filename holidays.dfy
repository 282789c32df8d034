/** The holiday calendar: a constant list of annual month/day windows and
    the resolver that picks today's holiday, with a named override that
    wins outright when it names a holiday of the list. */
module Holidays {
  import opened Wrappers

  /** A calendar day of the year: `month` is 1-12, `day` the day of the month. */
  datatype MonthDay = MonthDay(month: int, day: int)

  datatype Effect = Snow | Hearts | Fireworks | Confetti

  datatype Greeting = Greeting(title: string, message: string, emoji: string)

  datatype HolidayConfig = HolidayConfig(
    name: string,
    startDate: MonthDay,
    endDate: MonthDay,
    effect: Option<Effect>,
    accentColor: Option<string>,
    logoVariant: Option<string>,
    greeting: Greeting)

  const CHRISTMAS := HolidayConfig(
    "christmas", MonthDay(12, 1), MonthDay(12, 31),
    Some(Snow), Some("#c41e3a"), Some("christmas"),
    Greeting("Merry Christmas!",
      "Wishing you and your loved ones a joyful holiday season filled with peace and happiness.",
      "\U{1F384}"))

  const VALENTINES := HolidayConfig(
    "valentines", MonthDay(2, 10), MonthDay(2, 14),
    Some(Hearts), Some("#e91e63"), None,
    Greeting("Happy Valentine's Day!",
      "Spreading love and warmth to you and yours on this special day.",
      "\U{1F495}"))

  const INDEPENDENCE := HolidayConfig(
    "independence", MonthDay(7, 1), MonthDay(7, 4),
    Some(Fireworks), None, None,
    Greeting("Happy Independence Day!",
      "Celebrating freedom and the spirit of America. Have a safe and happy 4th of July!",
      "\U{1F386}"))

  const NEW_YEAR := HolidayConfig(
    "newYear", MonthDay(1, 1), MonthDay(1, 3),
    Some(Confetti), None, None,
    Greeting("Happy New Year!",
      "Wishing you a wonderful year ahead filled with success, health, and happiness.",
      "\U{1F389}"))

  /** The holidays in declaration order; the order decides ties. */
  const HOLIDAYS: seq<HolidayConfig> := [CHRISTMAS, VALENTINES, INDEPENDENCE, NEW_YEAR]

  /** Month-then-day order on calendar days: `d` is not after `e`. */
  predicate NotAfter(d: MonthDay, e: MonthDay) {
    d.month < e.month || (d.month == e.month && d.day <= e.day)
  }

  /** A window whose start month is later than its end month runs across New Year. */
  predicate Wraps(h: HolidayConfig) {
    h.startDate.month > h.endDate.month
  }

  /** Whether `now` falls in the window of `h`, tested the way the resolver
      tests it: a wrapping window by four alternatives, any other window by
      a lower and an upper bound. Both ends are inclusive. */
  function IsActive(h: HolidayConfig, now: MonthDay): (active: bool)
    ensures !Wraps(h) ==> (active <==> NotAfter(h.startDate, now) && NotAfter(now, h.endDate))
    ensures Wraps(h) ==> (active <==> NotAfter(h.startDate, now) || NotAfter(now, h.endDate))
  {
    var m, d := now.month, now.day;
    var s, e := h.startDate, h.endDate;
    if s.month > e.month then
      (m == s.month && d >= s.day) || m > s.month || m < e.month || (m == e.month && d <= e.day)
    else
      (m > s.month || (m == s.month && d >= s.day)) && (m < e.month || (m == e.month && d <= e.day))
  }

  /** `list.find(h => h.name === name)` as an index: the first holiday called
      `name`, or `|list|` when there is none. */
  function FirstNamed(list: seq<HolidayConfig>, name: string): (i: nat)
    ensures i <= |list|
    ensures i < |list| ==> list[i].name == name
    ensures forall j :: 0 <= j < i ==> list[j].name != name
  {
    if list == [] then 0
    else if list[0].name == name then 0
    else 1 + FirstNamed(list[1..], name)
  }

  /** The first holiday of `list` whose window holds `now`, or `|list|`. */
  function FirstActive(list: seq<HolidayConfig>, now: MonthDay): (i: nat)
    ensures i <= |list|
    ensures i < |list| ==> IsActive(list[i], now)
    ensures forall j :: 0 <= j < i ==> !IsActive(list[j], now)
  {
    if list == [] then 0
    else if IsActive(list[0], now) then 0
    else 1 + FirstActive(list[1..], now)
  }

  /** The override counts only when it is set to a non-empty string. */
  predicate OverrideSet(testHoliday: Option<string>) {
    testHoliday.Some? && testHoliday.value != ""
  }

  /** The holiday the resolver picks from `list`: a set override that names a
      holiday of the list wins; otherwise the first active window; otherwise none. */
  function Resolve(list: seq<HolidayConfig>, testHoliday: Option<string>, now: MonthDay): (r: Option<HolidayConfig>)
    ensures r.Some? ==> r.value in list
  {
    if OverrideSet(testHoliday) && FirstNamed(list, testHoliday.value) < |list| then
      Some(list[FirstNamed(list, testHoliday.value)])
    else
      var i := FirstActive(list, now);
      if i < |list| then Some(list[i]) else None
  }

  /** Today's holiday, given today's date and the override variable. */
  function CurrentHoliday(testHoliday: Option<string>, now: MonthDay): (r: Option<HolidayConfig>)
    ensures r.Some? ==> r.value in HOLIDAYS
    ensures r.None? ==> forall h :: h in HOLIDAYS ==> !IsActive(h, now)
    ensures !OverrideSet(testHoliday) ==> (r.None? <==> forall h :: h in HOLIDAYS ==> !IsActive(h, now))
  {
    DateMatchIsFirst(HOLIDAYS, now);
    Resolve(HOLIDAYS, testHoliday, now)
  }

  /** The resolver as the site runs it: the override lookup, then one pass over
      the holidays in order that returns at the first window holding `now`. */
  method GetCurrentHoliday(testHoliday: Option<string>, now: MonthDay) returns (r: Option<HolidayConfig>)
    ensures r == CurrentHoliday(testHoliday, now)
  {
    if OverrideSet(testHoliday) {
      var found := FirstNamed(HOLIDAYS, testHoliday.value);
      if found < |HOLIDAYS| {
        return Some(HOLIDAYS[found]);
      }
    }
    for k := 0 to |HOLIDAYS|
      invariant forall j :: 0 <= j < k ==> !IsActive(HOLIDAYS[j], now)
    {
      if IsActive(HOLIDAYS[k], now) {
        FirstActiveIs(HOLIDAYS, now, k);
        return Some(HOLIDAYS[k]);
      }
    }
    FirstActiveIs(HOLIDAYS, now, |HOLIDAYS|);
    return None;
  }

  /** Whether the current holiday exists and is called `holidayName`. */
  function IsHolidaySeason(testHoliday: Option<string>, now: MonthDay, holidayName: string): (b: bool)
    ensures b ==> exists h :: h in HOLIDAYS && h.name == holidayName
    ensures b <==> CurrentHoliday(testHoliday, now).Some? && CurrentHoliday(testHoliday, now).value.name == holidayName
  {
    var current := CurrentHoliday(testHoliday, now);
    current.Some? && current.value.name == holidayName
  }

  // ---------------------------------------------------------------------------
  // properties of the resolver

  /** `FirstActive` is pinned down by its two defining facts. */
  lemma FirstActiveIs(list: seq<HolidayConfig>, now: MonthDay, k: nat)
    requires k <= |list|
    requires k < |list| ==> IsActive(list[k], now)
    requires forall j :: 0 <= j < k ==> !IsActive(list[j], now)
    ensures FirstActive(list, now) == k
  {
  }

  /** An override naming a holiday of the list returns that holiday on any date. */
  lemma OverrideWins(list: seq<HolidayConfig>, name: string, now: MonthDay, h: HolidayConfig)
    requires name != ""
    requires h in list && h.name == name
    requires forall i, j :: 0 <= i < j < |list| ==> list[i].name != list[j].name
    ensures Resolve(list, Some(name), now) == Some(h)
  {
    var k :| 0 <= k < |list| && list[k] == h;
  }

  /** An unset, empty or unknown override is ignored: the date alone decides. */
  lemma UnknownOverrideIgnored(list: seq<HolidayConfig>, testHoliday: Option<string>, now: MonthDay)
    requires !OverrideSet(testHoliday) || forall h :: h in list ==> h.name != testHoliday.value
    ensures Resolve(list, testHoliday, now) == Resolve(list, None, now)
  {
  }

  /** Without an override the result is the earliest active holiday in
      declaration order, and none exactly when no window holds `now`. */
  lemma DateMatchIsFirst(list: seq<HolidayConfig>, now: MonthDay)
    ensures Resolve(list, None, now).None? <==> forall h :: h in list ==> !IsActive(h, now)
    ensures Resolve(list, None, now).Some? ==>
              exists i :: 0 <= i < |list| && Resolve(list, None, now) == Some(list[i])
                && IsActive(list[i], now)
                && forall j :: 0 <= j < i ==> !IsActive(list[j], now)
  {
    var i := FirstActive(list, now);
    if i == |list| {
      forall h | h in list ensures !IsActive(h, now) {
        var j :| 0 <= j < |list| && list[j] == h;
      }
    }
  }

  /** The holiday names are distinct, so an override picks a unique holiday. */
  lemma NamesDistinct()
    ensures forall i, j :: 0 <= i < j < |HOLIDAYS| ==> HOLIDAYS[i].name != HOLIDAYS[j].name
  {
  }

  /** The valentines window, both ends included. */
  lemma ValentinesBoundaries()
    ensures CurrentHoliday(None, MonthDay(2, 10)) == Some(VALENTINES)
    ensures CurrentHoliday(None, MonthDay(2, 14)) == Some(VALENTINES)
    ensures CurrentHoliday(None, MonthDay(2, 9)) == None
    ensures CurrentHoliday(None, MonthDay(2, 15)) == None
  {
    FirstActiveIs(HOLIDAYS, MonthDay(2, 10), 1);
    FirstActiveIs(HOLIDAYS, MonthDay(2, 14), 1);
    FirstActiveIs(HOLIDAYS, MonthDay(2, 9), 4);
    FirstActiveIs(HOLIDAYS, MonthDay(2, 15), 4);
  }

  /** A window from December 20 to January 5 wraps: it holds both of its
      ends, Christmas Eve and January 2, but not the days just outside it nor
      a day in March. */
  lemma WrappingWindow()
    ensures var h := CHRISTMAS.(startDate := MonthDay(12, 20), endDate := MonthDay(1, 5));
      && IsActive(h, MonthDay(12, 20)) && IsActive(h, MonthDay(1, 5))
      && IsActive(h, MonthDay(12, 24)) && IsActive(h, MonthDay(1, 2))
      && !IsActive(h, MonthDay(12, 19)) && !IsActive(h, MonthDay(1, 6))
      && !IsActive(h, MonthDay(3, 1))
  {
  }

  /** The override reaches a holiday out of season. */
  lemma ChristmasOverrideInJuly()
    ensures CurrentHoliday(Some("christmas"), MonthDay(7, 2)) == Some(CHRISTMAS)
    ensures CurrentHoliday(Some("easter"), MonthDay(7, 2)) == Some(INDEPENDENCE)
  {
    NamesDistinct();
    OverrideWins(HOLIDAYS, "christmas", MonthDay(7, 2), CHRISTMAS);
    UnknownOverrideIgnored(HOLIDAYS, Some("easter"), MonthDay(7, 2));
    FirstActiveIs(HOLIDAYS, MonthDay(7, 2), 2);
  }
}
