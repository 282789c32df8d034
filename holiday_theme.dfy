/** The holiday theme hook: today's holiday and the reduced-motion
    preference, and the theme record derived from them. */
module HolidayTheme {
  import opened Wrappers
  import opened Holidays

  /** The record the hook returns. */
  datatype Theme = Theme(
    holiday: Option<HolidayConfig>,
    isHoliday: bool,
    holidayName: Option<string>,
    effect: Option<Effect>,
    accentColor: Option<string>,
    logoVariant: Option<string>,
    prefersReducedMotion: bool)

  /** The theme for `holiday` under the given motion preference: the
      holiday's identity and colours are passed through, its particle effect
      only when motion is not reduced. */
  function DeriveTheme(holiday: Option<HolidayConfig>, reduced: bool): (t: Theme)
    ensures t.holiday == holiday && t.prefersReducedMotion == reduced
    ensures t.isHoliday <==> holiday.Some?
    ensures reduced ==> t.effect == None
    ensures t.effect.Some? ==> holiday.Some? && t.effect == holiday.value.effect
    ensures !reduced && holiday.Some? ==> t.effect == holiday.value.effect
    ensures holiday.Some? ==> t.holidayName == Some(holiday.value.name)
    ensures holiday.Some? ==> t.accentColor == holiday.value.accentColor && t.logoVariant == holiday.value.logoVariant
    ensures holiday.None? ==> t.holidayName.None? && t.accentColor.None? && t.logoVariant.None?
  {
    var name := if holiday.Some? then Some(holiday.value.name) else None;
    var effect := if reduced then None else if holiday.Some? then holiday.value.effect else None;
    var accent := if holiday.Some? then holiday.value.accentColor else None;
    var logo := if holiday.Some? then holiday.value.logoVariant else None;
    Theme(holiday, holiday.Some?, name, effect, accent, logo, reduced)
  }

  /** Reduced motion changes the effect and the flag, and nothing else. */
  lemma ReducedMotionKeepsIdentity(holiday: Option<HolidayConfig>)
    ensures DeriveTheme(holiday, true) ==
            DeriveTheme(holiday, false).(effect := None, prefersReducedMotion := true)
  {
  }

  class HolidayThemeHook {
    var holiday: Option<HolidayConfig>
    var prefersReducedMotion: bool

    /** The state of the first render: no holiday, motion allowed. */
    constructor ()
      ensures holiday == None && !prefersReducedMotion
    {
      holiday := None;
      prefersReducedMotion := false;
    }

    /** The mount effect: resolve today's holiday and read the media query. */
    method Mount(testHoliday: Option<string>, now: MonthDay, mediaMatches: bool)
      modifies this
      ensures holiday == CurrentHoliday(testHoliday, now)
      ensures prefersReducedMotion == mediaMatches
    {
      holiday := GetCurrentHoliday(testHoliday, now);
      prefersReducedMotion := mediaMatches;
    }

    /** The media query's change listener. */
    method OnMotionPreferenceChange(matches: bool)
      modifies this
      ensures prefersReducedMotion == matches && holiday == old(holiday)
    {
      prefersReducedMotion := matches;
    }

    /** The record the hook returns for the current state. */
    function Result(): (t: Theme)
      reads this
      ensures t.holiday == holiday && t.isHoliday == holiday.Some?
      ensures prefersReducedMotion ==> t.effect == None
      ensures t == DeriveTheme(holiday, prefersReducedMotion)
    {
      DeriveTheme(holiday, prefersReducedMotion)
    }
  }
}
