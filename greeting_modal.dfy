/** The holiday greeting dialog: shown once per holiday name, remembered
    in storage once dismissed. */
module GreetingModal {
  import opened Wrappers
  import opened Storage
  import opened Holidays

  /** The storage key holding the name of the last dismissed greeting. */
  const DISMISSED_KEY := "holiday-greeting-dismissed"

  /** Whether mounting with `holiday` opens the dialog, given what is stored
      under the dismissal key: only when there is a holiday whose name
      differs from the stored one. */
  function OpensOnMount(holiday: Option<HolidayConfig>, dismissed: Option<string>): (opens: bool)
    ensures holiday.None? ==> !opens
    ensures holiday.Some? ==> (opens <==> dismissed != Some(holiday.value.name))
  {
    holiday.Some? && dismissed != Some(holiday.value.name)
  }

  /** What the dialog shows. */
  datatype DialogView = DialogView(open: bool, title: string, message: string, emoji: string, accentColor: Option<string>)

  class HolidayGreetingModal {
    const holiday: Option<HolidayConfig>
    const store: LocalStorage
    var isOpen: bool

    /** The first render: closed. */
    constructor (holiday: Option<HolidayConfig>, store: LocalStorage)
      ensures this.holiday == holiday && this.store == store && !isOpen
    {
      this.holiday := holiday;
      this.store := store;
      isOpen := false;
    }

    /** The mount effect: open unless this holiday's greeting was dismissed. */
    method Mount()
      modifies this
      ensures isOpen == (old(isOpen) || OpensOnMount(holiday, store.GetItem(DISMISSED_KEY)))
    {
      if holiday.Some? {
        var dismissedHoliday := store.GetItem(DISMISSED_KEY);
        if dismissedHoliday != Some(holiday.value.name) {
          isOpen := true;
        }
      }
    }

    /** The OK button: remember this holiday's name and close. */
    method HandleDismiss()
      modifies this, store
      ensures !isOpen
      ensures holiday.Some? ==> store.items == old(store.items)[DISMISSED_KEY := holiday.value.name]
      ensures holiday.None? ==> store.items == old(store.items)
    {
      if holiday.Some? {
        store.SetItem(DISMISSED_KEY, holiday.value.name);
      }
      isOpen := false;
    }

    /** The dialog's open-change callback: closing it takes the dismiss path,
        opening it does nothing. */
    method OnOpenChange(open: bool)
      modifies this, store
      ensures open ==> isOpen == old(isOpen) && store.items == old(store.items)
      ensures !open ==> !isOpen
      ensures !open && holiday.Some? ==> store.items == old(store.items)[DISMISSED_KEY := holiday.value.name]
      ensures !open && holiday.None? ==> store.items == old(store.items)
    {
      if !open {
        HandleDismiss();
      }
    }

    /** What renders: nothing without a holiday, otherwise the greeting. */
    function Render(): (v: Option<DialogView>)
      reads this
      ensures v.None? <==> holiday.None?
      ensures v.Some? ==> v.value.open == isOpen && v.value.title == holiday.value.greeting.title
    {
      if holiday.None? then None
      else
        var g := holiday.value.greeting;
        Some(DialogView(isOpen, g.title, g.message, g.emoji, holiday.value.accentColor))
    }
  }

  /** The whole sequence on one store: mount, dismiss, then mount a fresh
      dialog with the same holiday and one with another holiday. */
  method DismissThenRemount(h: HolidayConfig, other: HolidayConfig, store: LocalStorage)
      returns (firstOpen: bool, sameOpen: bool, otherOpen: bool)
    requires other.name != h.name
    modifies store
    ensures firstOpen == (old(store.GetItem(DISMISSED_KEY)) != Some(h.name))
    ensures store.items == old(store.items)[DISMISSED_KEY := h.name]
    ensures !sameOpen && otherOpen
  {
    var modal := new HolidayGreetingModal(Some(h), store);
    modal.Mount();
    firstOpen := modal.isOpen;
    modal.HandleDismiss();
    var again := new HolidayGreetingModal(Some(h), store);
    again.Mount();
    sameOpen := again.isOpen;
    var next := new HolidayGreetingModal(Some(other), store);
    next.Mount();
    otherOpen := next.isOpen;
  }
}
