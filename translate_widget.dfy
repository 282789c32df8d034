/** The floating translate button: it switches the provider between English
    and Spanish, and can be hidden for good through a confirmation. */
module TranslateWidget {
  import opened Wrappers
  import opened Storage
  import opened Page
  import opened Translation
  import opened Text

  /** The storage key of the widget's dismissal flag. */
  const WIDGET_KEY := "delgado-widget-dismissed"

  /** The locale the button switches to: always the other one. */
  function Other(l: Locale): (t: Locale)
    ensures t != l
  {
    if l == En then Es else En
  }

  /** Switching twice comes back. */
  lemma OtherTwice(l: Locale)
    ensures Other(Other(l)) == l
  {
  }

  /** The button's label for the target locale: its code in capitals. */
  function LangLabel(l: Locale): (s: string)
    ensures s == ToUpper(Code(l))
    ensures ToLower(s) == Code(l)
  {
    var s := if l == En then "EN" else "ES";
    LowerUpper(Code(l));
    s
  }

  /** What the widget renders while visible. */
  datatype WidgetView = WidgetView(target: Locale, caption: string, ariaLabel: string, confirmVisible: bool)

  class TranslateWidget {
    const provider: TranslationProvider
    var isDismissed: bool
    var showConfirm: bool

    /** The first render: hidden, so that a dismissed widget never flashes. */
    constructor (provider: TranslationProvider)
      ensures this.provider == provider && isDismissed && !showConfirm
    {
      this.provider := provider;
      isDismissed := true;
      showConfirm := false;
    }

    /** The mount effect: visible unless the stored flag is the string `true`. */
    method Mount()
      modifies this
      ensures isDismissed <==> provider.store.GetItem(WIDGET_KEY) == Some("true")
      ensures showConfirm == old(showConfirm)
    {
      var dismissed := provider.store.GetItem(WIDGET_KEY) == Some("true");
      isDismissed := dismissed;
    }

    /** The locale the button offers. */
    function TargetLang(): (t: Locale)
      reads this, provider
      ensures t != provider.locale
    {
      Other(provider.locale)
    }

    /** The flag button: set the provider's locale to the other one. */
    method HandleToggle(first: LoadOutcome, second: LoadOutcome)
      modifies provider, provider.store, provider.document
      ensures provider.locale == Other(old(provider.locale))
      ensures provider.document.lang == Code(provider.locale)
      ensures provider.store.items == old(provider.store.items)[STORAGE_KEY := Code(provider.locale)]
      ensures provider.requests == old(provider.requests) + [LocaleUrl(provider.locale), LocaleUrl(provider.locale)]
      ensures provider.translations == AfterLoad(AfterLoad(old(provider.translations), first), second)
      ensures !provider.isLoading
    {
      provider.SetLocale(TargetLang(), first, second);
    }

    /** The close button: ask for confirmation. */
    method RequestClose()
      modifies this
      ensures showConfirm && isDismissed == old(isDismissed)
    {
      showConfirm := true;
    }

    /** "No": hide the confirmation, keep the widget. */
    method CancelClose()
      modifies this
      ensures !showConfirm && isDismissed == old(isDismissed)
    {
      showConfirm := false;
    }

    /** "Yes": remember the dismissal and hide everything. */
    method HandleDismiss()
      modifies this, provider.store
      ensures isDismissed && !showConfirm
      ensures provider.store.items == old(provider.store.items)[WIDGET_KEY := "true"]
    {
      provider.store.SetItem(WIDGET_KEY, "true");
      isDismissed := true;
      showConfirm := false;
    }

    /** A click anywhere on the page: one outside both the confirmation and
        the close button hides an open confirmation. While the widget is
        hidden neither element exists and nothing happens. */
    method HandleClickOutside(inConfirm: bool, inClose: bool)
      modifies this
      ensures isDismissed == old(isDismissed)
      ensures showConfirm == (old(showConfirm) && (isDismissed || inConfirm || inClose))
    {
      if showConfirm && !isDismissed && !inConfirm && !inClose {
        showConfirm := false;
      }
    }

    /** What renders: nothing while dismissed. */
    function Render(): (v: Option<WidgetView>)
      reads this, provider
      ensures v.None? <==> isDismissed
      ensures v.Some? ==> v.value.target != provider.locale && v.value.confirmVisible == showConfirm
    {
      if isDismissed then None
      else
        var target := TargetLang();
        Some(WidgetView(target, LangLabel(target),
          if target == En then "Switch to English" else "Cambiar a Español",
          showConfirm))
    }
  }

  /** `resetTranslateWidget()`: forget the dismissal (the page reload that
      follows is a fresh mount). */
  method ResetTranslateWidget(store: LocalStorage)
    modifies store
    ensures store.items == old(store.items) - {WIDGET_KEY}
    ensures store.GetItem(WIDGET_KEY) == None
  {
    store.RemoveItem(WIDGET_KEY);
  }

  /** Toggling twice restores the locale the page had. */
  method ToggleTwice(widget: TranslateWidget, o1: LoadOutcome, o2: LoadOutcome, o3: LoadOutcome, o4: LoadOutcome)
    modifies widget.provider, widget.provider.store, widget.provider.document
    ensures widget.provider.locale == old(widget.provider.locale)
    ensures widget.provider.document.lang == Code(old(widget.provider.locale))
    ensures widget.provider.store.items ==
            old(widget.provider.store.items)[STORAGE_KEY := Code(old(widget.provider.locale))]
  {
    widget.HandleToggle(o1, o2);
    widget.HandleToggle(o3, o4);
    OtherTwice(old(widget.provider.locale));
  }

  /** After a reset, the next mount shows the widget again. */
  method ResetThenMount(widget: TranslateWidget)
    modifies widget, widget.provider.store
    ensures !widget.isDismissed
  {
    ResetTranslateWidget(widget.provider.store);
    widget.Mount();
  }
}
