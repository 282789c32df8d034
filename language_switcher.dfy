/** The language menu: a second way of choosing the language, which
    negotiates the initial code the way the translation provider does and
    writes the choice to the same storage key. */
module LanguageSwitcher {
  import opened Wrappers
  import opened Storage
  import opened Page
  import opened Text
  import Translation

  datatype Language = Language(code: string, name: string, flag: string)

  /** The supported languages; the first one is the fallback. */
  const LANGUAGES: seq<Language> := [
    Language("en", "English", "\U{1F1FA}\U{1F1F8}"),
    Language("es", "Espa\U{F1}ol", "\U{1F1EA}\U{1F1F8}")
  ]

  /** `languages.some(l => l.code === code)`. */
  predicate Supported(code: string) {
    exists l | l in LANGUAGES :: l.code == code
  }

  lemma SupportedCodes(code: string)
    ensures Supported(code) <==> code == "en" || code == "es"
  {
    if code == "en" {
      assert LANGUAGES[0] in LANGUAGES;
    } else if code == "es" {
      assert LANGUAGES[1] in LANGUAGES;
    }
  }

  /** The primary subtag of a browser language tag: the part before the
      first `-`. */
  function PrimarySubtag(browserLanguage: string): (p: string)
    ensures '-' !in p
    ensures p == browserLanguage[..IndexOf(browserLanguage, '-')]
  {
    Split(browserLanguage, '-')[0]
  }

  /** The mount effect's choice: a stored supported code wins; otherwise a
      supported primary subtag of the browser language; otherwise the code
      stays `current`. */
  function Negotiate(stored: Option<string>, browserLanguage: string, current: string): (code: string)
    ensures Supported(current) ==> Supported(code)
    ensures stored.Some? && Supported(stored.value) ==> code == stored.value
    ensures code == current || Supported(code)
    ensures !(stored.Some? && Supported(stored.value)) && Supported(PrimarySubtag(browserLanguage)) ==>
      code == PrimarySubtag(browserLanguage)
    ensures !(stored.Some? && Supported(stored.value)) && !Supported(PrimarySubtag(browserLanguage)) ==>
      code == current
  {
    if stored.Some? && stored.value != "" && Supported(stored.value) then stored.value
    else if Supported(PrimarySubtag(browserLanguage)) then PrimarySubtag(browserLanguage)
    else current
  }

  /** Starting from `en`, the menu and the translation provider settle on
      the same language for every storage content and browser language. */
  lemma NegotiationAgrees(stored: Option<string>, browserLanguage: string)
    ensures Negotiate(stored, browserLanguage, "en") ==
            Translation.Code(Translation.InitialLocale(stored, browserLanguage))
  {
    if stored.Some? {
      SupportedCodes(stored.value);
    }
    SupportedCodes(PrimarySubtag(browserLanguage));
  }

  /** `list.find(l => l.code === code)`: the first entry with that code. */
  function Find(list: seq<Language>, code: string): (r: Option<Language>)
    ensures r.Some? ==> r.value in list && r.value.code == code
    ensures r.None? <==> forall l :: l in list ==> l.code != code
  {
    if list == [] then None
    else if list[0].code == code then Some(list[0])
    else Find(list[1..], code)
  }

  /** `languages.find(l => l.code === code) || languages[0]`. */
  function CurrentLanguage(code: string): (l: Language)
    ensures l in LANGUAGES
    ensures Supported(code) ==> l.code == code
    ensures !Supported(code) ==> l == LANGUAGES[0]
  {
    Find(LANGUAGES, code).GetOr(LANGUAGES[0])
  }

  class LanguageMenu {
    const store: LocalStorage
    const document: DocumentElement
    var currentLang: string
    var isOpen: bool

    /** The first render: English, menu closed. */
    constructor (store: LocalStorage, document: DocumentElement)
      ensures this.store == store && this.document == document
      ensures currentLang == "en" && !isOpen
    {
      this.store := store;
      this.document := document;
      currentLang := "en";
      isOpen := false;
    }

    /** The mount effect. */
    method Mount(browserLanguage: string)
      modifies this
      ensures currentLang == Negotiate(store.GetItem(Translation.STORAGE_KEY), browserLanguage, old(currentLang))
      ensures isOpen == old(isOpen)
    {
      var stored := store.GetItem(Translation.STORAGE_KEY);
      if stored.Some? && stored.value != "" && Supported(stored.value) {
        currentLang := stored.value;
      } else {
        var browserLang := PrimarySubtag(browserLanguage);
        if Supported(browserLang) {
          currentLang := browserLang;
        }
      }
    }

    /** A menu item: adopt the code, remember it, close the menu, and set it
        on the document. */
    method HandleLanguageChange(langCode: string)
      modifies this, store, document
      ensures currentLang == langCode && !isOpen
      ensures store.items == old(store.items)[Translation.STORAGE_KEY := langCode]
      ensures document.lang == langCode
    {
      currentLang := langCode;
      store.SetItem(Translation.STORAGE_KEY, langCode);
      isOpen := false;
      document.SetLang(langCode);
    }

    /** The round button flips the menu. */
    method ToggleMenu()
      modifies this
      ensures isOpen == !old(isOpen) && currentLang == old(currentLang)
    {
      isOpen := !isOpen;
    }

    /** The entry whose flag the button shows. */
    function Shown(): (l: Language)
      reads this
      ensures l in LANGUAGES
      ensures Supported(currentLang) ==> l.code == currentLang
    {
      CurrentLanguage(currentLang)
    }
  }
}
