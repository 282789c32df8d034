/** The translation provider: dotted-path lookup in the loaded translation
    document, the choice of the initial locale, and the provider state that
    `setLocale` and the document loads update. */
module Translation {
  import opened Wrappers
  import opened Text
  import opened JsonValues
  import opened Storage
  import opened Page

  /** The storage key under which the chosen locale is remembered. */
  const STORAGE_KEY := "preferred-language"

  datatype Locale = En | Es

  /** The locale's code, as stored and as set on the document. */
  function Code(l: Locale): (c: string)
    ensures |c| == 2
  {
    match l
    case En => "en"
    case Es => "es"
  }

  // ---------------------------------------------------------------------------
  // dotted-path lookup

  /** The value `path` reaches in `obj`, its `.`-separated segments followed
      one by one; `None` (undefined) at the first segment that is absent. */
  function NestedRawValue(obj: Json, path: string): Option<Json> {
    Walk(obj, Split(path, '.'))
  }

  /** The string `path` reaches in `obj`, or `path` itself when the walk
      fails or ends at something other than a string. */
  function NestedValue(obj: Json, path: string): (r: string)
    ensures r == path || NestedRawValue(obj, path) == Some(JStr(r))
    ensures NestedRawValue(obj, path).Some? && NestedRawValue(obj, path).value.JStr? ==>
              r == NestedRawValue(obj, path).value.str
  {
    match NestedRawValue(obj, path)
    case Some(JStr(s)) => s
    case _ => path
  }

  /** `getNestedValue`: the loop over the segments, returning the path at the
      first segment that is missing. */
  method GetNestedValue(obj: Json, path: string) returns (r: string)
    ensures r == NestedValue(obj, path)
  {
    var keys := Split(path, '.');
    var value := obj;
    for i := 0 to |keys|
      invariant Walk(obj, keys[..i]) == Some(value)
    {
      var next := Step(value, keys[i]);
      if next.None? {
        WalkStopsAt(obj, keys, i, value);
        return path;
      }
      WalkExtends(obj, keys, i, value);
      value := next.value;
    }
    assert keys[..|keys|] == keys;
    r := if value.JStr? then value.str else path;
  }

  /** `getNestedRawValue`: the same loop, returning `None` at the first
      segment that is missing and the value reached otherwise. */
  method GetNestedRawValue(obj: Json, path: string) returns (r: Option<Json>)
    ensures r == NestedRawValue(obj, path)
  {
    var keys := Split(path, '.');
    var value := obj;
    for i := 0 to |keys|
      invariant Walk(obj, keys[..i]) == Some(value)
    {
      var next := Step(value, keys[i]);
      if next.None? {
        WalkStopsAt(obj, keys, i, value);
        return None;
      }
      WalkExtends(obj, keys, i, value);
      value := next.value;
    }
    assert keys[..|keys|] == keys;
    r := Some(value);
  }

  /** One more successful step extends the walk by one segment. */
  lemma WalkExtends(obj: Json, keys: seq<string>, i: nat, value: Json)
    requires i < |keys| && Walk(obj, keys[..i]) == Some(value)
    ensures Walk(obj, keys[..i + 1]) == Step(value, keys[i])
  {
    WalkConcat(obj, keys[..i], [keys[i]]);
    assert keys[..i] + [keys[i]] == keys[..i + 1];
  }

  /** A step that finds nothing ends the whole walk with nothing. */
  lemma WalkStopsAt(obj: Json, keys: seq<string>, i: nat, value: Json)
    requires i < |keys| && Walk(obj, keys[..i]) == Some(value)
    requires Step(value, keys[i]) == None
    ensures Walk(obj, keys) == None
  {
    WalkConcat(obj, keys[..i], keys[i..]);
    assert keys[..i] + keys[i..] == keys;
    assert keys[i..][0] == keys[i];
  }

  /** A path whose segments all exist along nested objects and end at a
      string yields that string. */
  lemma LookupFound(keys: seq<string>, s: string)
    requires |keys| >= 1
    requires forall k :: 0 <= k < |keys| ==> '.' !in keys[k]
    ensures NestedValue(Nest(keys, JStr(s)), Join(keys, '.')) == s
    ensures NestedRawValue(Nest(keys, JStr(s)), Join(keys, '.')) == Some(JStr(s))
  {
    SplitJoin(keys, '.');
    WalkNest(keys, JStr(s));
  }

  /** A segment missing along the way makes the lookup echo the path, and the
      raw lookup give `None`, whatever comes after it. */
  lemma MissingSegmentEchoesPath(obj: Json, path: string, i: nat, value: Json)
    requires i < |Split(path, '.')|
    requires Walk(obj, Split(path, '.')[..i]) == Some(value)
    requires Step(value, Split(path, '.')[i]) == None
    ensures NestedRawValue(obj, path) == None
    ensures NestedValue(obj, path) == path
  {
    WalkStopsAt(obj, Split(path, '.'), i, value);
  }

  /** A path that ends at an object, an array, a number, a boolean or null
      makes the lookup echo the path, while the raw lookup returns the value. */
  lemma NonStringEchoesPath(obj: Json, path: string, v: Json)
    requires NestedRawValue(obj, path) == Some(v) && !v.JStr?
    ensures NestedValue(obj, path) == path
  {
  }

  /** Only objects and arrays can be looked into: from any other document every
      path fails, and the lookup echoes it. */
  lemma ScalarDocumentEchoesPath(obj: Json, path: string)
    requires !obj.JObj? && !obj.JArr?
    ensures NestedRawValue(obj, path) == None
    ensures NestedValue(obj, path) == path
  {
    var keys := Split(path, '.');
    assert keys[..0] == [];
    MissingSegmentEchoesPath(obj, path, 0, obj);
  }

  /** The translations start as an empty object, where every lookup echoes
      its key. */
  lemma EmptyDocumentEchoesPath(path: string)
    ensures NestedValue(JObj(map[]), path) == path
    ensures NestedRawValue(JObj(map[]), path) == None
  {
    var keys := Split(path, '.');
    assert keys[..0] == [];
    MissingSegmentEchoesPath(JObj(map[]), path, 0, JObj(map[]));
  }

  // ---------------------------------------------------------------------------
  // initial locale

  /** The locale the provider starts with: a stored `en` or `es` wins;
      otherwise `es` when the browser language's primary subtag (the part
      before the first `-`) is `es`; otherwise `en`. */
  function InitialLocale(stored: Option<string>, browserLanguage: string): (l: Locale)
    ensures stored.Some? && (stored.value == "en" || stored.value == "es") ==> Code(l) == stored.value
    ensures !(stored.Some? && (stored.value == "en" || stored.value == "es")) ==>
              (l == Es <==> browserLanguage[..IndexOf(browserLanguage, '-')] == "es")
  {
    if stored == Some("en") then En
    else if stored == Some("es") then Es
    else if Split(browserLanguage, '-')[0] == "es" then Es
    else En
  }

  /** A stored choice survives a reload whatever the browser language. */
  lemma StoredLocaleWins(l: Locale, browserLanguage: string)
    ensures InitialLocale(Some(Code(l)), browserLanguage) == l
  {
  }

  /** Region subtags do not matter: `es-MX` and `es` both give Spanish. */
  lemma BrowserRegionIgnored()
    ensures InitialLocale(None, "es-MX") == Es
    ensures InitialLocale(None, "es") == Es
    ensures InitialLocale(Some("fr"), "en-US") == En
    ensures InitialLocale(None, "est") == En
  {
    assert IndexOf("es-MX", '-') == 2;
    assert IndexOf("est", '-') == 3;
  }

  // ---------------------------------------------------------------------------
  // the provider

  /** How a load of the translation document ended: the parsed document, a
      response that was not ok, or a failure (network or malformed JSON). */
  datatype LoadOutcome = Loaded(data: Json) | NotOk | Failed

  /** The translations after a load: replaced only by a loaded document. */
  function AfterLoad(current: Json, outcome: LoadOutcome): (next: Json)
    ensures outcome.Loaded? ==> next == outcome.data
    ensures !outcome.Loaded? ==> next == current
  {
    if outcome.Loaded? then outcome.data else current
  }

  /** The address of a locale's translation document. */
  function LocaleUrl(l: Locale): string {
    "/locales/" + Code(l) + "/common.json"
  }

  /** Each locale has its own document: the address names the locale. */
  lemma LocaleUrlsDistinct(a: Locale, b: Locale)
    ensures LocaleUrl(a) == LocaleUrl(b) <==> a == b
  {
    if a != b {
      assert LocaleUrl(a)[10] == Code(a)[1];
      assert LocaleUrl(b)[10] == Code(b)[1];
    }
  }

  class TranslationProvider {
    const store: LocalStorage
    const document: DocumentElement
    var locale: Locale
    var translations: Json
    var isLoading: bool
    /** The addresses fetched so far, in the order the loads were started. */
    var requests: seq<string>

    /** The state before the first effect runs: English, no translations,
        and loading. */
    constructor (store: LocalStorage, document: DocumentElement)
      ensures this.store == store && this.document == document
      ensures locale == En && translations == JObj(map[]) && isLoading
      ensures requests == []
    {
      this.store := store;
      this.document := document;
      locale := En;
      translations := JObj(map[]);
      isLoading := true;
      requests := [];
    }

    /** `loadTranslations(lang)`: fetch the document of `lang`; once the
        fetch has ended with `outcome`, only a loaded document replaces the
        translations, and loading is over whatever happened. */
    method LoadTranslations(lang: Locale, outcome: LoadOutcome)
      modifies this
      ensures requests == old(requests) + [LocaleUrl(lang)]
      ensures translations == AfterLoad(old(translations), outcome)
      ensures !isLoading
      ensures locale == old(locale)
    {
      requests := requests + [LocaleUrl(lang)];
      if outcome.Loaded? {
        translations := outcome.data;
      }
      isLoading := false;
    }

    /** The mount effect: pick the initial locale from storage and the
        browser language, set it on the document, and load it. */
    method Initialize(browserLanguage: string, outcome: LoadOutcome)
      modifies this, document
      ensures locale == InitialLocale(store.GetItem(STORAGE_KEY), browserLanguage)
      ensures document.lang == Code(locale)
      ensures requests == old(requests) + [LocaleUrl(locale)]
      ensures translations == AfterLoad(old(translations), outcome)
      ensures !isLoading
    {
      var stored := store.GetItem(STORAGE_KEY);
      var initial := InitialLocale(stored, browserLanguage);
      locale := initial;
      document.SetLang(Code(initial));
      LoadTranslations(initial, outcome);
    }

    /** The `languagechange` listener: adopt the announced locale and load it. */
    method HandleLanguageChange(newLocale: Locale, outcome: LoadOutcome)
      modifies this
      ensures locale == newLocale
      ensures requests == old(requests) + [LocaleUrl(newLocale)]
      ensures translations == AfterLoad(old(translations), outcome)
      ensures !isLoading
    {
      locale := newLocale;
      LoadTranslations(newLocale, outcome);
    }

    /** `setLocale(newLocale)`: set the locale, remember it, set it on the
        document and load it, then announce it; the provider's own listener
        hears the announcement and loads once more. `first` and `second` are
        the two loads' outcomes in the order they end. */
    method SetLocale(newLocale: Locale, first: LoadOutcome, second: LoadOutcome)
      modifies this, store, document
      ensures locale == newLocale && document.lang == Code(newLocale)
      ensures store.items == old(store.items)[STORAGE_KEY := Code(newLocale)]
      ensures requests == old(requests) + [LocaleUrl(newLocale), LocaleUrl(newLocale)]
      ensures translations == AfterLoad(AfterLoad(old(translations), first), second)
      ensures !isLoading
    {
      locale := newLocale;
      store.SetItem(STORAGE_KEY, Code(newLocale));
      document.SetLang(Code(newLocale));
      LoadTranslations(newLocale, first);
      HandleLanguageChange(newLocale, second);
    }

    /** `t(key)`: the translated string, or the key itself when there is none. */
    function T(key: string): (r: string)
      reads this
      ensures r == key || TRaw(key) == Some(JStr(r))
      ensures TRaw(key).Some? && TRaw(key).value.JStr? ==> r == TRaw(key).value.str
    {
      NestedValue(translations, key)
    }

    /** `tRaw(key)`: the value under `key` (a list or a section), or `None`. */
    function TRaw(key: string): (r: Option<Json>)
      reads this
    {
      NestedRawValue(translations, key)
    }
  }
}
