# Delgado law-firm site: a verified model of its logic

This project models the parts of the Delgado law-firm website that do more
than lay out a page:

- **The holiday calendar.** A constant list of yearly month/day windows and a
  resolver. The resolver picks today's holiday. A named override (an
  environment variable) wins outright when it names a holiday in the list.
  The holiday theme hook calls the resolver and adds the reduced-motion
  preference. The module also exports a holiday-season query, which no file
  of the site calls. The greeting dialog receives its holiday from its
  parent; it is shown once per holiday name and remembered in
  `localStorage`.
- **The translation provider.** It chooses the initial locale from storage and
  the browser language. It loads a JSON translation document for the locale.
  It answers `t(key)` by a dotted-path walk through that document, and gives
  back the key itself when the walk fails. It also holds the `setLocale`
  state update, which persists the choice, sets `<html lang>`, loads and
  announces the locale.
- **The locale controls.**
  - The floating translate widget switches between English and Spanish. It
    can be hidden for good through a confirmation, and reset.
  - The language menu negotiates its initial code the same way the provider
    does.
- **The contact form action.** It checks the required fields, then the email
  pattern, then the outcome of posting the form. Each case maps to a fixed
  result.
- **Avatar initials.**
- **The schema.org generators.** They build breadcrumbs, attorney `Person`
  records with slug ids, the FAQ page and the legal-service lists.
- **The favicon script's hand-written ICO encoder.** It writes a 6-byte
  header, one 16-byte directory entry per image, and the PNG images, each
  entry holding the size and offset of its image in little-endian form.

Browser state is modelled as objects. These are `localStorage`
(`Storage.LocalStorage`), the document element (`Page.DocumentElement`), and
each component's React state (a class whose fields are the `useState`
variables). Each effect and each handler becomes a method that updates them.
The network, the clock, `matchMedia` and the rendered PNG images are not
modelled directly. The outcome of a fetch, today's date, a media-query
answer and the image bytes are all parameters.

## Model

| member | source | states |
|---|---|---|
| Holidays.IsActive | app/lib/holidays.ts:80-97 | a window whose start month is after its end month holds a day when it is on or after the start or on or before the end; any other window holds it when it is between start and end, both ends included |
| Holidays.FirstNamed | app/lib/holidays.ts:69-71 | the index of the first holiday with the given name, or the list length when none has it |
| Holidays.FirstActive | app/lib/holidays.ts:78-99 | the index of the first holiday whose window holds the date, with no earlier one holding it, or the list length |
| Holidays.Resolve | app/lib/holidays.ts:66-102 | a result is always a holiday of the list |
| Holidays.GetCurrentHoliday | app/lib/holidays.ts:66-102 | the override lookup then the loop over the holidays returns exactly what `Resolve` specifies for the site's list |
| Holidays.CurrentHoliday | app/lib/holidays.ts:66-102 | the site's holiday is one of the four; without one, no window holds the date, and without an override that is the only way to have none |
| Holidays.IsHolidaySeason | app/lib/holidays.ts:104-107 | true exactly when there is a current holiday and it has the given name; then the name belongs to a holiday of the list |
| Holidays.FirstActiveIs | app/lib/holidays.ts:78-101 | an index that is active, with no earlier active one (or the length, with none active), is the one the scan returns |
| Holidays.OverrideWins | app/lib/holidays.ts:68-72 | with distinct names, a non-empty override naming a holiday returns that holiday on any date |
| Holidays.UnknownOverrideIgnored | app/lib/holidays.ts:68-73 | an unset, empty or unknown override gives the same result as no override |
| Holidays.DateMatchIsFirst | app/lib/holidays.ts:78-101 | without an override: no result exactly when no window holds the date; otherwise the earliest active holiday in declaration order |
| Holidays.NamesDistinct | app/lib/holidays.ts:16-64 | the four holiday names are pairwise distinct |
| Holidays.ValentinesBoundaries | app/lib/holidays.ts:30-41 | February 10 and 14 resolve to valentines; February 9 and 15 to nothing |
| Holidays.WrappingWindow | app/lib/holidays.ts:82-90 | a December 20 to January 5 window holds both ends, December 24 and January 2, but not December 19, January 6 or March 1 |
| Holidays.ChristmasOverrideInJuly | app/lib/holidays.ts:68-97 | the `christmas` override gives Christmas on July 2; an unknown override gives the date's holiday (independence) |
| HolidayTheme.DeriveTheme | app/hooks/useHolidayTheme.ts:20-28 | the holiday and preference are passed through; name, colour and logo come from the holiday or are absent; the effect is absent whenever motion is reduced and otherwise the holiday's own |
| HolidayTheme.ReducedMotionKeepsIdentity | app/hooks/useHolidayTheme.ts:20-28 | reduced motion differs from full motion only in the effect (dropped) and the flag |
| HolidayTheme.HolidayThemeHook.constructor | app/hooks/useHolidayTheme.ts:5-6 | the first render has no holiday and motion allowed |
| HolidayTheme.HolidayThemeHook.Mount | app/hooks/useHolidayTheme.ts:8-12 | the holiday becomes the resolver's answer and the preference the media query's |
| HolidayTheme.HolidayThemeHook.OnMotionPreferenceChange | app/hooks/useHolidayTheme.ts:14-15 | only the preference changes |
| HolidayTheme.HolidayThemeHook.Result | app/hooks/useHolidayTheme.ts:20-28 | the record is `DeriveTheme` of the current holiday and motion preference: the holiday, its name, accent colour and logo variant, and its effect unless motion is reduced, in which case no effect |
| GreetingModal.OpensOnMount | app/components/holiday/HolidayGreetingModal.tsx:24-31 | the dialog opens only for a holiday whose name differs from the stored dismissed name |
| GreetingModal.HolidayGreetingModal.constructor | app/components/holiday/HolidayGreetingModal.tsx:22 | the dialog starts closed |
| GreetingModal.HolidayGreetingModal.Mount | app/components/holiday/HolidayGreetingModal.tsx:24-31 | the dialog is open afterwards exactly when it was open or `OpensOnMount` holds for the stored value |
| GreetingModal.HolidayGreetingModal.HandleDismiss | app/components/holiday/HolidayGreetingModal.tsx:33-38 | the dialog closes; with a holiday its name is stored under the dismissal key and nothing else in storage changes |
| GreetingModal.HolidayGreetingModal.OnOpenChange | app/components/holiday/HolidayGreetingModal.tsx:45 | closing takes the dismiss path; opening changes nothing |
| GreetingModal.HolidayGreetingModal.Render | app/components/holiday/HolidayGreetingModal.tsx:40-74 | nothing renders without a holiday; otherwise the dialog shows the open flag and the holiday's greeting title |
| GreetingModal.DismissThenRemount | app/components/holiday/HolidayGreetingModal.tsx:24-38 | mount, dismiss, remount on one store: the first mount opens unless already dismissed, the remount stays closed, another holiday opens |
| JsonValues.IndexKey | app/providers/TranslationProvider.tsx:25-26 | the property name of an array index is a non-empty digit string ending in the index's last digit |
| JsonValues.ArrayIndex | app/providers/TranslationProvider.tsx:25-26 | a property name stands for an array index exactly when it is a canonical numeral |
| JsonValues.IndexKeyRoundTrip | app/providers/TranslationProvider.tsx:25-26 | reading back the name of index n gives n |
| JsonValues.ArrayIndexRoundTrip | app/providers/TranslationProvider.tsx:25-26 | a canonical numeral is the name of the index it denotes, so no other name reaches that element |
| JsonValues.Step | app/providers/TranslationProvider.tsx:25-29 | only objects and arrays can be stepped into; an object step succeeds exactly for its keys and gives the field; an array step succeeds exactly for `length` and its index names |
| JsonValues.StepArrayElement | app/providers/TranslationProvider.tsx:25-26 | element i of an array is reached through the name of i |
| JsonValues.Walk | app/providers/TranslationProvider.tsx:24-30 | the empty path reaches the value itself; from anything but an object or an array no other path succeeds; a failed first step fails the walk |
| JsonValues.WalkConcat | app/providers/TranslationProvider.tsx:24-30 | walking two paths in a row is walking their concatenation |
| JsonValues.WalkNest | app/providers/TranslationProvider.tsx:24-30 | walking the keys of a nested document reaches its leaf |
| Translation.Code | app/providers/TranslationProvider.tsx:5 | a locale's code has two characters |
| Translation.NestedValue | app/providers/TranslationProvider.tsx:20-33 | the result is the path itself or the string the walk reaches; when the walk reaches a string, that string |
| Translation.GetNestedValue | app/providers/TranslationProvider.tsx:20-33 | the loop over the segments returns exactly `NestedValue` |
| Translation.GetNestedRawValue | app/providers/TranslationProvider.tsx:36-49 | the loop returns exactly the walk: none at the first missing segment, the value reached otherwise |
| Translation.LookupFound | app/providers/TranslationProvider.tsx:20-33 | a dot-free key path through nested objects ending at a string yields that string, raw and translated |
| Translation.MissingSegmentEchoesPath | app/providers/TranslationProvider.tsx:25-28 | a missing segment makes the lookup return the path and the raw lookup none |
| Translation.NonStringEchoesPath | app/providers/TranslationProvider.tsx:32 | a path ending at a non-string value makes the lookup return the path |
| Translation.ScalarDocumentEchoesPath | app/providers/TranslationProvider.tsx:25-28 | from a document that is neither object nor array every path echoes |
| Translation.EmptyDocumentEchoesPath | app/providers/TranslationProvider.tsx:57 | before any translations load every key echoes itself |
| Translation.InitialLocale | app/providers/TranslationProvider.tsx:77-87 | a stored `en` or `es` wins; otherwise Spanish exactly when the part of the browser language before the first `-` is `es` |
| Translation.StoredLocaleWins | app/providers/TranslationProvider.tsx:80-81 | a stored locale is restored whatever the browser language |
| Translation.BrowserRegionIgnored | app/providers/TranslationProvider.tsx:83-86 | `es-MX` and `es` give Spanish; an unsupported stored value with `en-US` and the tag `est` give English |
| Translation.LocaleUrlsDistinct | app/providers/TranslationProvider.tsx:63 | the two locales' document addresses differ |
| Translation.AfterLoad | app/providers/TranslationProvider.tsx:62-72 | only a loaded document replaces the translations |
| Translation.TranslationProvider.constructor | app/providers/TranslationProvider.tsx:56-58 | English, empty translations, loading, nothing fetched |
| Translation.TranslationProvider.LoadTranslations | app/providers/TranslationProvider.tsx:61-73 | the document of the given locale is fetched; the translations follow `AfterLoad`, loading ends, the locale is kept |
| Translation.TranslationProvider.Initialize | app/providers/TranslationProvider.tsx:76-92 | the locale is `InitialLocale` of the stored value; it is set on the document and its document is fetched and applied |
| Translation.TranslationProvider.HandleLanguageChange | app/providers/TranslationProvider.tsx:95-106 | the announced locale is adopted and its document fetched and applied |
| Translation.TranslationProvider.SetLocale | app/providers/TranslationProvider.tsx:109-119 | locale, document language and the stored key all become the new locale; its document is fetched twice (its own load and the listener's) and the two outcomes are applied in order |
| Translation.TranslationProvider.T | app/providers/TranslationProvider.tsx:122-124 | the string stored under the key when there is one, otherwise the key |
| TranslateWidget.Other | app/components/shared/TranslateWidget.tsx:51 | the target locale always differs from the current one |
| TranslateWidget.OtherTwice | app/components/shared/TranslateWidget.tsx:51 | switching twice comes back |
| TranslateWidget.TranslateWidget.constructor | app/components/shared/TranslateWidget.tsx:22-23 | hidden, no confirmation |
| TranslateWidget.TranslateWidget.Mount | app/components/shared/TranslateWidget.tsx:28-31 | hidden exactly when the stored flag is the string `true` |
| TranslateWidget.TranslateWidget.TargetLang | app/components/shared/TranslateWidget.tsx:51 | the offered locale differs from the provider's |
| TranslateWidget.LangLabel | app/components/shared/TranslateWidget.tsx:13-16 | the label is the target locale's code in capitals |
| Text.LowerUpper | app/components/shared/TranslateWidget.tsx:13-16 | lower-casing the upper-cased form of a string without capitals gives it back, so a label written in capitals determines its lower-case code |
| TranslateWidget.TranslateWidget.HandleToggle | app/components/shared/TranslateWidget.tsx:53-55 | the provider's whole `setLocale` update for the other locale: locale, document language, stored key, two fetches of its document, the translations and the loading flag |
| TranslateWidget.TranslateWidget.RequestClose | app/components/shared/TranslateWidget.tsx:91-94 | the confirmation shows |
| TranslateWidget.TranslateWidget.CancelClose | app/components/shared/TranslateWidget.tsx:119 | the confirmation hides and the widget stays |
| TranslateWidget.TranslateWidget.HandleDismiss | app/components/shared/TranslateWidget.tsx:57-61 | the flag `true` is stored and the widget and confirmation hide |
| TranslateWidget.TranslateWidget.HandleClickOutside | app/components/shared/TranslateWidget.tsx:34-49 | an open confirmation closes exactly on a click outside both elements while the widget is visible |
| TranslateWidget.TranslateWidget.Render | app/components/shared/TranslateWidget.tsx:63-65 | nothing renders while dismissed; otherwise the button offers the other locale and shows the confirmation flag |
| TranslateWidget.ResetTranslateWidget | app/components/shared/TranslateWidget.tsx:134-137 | the flag is removed from storage and nothing else |
| TranslateWidget.ToggleTwice | app/components/shared/TranslateWidget.tsx:53-55 | two toggles restore the locale and the document language and leave the locale stored |
| TranslateWidget.ResetThenMount | app/components/shared/TranslateWidget.tsx:28-31 | after a reset the next mount shows the widget |
| LanguageSwitcher.SupportedCodes | app/components/shared/LanguageSwitcher.tsx:7-10 | exactly `en` and `es` are supported |
| LanguageSwitcher.PrimarySubtag | app/components/shared/LanguageSwitcher.tsx:26 | the part before the first `-`, free of `-` |
| LanguageSwitcher.Negotiate | app/components/shared/LanguageSwitcher.tsx:20-30 | a stored supported code wins; otherwise the browser language's primary subtag when it is supported; otherwise the current code |
| LanguageSwitcher.NegotiationAgrees | app/components/shared/LanguageSwitcher.tsx:20-30 | starting from `en`, the menu settles on the provider's initial locale for every input |
| LanguageSwitcher.Find | app/components/shared/LanguageSwitcher.tsx:40 | a found entry is in the list with that code; none exactly when no entry has it |
| LanguageSwitcher.CurrentLanguage | app/components/shared/LanguageSwitcher.tsx:40 | the entry for a supported code, otherwise English |
| LanguageSwitcher.LanguageMenu.constructor | app/components/shared/LanguageSwitcher.tsx:17-18 | English, menu closed |
| LanguageSwitcher.LanguageMenu.Mount | app/components/shared/LanguageSwitcher.tsx:20-30 | the code becomes `Negotiate` of the stored value and the browser language |
| LanguageSwitcher.LanguageMenu.HandleLanguageChange | app/components/shared/LanguageSwitcher.tsx:32-38 | the code is adopted, stored and set on the document; the menu closes |
| LanguageSwitcher.LanguageMenu.ToggleMenu | app/components/shared/LanguageSwitcher.tsx:77 | the menu flips and the code stays |
| LanguageSwitcher.LanguageMenu.Shown | app/components/shared/LanguageSwitcher.tsx:40 | the button shows the entry of the current code |
| Page.DocumentElement.constructor | app/root.tsx:49 | the page is served with `lang="en"` |
| Page.DocumentElement.SetLang | app/providers/TranslationProvider.tsx:112 | the attribute becomes the given code |
| Storage.LocalStorage.GetItem | app/providers/TranslationProvider.tsx:77 | a stored value, or none exactly when the key is absent |
| Storage.LocalStorage.SetItem | app/providers/TranslationProvider.tsx:111 | the key now maps to the value and every other key is kept |
| Storage.LocalStorage.RemoveItem | app/components/shared/TranslateWidget.tsx:135 | the key is gone and every other key is kept |
| Text.IndexOf | app/providers/TranslationProvider.tsx:83 | the position of the first occurrence of a character, or the length when there is none |
| Text.Split | app/providers/TranslationProvider.tsx:21 | at least one piece, none holding the separator, the first being everything before the first separator |
| Text.Trim | app/components/ui/avatar.tsx:9 | the result neither starts nor ends with whitespace |
| Text.SplitOnSpaces | app/components/ui/avatar.tsx:9 | at least one piece, none holding whitespace |
| Text.ReplaceSpaceRuns | app/lib/schema.ts:204 | replacing whitespace runs by a whitespace-free string leaves no whitespace |
| Text.ToUpper | app/components/ui/avatar.tsx:11 | same length; each ASCII lower-case letter becomes its capital and every other character is kept |
| Text.ToLower | app/lib/schema.ts:204 | same length; each ASCII capital becomes its lower-case letter and every other character is kept |
| Contact.IsValidEmail | app/routes/contact.tsx:43-46 | an accepted address has at least five characters, an `@` and no whitespace |
| Contact.ValidEmailIffPattern | app/routes/contact.tsx:43-46 | the address check accepts exactly the strings the pattern matches |
| Contact.AddressAccepted | app/routes/contact.tsx:43-46 | an address `local@host.tld` whose three parts are non-empty and free of whitespace and `@` is accepted |
| Contact.Action | app/routes/contact.tsx:29-64 | the form is posted exactly when it is complete with a well-formed address; success exactly when posted and the response is ok; an error message exactly when not successful |
| Contact.MissingFieldFirst | app/routes/contact.tsx:33-40 | a blank required field gives the missing-fields message and nothing is posted |
| Contact.BadEmailSecond | app/routes/contact.tsx:43-46 | a complete form with a malformed address gives the invalid-email message and nothing is posted |
| Contact.PostDecides | app/routes/contact.tsx:48-63 | a valid form is posted; ok, not ok and a thrown error give success, the failed message and the error message |
| Contact.OtherFieldsIgnored | app/routes/contact.tsx:33-40 | adding, changing or removing a field outside the four required ones changes nothing |
| Contact.OnlyFirstName | app/routes/contact.test.tsx:169-183 | a form with only a first name reports missing fields |
| Contact.InvalidEmailRejected | app/routes/contact.test.tsx:185-201 | `invalid-email` is rejected as an invalid address |
| Contact.JohnSubmits | app/routes/contact.test.tsx:203-271 | the tests' forms are posted; an ok response, one that is not ok and a thrown error give the three expected results |
| Avatar.GetInitials | app/components/ui/avatar.tsx:8-14 | at most two characters, none a lower-case letter, and empty exactly when the name is blank |
| Avatar.PaddingIgnored | app/components/ui/avatar.tsx:9 | whitespace around the name does not change the initials |
| Avatar.BlankName | app/components/ui/avatar.tsx:9-11 | a blank name has no initials |
| Avatar.SingleWord | app/components/ui/avatar.tsx:10-12 | one word gives its first two characters upper-cased |
| Avatar.SeveralWords | app/components/ui/avatar.tsx:13 | several words give the first letters of the first and last words upper-cased |
| Avatar.TwoWords | app/components/ui/avatar.tsx:10-13 | a first and a last name one space apart give their first letters upper-cased |
| Avatar.VanessaDelgado | app/components/ui/avatar.tsx:8-14 | `Vanessa Delgado` gives `VD` |
| Schema.BreadcrumbSchema | app/lib/schema.ts:237-248 | one list item per crumb, in order, with positions 1, 2, … |
| Schema.BreadcrumbRoundTrip | app/lib/schema.ts:241-246 | the crumbs can be read back from the list items unchanged |
| Schema.BreadcrumbPositions | app/lib/schema.ts:243 | positions are consecutive from 1 |
| Schema.Slug | app/lib/schema.ts:204 | a slug has no whitespace |
| Schema.SlugJoinsWords | app/lib/schema.ts:204 | the slug is the lower-cased name's words joined by `-` |
| Schema.AttorneyId | app/lib/schema.ts:204 | the id is the attorneys page URL, `#`, and the slug, with no whitespace after the `#` |
| Schema.AttorneyIdsDistinct | app/lib/schema.ts:204 | attorneys with different slugs get different ids |
| Schema.AttorneySchemas | app/lib/schema.ts:200-219 | one person per attorney with the slug id and the firm's legal-service id as employer |
| Schema.AttorneyRoundTrip | app/lib/schema.ts:200-219 | the attorneys can be read back from the records unchanged |
| Schema.VanessaSlug | app/lib/schema.ts:204 | `Vanessa Delgado` gives `vanessa-delgado` |
| Schema.SiteAttorneyIds | app/lib/schema.ts:36-56 | the first attorney's id ends in `#vanessa-delgado` |
| Schema.FaqSchema | app/lib/schema.ts:222-235 | one question per FAQ |
| Schema.FaqRoundTrip | app/lib/schema.ts:226-233 | the FAQs can be read back from the page unchanged |
| Schema.SiteFaqPage | app/lib/schema.ts:81-126 | the site's page has 11 questions, starting with the real-estate closing one |
| Schema.AreasServed | app/lib/schema.ts:175-178 | one area per served county |
| Schema.Offers | app/lib/schema.ts:188-195 | one offer per practice area |
| Schema.LegalServiceSchema | app/lib/schema.ts:153-198 | as many areas as counties and offers as practice areas |
| Schema.LegalServiceRoundTrip | app/lib/schema.ts:175-195 | the served areas and the practice areas, names and descriptions in order, can be read back from the two lists unchanged |
| Schema.SiteLists | app/lib/schema.ts:24 | three counties and five offers, starting with real-estate closings |
| FaviconIco.ReadWrite | scripts/generate-favicons.mjs:72-87 | reading back a little-endian number written in range gives the number |
| FaviconIco.WriteRead | scripts/generate-favicons.mjs:72-87 | writing back the number read from bytes gives the bytes |
| FaviconIco.Splice | scripts/generate-favicons.mjs:72-87 | a write replaces exactly the bytes at its position and keeps the rest |
| FaviconIco.SpliceSplice | scripts/generate-favicons.mjs:79-87 | two adjacent writes are one write of both |
| FaviconIco.WriteUIntLE | scripts/generate-favicons.mjs:72-87 | a write succeeds exactly when the value and position are in range, then splices the little-endian bytes; otherwise the buffer is unchanged |
| FaviconIco.Offsets | scripts/generate-favicons.mjs:63-68 | one offset per image |
| FaviconIco.OffsetsChain | scripts/generate-favicons.mjs:63-68 | the first image starts after header and directory; each next one right after the previous |
| FaviconIco.Header | scripts/generate-favicons.mjs:71-74 | the header is 6 bytes |
| FaviconIco.Entry | scripts/generate-favicons.mjs:80-87 | a directory entry is 16 bytes |
| FaviconIco.Encodable | scripts/generate-favicons.mjs:71-88 | no write throws only when every image is shorter than 2^32 bytes and every size fits a byte |
| FaviconIco.Layout | scripts/generate-favicons.mjs:90 | the file is 6 + 16n bytes plus the images |
| FaviconIco.IcoFile | scripts/generate-favicons.mjs:58-90 | a file exists exactly when every field fits its width |
| FaviconIco.WriteEntry | scripts/generate-favicons.mjs:79-87 | the eight writes succeed exactly when the entry fits, and then place its 16 bytes |
| FaviconIco.WriteField | scripts/generate-favicons.mjs:80-87 | one write of an entry succeeds exactly when its value fits, and extends the bytes written so far by the value's little-endian bytes |
| FaviconIco.ComputeOffsets | scripts/generate-favicons.mjs:63-68 | the running-offset loop computes `Offsets` |
| FaviconIco.BuildHeader | scripts/generate-favicons.mjs:71-74 | the header is written exactly when the count fits 16 bits |
| FaviconIco.BuildDirectory | scripts/generate-favicons.mjs:77-88 | the directory is written exactly when every entry fits, as the concatenation of the entries |
| FaviconIco.WriteNextEntry | scripts/generate-favicons.mjs:78-87 | writing entry i succeeds exactly when it fits, and then the directory so far is the first i+1 entries |
| FaviconIco.GenerateIco | scripts/generate-favicons.mjs:41-90 | the whole encoder returns exactly `IcoFile` |
| FaviconIco.HeaderFirst | scripts/generate-favicons.mjs:71-74 | the file starts with the header |
| FaviconIco.HeaderRead | scripts/generate-favicons.mjs:71-74 | the header reads back reserved 0, type 1 and the image count |
| FaviconIco.EntryLocated | scripts/generate-favicons.mjs:78-90 | entry i sits at byte 6 + 16i |
| FaviconIco.EntryRead | scripts/generate-favicons.mjs:80-87 | the 16 bytes of an entry whose fields fit read back as the dimension twice, 0, 0, one plane, 32 bits per pixel, the image length and its offset |
| FaviconIco.EntryFields | scripts/generate-favicons.mjs:78-87 | when entry i fits, the 16 bytes at 6 + 16i of the file read back as image i's dimension twice, 0, 0, one plane, 32 bits, its length and its offset |
| FaviconIco.ImageLocated | scripts/generate-favicons.mjs:63-68 | image i sits in the file at the offset its entry records |
| FaviconIco.SiteIcon | scripts/generate-favicons.mjs:43 | with three images under 256 MiB the site's icon is encodable, starts `0 0 1 0 3 0`, then 16, and its first image sits at byte 54 |

## Left out

- Translation.TranslationProvider.LoadTranslations: a failed load is logged with `console.error`; the log is not modelled, only that the translations stay as they were.
- Translation.TranslationProvider.HandleLanguageChange: only the provider's own `languagechange` event, which carries the locale, is modelled. The browser's native event of the same name has no `detail`, and on it the listener throws when it reads the locale.
- Fetches and their ordering. The translation document, the contact post and the ICO's PNG images are parameters: the outcome of each fetch, or the bytes. Two loads racing to finish are modelled in the order they finish, as `SetLocale` takes them. Each operation applies its own loads' outcomes before it returns, so loads of different operations never interleave: a load started by `Initialize` or by an earlier toggle that finishes after a later `SetLocale`'s loads would leave the other locale's document in place while `locale` is the new one, and the model cannot reach that state.
- JSON numbers are integers. Floating point and the prototype chain are not modelled: `key in value` on a JSON object sees only the object's own keys.
- Case mapping is ASCII only. Strings are sequences of characters, not UTF-16 code units.
- The contact form's request body (`URLSearchParams`) and file entries are not modelled. A field is either a string or absent.
- `matchMedia` and DOM events are method calls: `OnMotionPreferenceChange` and `HandleClickOutside` with where the click landed.
- The page reload after `resetTranslateWidget` becomes a fresh mount (`ResetThenMount`). Particle effects, timers and animations are left out.
- `sharp`'s PNG rendering and the file write (`writeFileSync`) are left out. The PNG images are arbitrary byte sequences.
- `generateOrganizationSchema` and `generateWebsiteSchema` return constant literals and are not modelled. The opening-hours mapping of the legal-service schema is not modelled either.
- The language menu keeps its own state. Like the source, it does not follow the provider's `languagechange` events.
- Translation.TranslationProvider.TRaw: no contract of its own; it is `NestedRawValue` of the current translations, and `GetNestedRawValue` carries the contract.
