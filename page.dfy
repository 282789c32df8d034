/** The page's root element, whose `lang` attribute several components set. */
module Page {

  class DocumentElement {
    /** The `lang` attribute of `<html>`. */
    var lang: string

    /** The page as served: `<html lang="en">`. */
    constructor ()
      ensures lang == "en"
    {
      lang := "en";
    }

    /** `document.documentElement.lang = code`. */
    method SetLang(code: string)
      modifies this
      ensures lang == code
    {
      lang := code;
    }
  }
}
