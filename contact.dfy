/** The contact form's server action: required fields, the shape of the
    email address, then the outcome of posting the form, each mapped to a
    fixed result. */
module Contact {
  import opened Wrappers
  import opened Text

  /** The submitted fields, by name. A field that was not sent is absent. */
  type FormData = map<string, string>

  /** How posting the form ended: a response, ok or not, or a thrown error. */
  datatype FetchOutcome = Responded(ok: bool) | Threw

  /** The action's result. */
  datatype ActionData = ActionData(success: bool, error: Option<string>)

  /** The result together with whether the form was posted at all. */
  datatype Response = Response(data: ActionData, submitted: bool)

  const REQUIRED: seq<string> := ["firstName", "lastName", "email", "message"]

  const MISSING_FIELDS := "Please fill in all required fields."
  const INVALID_EMAIL := "Please enter a valid email address."
  const SUBMIT_FAILED := "Failed to submit form. Please try again."
  const SUBMIT_ERROR := "An error occurred. Please try again later."

  /** `formData.get(name)` is falsy: absent, or the empty string. */
  predicate Blank(form: FormData, name: string) {
    name !in form || form[name] == ""
  }

  /** Every required field is filled in. */
  predicate Complete(form: FormData) {
    !Blank(form, "firstName") && !Blank(form, "lastName") && !Blank(form, "email") && !Blank(form, "message")
  }

  // ---------------------------------------------------------------------------
  // the email pattern /^[^\s@]+@[^\s@]+\.[^\s@]+$/

  /** Positions `i` up to `j` of `s` are all matched by the class `[^\s@]`. */
  predicate Plain(s: string, i: int, j: int)
    requires 0 <= i <= j <= |s|
  {
    forall k :: i <= k < j ==> !IsSpace(s[k]) && s[k] != '@'
  }

  /** The pattern read off directly: `s` is a non-empty plain run, `@`,
      a non-empty plain run, `.`, and a non-empty plain run, with the `@` at
      position `at` and the `.` at position `dot`. */
  ghost predicate PatternAt(s: string, at: int, dot: int) {
    && 0 < at && at + 1 < dot && dot + 1 < |s|
    && s[at] == '@' && s[dot] == '.'
    && Plain(s, 0, at) && Plain(s, at + 1, dot) && Plain(s, dot + 1, |s|)
  }

  ghost predicate MatchesPattern(s: string) {
    exists at, dot :: PatternAt(s, at, dot)
  }

  /** The check the action runs: no whitespace, a first `@` with text before
      it and no other `@` after it, and after it a `.` that is neither the
      first nor the last character of the rest. */
  function IsValidEmail(s: string): (b: bool)
    ensures b ==> |s| >= 5 && '@' in s && NoSpace(s)
  {
    var at := IndexOf(s, '@');
    && NoSpace(s)
    && 0 < at < |s|
    && (forall k :: at < k < |s| ==> s[k] != '@')
    && exists dot :: at + 1 < dot < |s| - 1 && s[dot] == '.'
  }

  /** The check accepts exactly the strings the pattern matches. */
  lemma ValidEmailIffPattern(s: string)
    ensures IsValidEmail(s) <==> MatchesPattern(s)
  {
    if IsValidEmail(s) {
      var at := IndexOf(s, '@');
      var dot :| at + 1 < dot < |s| - 1 && s[dot] == '.';
      assert PatternAt(s, at, dot);
    }
    if MatchesPattern(s) {
      var at, dot :| PatternAt(s, at, dot);
      assert !IsSpace('@') && !IsSpace('.');
      assert IndexOf(s, '@') == at by {
        FirstAt(s, at);
      }
    }
  }

  lemma FirstAt(s: string, at: int)
    requires 0 <= at < |s| && s[at] == '@'
    requires forall k :: 0 <= k < at ==> s[k] != '@'
    ensures IndexOf(s, '@') == at
  {
  }

  /** Without an `@` nothing is an address. */
  lemma NoAtInvalid(s: string)
    requires '@' !in s
    ensures !IsValidEmail(s)
  {
  }

  // ---------------------------------------------------------------------------
  // the action

  /** The action for the submitted `form`, where `post` is how posting it
      would end. */
  function Action(form: FormData, post: FetchOutcome): (r: Response)
    ensures r.data.success <==> r.submitted && post == Responded(true)
    ensures r.data.success ==> r.data.error.None?
    ensures !r.data.success ==> r.data.error.Some?
    ensures r.submitted <==> Complete(form) && IsValidEmail(form["email"])
  {
    if Blank(form, "firstName") || Blank(form, "lastName") || Blank(form, "email") || Blank(form, "message") then
      Response(ActionData(false, Some(MISSING_FIELDS)), false)
    else if !IsValidEmail(form["email"]) then
      Response(ActionData(false, Some(INVALID_EMAIL)), false)
    else
      match post
      case Responded(ok) =>
        if !ok then Response(ActionData(false, Some(SUBMIT_FAILED)), true)
        else Response(ActionData(true, None), true)
      case Threw => Response(ActionData(false, Some(SUBMIT_ERROR)), true)
  }

  /** A blank required field is reported before anything else is looked at,
      and nothing is posted. */
  lemma MissingFieldFirst(form: FormData, post: FetchOutcome, name: string)
    requires name in REQUIRED && Blank(form, name)
    ensures Action(form, post) == Response(ActionData(false, Some(MISSING_FIELDS)), false)
  {
  }

  /** With every required field present, a malformed address is reported
      and nothing is posted. */
  lemma BadEmailSecond(form: FormData, post: FetchOutcome)
    requires Complete(form) && !MatchesPattern(form["email"])
    ensures Action(form, post) == Response(ActionData(false, Some(INVALID_EMAIL)), false)
  {
    ValidEmailIffPattern(form["email"]);
  }

  /** A complete form with a well-formed address is posted, and the result
      is decided by the post alone. */
  lemma PostDecides(form: FormData, post: FetchOutcome)
    requires Complete(form) && MatchesPattern(form["email"])
    ensures Action(form, post).submitted
    ensures post == Responded(true) ==> Action(form, post).data == ActionData(true, None)
    ensures post == Responded(false) ==> Action(form, post).data == ActionData(false, Some(SUBMIT_FAILED))
    ensures post == Threw ==> Action(form, post).data == ActionData(false, Some(SUBMIT_ERROR))
  {
    ValidEmailIffPattern(form["email"]);
  }

  /** Only the four required fields matter: the phone, the form name or any
      other field can be added, changed or left out. */
  lemma OtherFieldsIgnored(form: FormData, post: FetchOutcome, name: string, value: string)
    requires name !in REQUIRED
    ensures Action(form[name := value], post) == Action(form, post)
    ensures Action(form - {name}, post) == Action(form, post)
  {
    var f1 := form[name := value];
    var f2 := form - {name};
    forall k | k in REQUIRED ensures (k in f1 <==> k in form) && (k in f1 ==> f1[k] == form[k]) {}
    forall k | k in REQUIRED ensures (k in f2 <==> k in form) && (k in f2 ==> f2[k] == form[k]) {}
    assert "firstName" in REQUIRED && "lastName" in REQUIRED;
    assert "email" in REQUIRED && "message" in REQUIRED;
  }

  // ---------------------------------------------------------------------------
  // the cases the test suite checks

  /** The form of the tests whose post fails. */
  const JOHN: FormData := map["form-name" := "contact", "firstName" := "John", "lastName" := "Doe",
                               "email" := "john@example.com", "message" := "Hello"]

  /** The form of the test whose post succeeds. */
  const JOHN_QUESTION: FormData := JOHN["message" := "Hello, I have a question."]

  /** The form of the malformed-address test. */
  const BAD_ADDRESS: FormData := map["firstName" := "John", "lastName" := "Doe",
                                     "email" := "invalid-email", "message" := "Hello"]

  lemma OnlyFirstName(post: FetchOutcome)
    ensures Action(map["firstName" := "John"], post).data == ActionData(false, Some(MISSING_FIELDS))
  {
  }

  lemma InvalidEmailRejected(post: FetchOutcome)
    ensures Action(BAD_ADDRESS, post).data == ActionData(false, Some(INVALID_EMAIL))
  {
    var form := BAD_ADDRESS;
    assert Complete(form);
    NoAtInvalid(form["email"]);
  }

  lemma JohnEmailValid()
    ensures IsValidEmail("john@example.com")
  {
    LowerWord("john");
    LowerWord("example");
    LowerWord("com");
    AddressAccepted("john", "example", "com");
    JohnAddressParts();
  }

  lemma JohnAddressParts()
    ensures "john" + "@" + "example" + "." + "com" == "john@example.com"
  {
  }

  /** An address `local@host.tld` whose parts are not empty and hold no
      whitespace and no `@` is accepted. */
  lemma AddressAccepted(local: string, host: string, tld: string)
    requires local != [] && host != [] && tld != []
    requires NoSpace(local) && NoSpace(host) && NoSpace(tld)
    requires '@' !in local && '@' !in host && '@' !in tld
    ensures IsValidEmail(local + "@" + host + "." + tld)
  {
    var s := local + "@" + host + "." + tld;
    var at := |local|;
    var dot := at + 1 + |host|;
    assert s[at] == '@' && s[dot] == '.';
    forall k | 0 <= k < at ensures s[k] != '@' {
      assert s[k] == local[k];
    }
    FirstAt(s, at);
    forall k | 0 <= k < |s| ensures !IsSpace(s[k]) && (at < k ==> s[k] != '@') {
      if k < at {
        assert s[k] == local[k];
      } else if at < k < dot {
        assert s[k] == host[k - at - 1];
      } else if dot < k {
        assert s[k] == tld[k - dot - 1];
      } else {
        assert !IsSpace('@') && !IsSpace('.');
      }
    }
  }

  /** A word of lower-case letters has no whitespace and no `@`. */
  lemma LowerWord(w: string)
    requires forall k :: 0 <= k < |w| ==> 'a' <= w[k] <= 'z'
    ensures NoSpace(w) && '@' !in w
  {
    forall k | 0 <= k < |w| ensures !IsSpace(w[k]) {
      GraphicNotSpace(w[k]);
    }
  }

  lemma JohnSubmits()
    ensures Action(JOHN_QUESTION, Responded(true)) == Response(ActionData(true, None), true)
    ensures Action(JOHN, Responded(false)).data == ActionData(false, Some(SUBMIT_FAILED))
    ensures Action(JOHN, Threw).data == ActionData(false, Some(SUBMIT_ERROR))
  {
    assert Complete(JOHN);
    assert Complete(JOHN_QUESTION) && JOHN_QUESTION["email"] == JOHN["email"];
    JohnEmailValid();
  }
}
