/** The structured-data generators: the breadcrumb trail, the attorneys'
    person records with their slug identifiers, the FAQ page, and the
    served areas and offers of the legal-service record. Each is a
    one-to-one mapping over a list, in order. */
module Schema {
  import opened Text

  const SITE_URL := "https://silly-gaufre-e5b859.netlify.app"
  const CONTEXT := "https://schema.org"

  // ---------------------------------------------------------------------------
  // breadcrumbs

  datatype Crumb = Crumb(name: string, url: string)
  datatype ListItem = ListItem(position: int, name: string, item: string)
  datatype BreadcrumbList = BreadcrumbList(context: string, itemListElement: seq<ListItem>)

  /** `generateBreadcrumbSchema(items)`: element `i` is the `i`-th crumb at
      position `i + 1`. */
  function BreadcrumbSchema(items: seq<Crumb>): (r: BreadcrumbList)
    ensures r.context == CONTEXT
    ensures |r.itemListElement| == |items|
    ensures forall i :: 0 <= i < |items| ==> r.itemListElement[i].position == i + 1
  {
    BreadcrumbList(CONTEXT,
      seq(|items|, i requires 0 <= i < |items| => ListItem(i + 1, items[i].name, items[i].url)))
  }

  /** Reading the crumbs back off a list. */
  function CrumbsOf(list: seq<ListItem>): (items: seq<Crumb>)
    ensures |items| == |list|
  {
    seq(|list|, i requires 0 <= i < |list| => Crumb(list[i].name, list[i].item))
  }

  /** Nothing is lost: the crumbs come back in order. */
  lemma BreadcrumbRoundTrip(items: seq<Crumb>)
    ensures CrumbsOf(BreadcrumbSchema(items).itemListElement) == items
  {
    var back := CrumbsOf(BreadcrumbSchema(items).itemListElement);
    forall i | 0 <= i < |items| ensures back[i] == items[i] {}
  }

  /** The positions run 1, 2, ..., n: the first is 1 and each is one more
      than the one before. */
  lemma BreadcrumbPositions(items: seq<Crumb>)
    ensures var list := BreadcrumbSchema(items).itemListElement;
      && (|list| > 0 ==> list[0].position == 1)
      && (forall i :: 0 < i < |list| ==> list[i].position == list[i - 1].position + 1)
      && (|list| > 0 ==> list[|list| - 1].position == |items|)
  {
  }

  // ---------------------------------------------------------------------------
  // attorneys

  datatype Attorney = Attorney(name: string, jobTitle: string, description: string,
                               image: string, alumniOf: string, sameAs: seq<string>)

  datatype Person = Person(context: string, id: string, name: string, jobTitle: string,
                           description: string, image: string, alumniOf: string,
                           worksForId: string, worksForName: string, sameAs: seq<string>)

  const FIRM_NAME := "Delgado Legal P.A."
  const LEGAL_SERVICE_ID := SITE_URL + "/#legalservice"

  /** The name lower-cased with every whitespace run replaced by `-`. */
  function Slug(name: string): (r: string)
    ensures NoSpace(r)
  {
    GraphicNotSpace('-');
    assert NoSpace("-");
    ReplaceSpaceRuns(ToLower(name), "-")
  }

  /** The slug is the lower-cased name's words joined by `-`. */
  lemma SlugJoinsWords(name: string)
    ensures Slug(name) == JoinWith(SplitOnSpaces(ToLower(name)), "-")
  {
    ReplaceIsSplitJoin(ToLower(name), 0, "-");
  }

  /** A person's identifier: the attorneys page with the slug as fragment. */
  function AttorneyId(name: string): (id: string)
    ensures id == SITE_URL + "/attorneys#" + Slug(name)
    ensures NoSpace(id[|SITE_URL + "/attorneys#"|..])
  {
    var prefix := SITE_URL + "/attorneys#";
    assert (prefix + Slug(name))[|prefix|..] == Slug(name);
    prefix + Slug(name)
  }

  /** Different slugs give different identifiers. */
  lemma AttorneyIdsDistinct(a: string, b: string)
    requires Slug(a) != Slug(b)
    ensures AttorneyId(a) != AttorneyId(b)
  {
    var prefix := SITE_URL + "/attorneys#";
    assert AttorneyId(a)[|prefix|..] == Slug(a);
    assert AttorneyId(b)[|prefix|..] == Slug(b);
  }

  /** `generateAttorneySchemas()` over a list of attorneys: one person per
      attorney, in order, with the attorney's fields copied and the slug
      identifier. */
  function AttorneySchemas(attorneys: seq<Attorney>): (r: seq<Person>)
    ensures |r| == |attorneys|
    ensures forall i :: 0 <= i < |r| ==>
      && r[i].id == AttorneyId(attorneys[i].name)
      && r[i].worksForId == LEGAL_SERVICE_ID
  {
    seq(|attorneys|, i requires 0 <= i < |attorneys| =>
      var a := attorneys[i];
      Person(CONTEXT, AttorneyId(a.name), a.name, a.jobTitle, a.description, a.image,
             a.alumniOf, LEGAL_SERVICE_ID, FIRM_NAME, a.sameAs))
  }

  /** Reading the attorneys back off the person records. */
  function AttorneysOf(people: seq<Person>): (r: seq<Attorney>)
    ensures |r| == |people|
  {
    seq(|people|, i requires 0 <= i < |people| =>
      var p := people[i];
      Attorney(p.name, p.jobTitle, p.description, p.image, p.alumniOf, p.sameAs))
  }

  lemma AttorneyRoundTrip(attorneys: seq<Attorney>)
    ensures AttorneysOf(AttorneySchemas(attorneys)) == attorneys
  {
    var back := AttorneysOf(AttorneySchemas(attorneys));
    forall i | 0 <= i < |attorneys| ensures back[i] == attorneys[i] {}
  }

  const ATTORNEYS: seq<Attorney> := [
    Attorney("Vanessa Delgado", "Attorney / Partner",
      "Attorney specializing in Real Estate Litigation, Real Estate Transactions, Landlord/Tenant Disputes, and Estate Planning.",
      SITE_URL + "/images/team/vanessa.webp",
      "Florida International University College of Law",
      ["https://www.linkedin.com/in/vanessa-delgado-a4b090a/"]),
    Attorney("Michael Delgado", "Attorney / Partner",
      "Attorney specializing in Real Estate Consumer Matters. Rising Star 2022 recognition from Super Lawyers.",
      SITE_URL + "/images/team/michael.webp",
      "St. Thomas University School of Law",
      ["https://www.linkedin.com/in/michael-delgado-b9728927/",
       "https://profiles.superlawyers.com/florida/hialeah/lawyer/michael-delgado/fc4bc44e-6b76-4b98-b79a-f6668d618255.html"])
  ]

  /** The first attorney's slug. */
  lemma VanessaSlug()
    ensures Slug("Vanessa Delgado") == "vanessa-delgado"
  {
    LowerVanessa();
    DashVanessa("vanessa delgado");
  }

  lemma LowerVanessa()
    ensures ToLower("Vanessa Delgado") == "vanessa delgado"
  {
  }

  lemma DashVanessa(s: string)
    requires s == "vanessa delgado"
    ensures ReplaceSpaceRuns(s, "-") == "vanessa-delgado"
  {
    assert IsSpace(s[7]);
    forall k | 0 <= k < |s| && k != 7 ensures !IsSpace(s[k]) {
      GraphicNotSpace(s[k]);
    }
    GraphicNotSpace('-');
    assert NextSpace(s, 0) == 7;
    ReplaceKeepsWord(s, 0, "-");
    assert NextNonSpace(s, 7) == 8;
    ReplaceNoSpace(s, 8, "-");
    assert ReplaceFrom(s, 7, "-") == "-" + s[8..];
  }

  // ---------------------------------------------------------------------------
  // the FAQ page

  datatype Faq = Faq(question: string, answer: string)
  datatype Question = Question(name: string, acceptedAnswer: string)
  datatype FaqPage = FaqPage(context: string, mainEntity: seq<Question>)

  /** `generateFAQSchema()` over a list of questions: one question per entry,
      in order, named by the question and answered by the answer. */
  function FaqSchema(faqs: seq<Faq>): (r: FaqPage)
    ensures r.context == CONTEXT
    ensures |r.mainEntity| == |faqs|
  {
    FaqPage(CONTEXT, seq(|faqs|, i requires 0 <= i < |faqs| => Question(faqs[i].question, faqs[i].answer)))
  }

  function FaqsOf(page: FaqPage): (r: seq<Faq>)
    ensures |r| == |page.mainEntity|
  {
    seq(|page.mainEntity|, i requires 0 <= i < |page.mainEntity| =>
      Faq(page.mainEntity[i].name, page.mainEntity[i].acceptedAnswer))
  }

  /** Every question keeps its own answer, in order. */
  lemma FaqRoundTrip(faqs: seq<Faq>)
    ensures FaqsOf(FaqSchema(faqs)) == faqs
  {
    var back := FaqsOf(FaqSchema(faqs));
    forall i | 0 <= i < |faqs| ensures back[i] == faqs[i] {}
  }

  const FAQS: seq<Faq> := [
    Faq("What is a real estate closing?",
      "A real estate closing is the final step in a property transaction where ownership is legally transferred from the seller to the buyer. It involves signing documents, transferring funds, and recording the deed."),
    Faq("How long does a typical closing take?",
      "A typical real estate closing takes 30-45 days from contract to close, though this can vary based on financing, inspections, and other factors."),
    Faq("What documents should I bring to closing?",
      "You should bring a valid government-issued photo ID, proof of homeowner's insurance, certified funds or wire transfer confirmation, and any documents your attorney or lender has requested."),
    Faq("Do you offer mobile closings?",
      "Yes, we offer mobile closings throughout South Florida for your convenience. We can meet at your home, office, or another convenient location."),
    Faq("How do you work with real estate agents?",
      "We work closely with real estate agents throughout the transaction, providing timely communication, coordinating schedules, and ensuring a smooth closing process for their clients."),
    Faq("Can you handle complex transactions?",
      "Yes, we handle complex transactions including commercial properties, multi-unit properties, short sales, and transactions involving trusts or estates."),
    Faq("Why do I need a will?",
      "A will ensures your assets are distributed according to your wishes, designates guardians for minor children, and can simplify the probate process for your loved ones."),
    Faq("What's the difference between a will and a trust?",
      "A will takes effect after death and goes through probate. A trust can take effect immediately, avoids probate, provides privacy, and offers more control over asset distribution timing."),
    Faq("How do I schedule a consultation?",
      "You can schedule a consultation by calling us at (786) 762-2389, emailing michael@delgadolegalpa.com, or filling out the contact form on our website."),
    Faq("What areas do you serve?",
      "We serve clients throughout South Florida, including Miami-Dade, Broward, and Palm Beach counties. We also offer mobile closings for added convenience."),
    Faq("What are your fees?",
      "Our fees vary depending on the type of service and complexity of the matter. We provide custom quotes after understanding your specific needs. Contact us for a consultation.")
  ]

  /** The site's FAQ page has a question for each of its eleven entries. */
  lemma SiteFaqPage()
    ensures |FaqSchema(FAQS).mainEntity| == 11
    ensures FaqSchema(FAQS).mainEntity[0].name == "What is a real estate closing?"
  {
  }

  // ---------------------------------------------------------------------------
  // the legal-service record's lists

  datatype AdministrativeArea = AdministrativeArea(name: string)
  datatype PracticeArea = PracticeArea(name: string, description: string)
  datatype Offer = Offer(serviceName: string, serviceDescription: string)
  datatype LegalServiceLists = LegalServiceLists(areaServed: seq<AdministrativeArea>, offers: seq<Offer>)

  const AREA_SERVED: seq<string> := ["Miami-Dade County", "Broward County", "Palm Beach County"]

  const PRACTICE_AREAS: seq<PracticeArea> := [
    PracticeArea("Real Estate Closings",
      "Residential closings, title search & insurance, contracts review, settlement services, refinancing, and FSBO transactions."),
    PracticeArea("Foreclosure Defense",
      "Loan modification, litigation, short sale assistance, deed in lieu, loss mitigation, and bankruptcy alternatives."),
    PracticeArea("Commercial Transactions",
      "Commercial closings, lease negotiations, asset purchases, due diligence, contracts, and title services."),
    PracticeArea("Estate Planning",
      "Wills, trusts, power of attorney, healthcare directives, probate, asset protection, and estate administration."),
    PracticeArea("Uncontested Divorces",
      "Divorce filing, settlement agreements, property division, parenting plans, name changes, and final judgments.")
  ]

  /** The `areaServed` list: one administrative area per served area, named
      after it. */
  function AreasServed(areas: seq<string>): (r: seq<AdministrativeArea>)
    ensures |r| == |areas|
  {
    seq(|areas|, i requires 0 <= i < |areas| => AdministrativeArea(areas[i]))
  }

  /** The offer catalogue: one offered service per practice area. */
  function Offers(areas: seq<PracticeArea>): (r: seq<Offer>)
    ensures |r| == |areas|
  {
    seq(|areas|, i requires 0 <= i < |areas| => Offer(areas[i].name, areas[i].description))
  }

  /** The two lists of `generateLegalServiceSchema()`, built from the site's
      served areas and practice areas. */
  function LegalServiceSchema(): (r: LegalServiceLists)
    ensures |r.areaServed| == |AREA_SERVED| && |r.offers| == |PRACTICE_AREAS|
  {
    LegalServiceLists(AreasServed(AREA_SERVED), Offers(PRACTICE_AREAS))
  }

  /** The served areas read back from the `areaServed` list. */
  function AreaNames(list: seq<AdministrativeArea>): (areas: seq<string>)
    ensures |areas| == |list|
  {
    seq(|list|, i requires 0 <= i < |list| => list[i].name)
  }

  /** The practice areas read back from the offer catalogue. */
  function PracticeAreasOf(offers: seq<Offer>): (areas: seq<PracticeArea>)
    ensures |areas| == |offers|
  {
    seq(|offers|, i requires 0 <= i < |offers| =>
      PracticeArea(offers[i].serviceName, offers[i].serviceDescription))
  }

  /** Both lists lose nothing: the served areas and the practice areas,
      names and descriptions, in order, can be read back from them. */
  lemma LegalServiceRoundTrip(areas: seq<string>, practice: seq<PracticeArea>)
    ensures AreaNames(AreasServed(areas)) == areas
    ensures PracticeAreasOf(Offers(practice)) == practice
  {
    var a := AreaNames(AreasServed(areas));
    forall i | 0 <= i < |areas| ensures a[i] == areas[i] {}
    var p := PracticeAreasOf(Offers(practice));
    forall i | 0 <= i < |practice| ensures p[i] == practice[i] {}
  }

  /** The site's record lists three areas and five offers, the first offer
      being closings. */
  lemma SiteLists()
    ensures |LegalServiceSchema().areaServed| == 3
    ensures |LegalServiceSchema().offers| == 5
    ensures LegalServiceSchema().offers[0].serviceName == "Real Estate Closings"
  {
  }

  /** The site's first attorney is identified by the slug of the name. */
  lemma SiteAttorneyIds()
    ensures AttorneySchemas(ATTORNEYS)[0].id == SITE_URL + "/attorneys#" + "vanessa-delgado"
  {
    var first := ATTORNEYS[0];
    assert first.name == "Vanessa Delgado";
    assert AttorneySchemas(ATTORNEYS)[0].id == AttorneyId(first.name);
    VanessaSlug();
  }
}
