/** Building one practitioner record from a result card (`extract_card_data`).
    The browser lookups are not modelled: what each lookup returned is given as
    a `Probe` value, and the record is built from those outcomes by the same
    successive updates the scraper makes to its dictionary, one field group at
    a time, each group isolated from the failures of the others. */
module Extract {
  import opened Text
  import opened CardRecord

  /** The outcome of looking up an element (and reading it): found with its
      value, Selenium's `NoSuchElementException`, or any other exception. */
  datatype Probe<T> = Found(value: T) | NoSuchElement | OtherError

  /** What the lookups on one result card return. */
  datatype Card = Card(
    /** `div[data-test='telehealth-badge']` */
    telehealthBadge: Probe<()>,
    /** `svg[data-test-id='telehealth-icon']`, looked up only when the badge is missing */
    telehealthIcon: Probe<()>,
    /** the text of the name heading `h2.dl-text.dl-text-primary-110` */
    nameHeading: Probe<string>,
    /** the `href` of the heading's nearest enclosing `<a>`; "" when it has none */
    profileHref: Probe<string>,
    /** the availabilities container; when found, the texts of its slot pills in document order */
    availabilityPills: Probe<seq<string>>,
    /** the location icon and its third ancestor `div`; when found, its address
        paragraphs, each with the outcome of reading its text */
    addressParagraphs: Probe<seq<Probe<string>>>,
    /** the text of the label beside the euro-sign icon */
    insuranceLabel: Probe<string>)

  /** Whether the card is a remote consultation: the badge is found, or the
      badge is missing and the icon is found. Any other exception on the badge
      lookup ends the check without looking at the icon. */
  predicate IsTelehealth(badge: Probe<()>, icon: Probe<()>) {
    badge.Found? || (badge.NoSuchElement? && icon.Found?)
  }

  function SetConsultationType(data: Record, badge: Probe<()>, icon: Probe<()>): (r: Record)
    ensures r == data.(consultationType := r.consultationType)
    ensures r.consultationType == REMOTE || r.consultationType == ON_SITE
    ensures r.consultationType == REMOTE <==> IsTelehealth(badge, icon)
  {
    data.(consultationType := if IsTelehealth(badge, icon) then REMOTE else ON_SITE)
  }

  /** A link relative to the site root gets the site's origin in front; any
      other link is kept as it is. */
  function NormalizeLink(href: string): (link: string)
    requires href != ""
    ensures StartsWith(href, "/") ==> StartsWith(link, BASE_URL) && link[|BASE_URL|..] == href
    ensures !StartsWith(href, "/") ==> link == href
  {
    if href[0] == '/' then BASE_URL + href else href
  }

  /** The name is stored as soon as the heading is read, before the link is
      looked up, so a missing `<a>` loses only the link. An empty `href`
      leaves the link as it was. */
  function SetNameAndLink(data: Record, heading: Probe<string>, href: Probe<string>): (r: Record)
    ensures r == data.(fullName := r.fullName, profileLink := r.profileLink)
    ensures heading.Found? ==> r.fullName == Strip(heading.value)
    ensures !heading.Found? ==> r == data
    ensures r.profileLink != data.profileLink ==>
      heading.Found? && href.Found? && href.value != "" && r.profileLink == NormalizeLink(href.value)
    ensures heading.Found? && href.Found? && href.value != "" ==> r.profileLink == NormalizeLink(href.value)
  {
    match heading
    case Found(text) =>
      var named := data.(fullName := Strip(text));
      (match href
       case Found(link) => if link != "" then named.(profileLink := NormalizeLink(link)) else named
       case _ => named)
    case _ => data
  }

  /** One slot label as written: stripped, with its inner newlines turned into spaces. */
  function CleanPill(text: string): string {
    ReplaceNewlines(Strip(text))
  }

  function CleanPills(texts: seq<string>): (cleaned: seq<string>)
    ensures |cleaned| == |texts|
    ensures forall i :: 0 <= i < |texts| ==> cleaned[i] == CleanPill(texts[i]) && '\n' !in cleaned[i]
  {
    seq(|texts|, i requires 0 <= i < |texts| => CleanPill(texts[i]))
  }

  /** The availability cell: the cleaned slot labels joined by ", ", or one of
      three distinct strings for no slot, no container and any other failure.
      The cell never spans two lines. */
  function AvailabilityText(pills: Probe<seq<string>>): (text: string)
    ensures '\n' !in text
    ensures pills.Found? && pills.value != [] ==> IsJoinOf(text, CleanPills(pills.value), ", ")
    ensures pills.Found? && pills.value != [] ==> StartsWith(text, CleanPill(pills.value[0]))
    ensures pills.Found? && pills.value == [] ==> text == NO_UPCOMING_SLOT
    ensures pills.NoSuchElement? ==> text == AVAILABILITY_STRUCTURE_MISSING
    ensures pills.OtherError? ==> text == AVAILABILITY_ERROR
  {
    match pills
    case Found(texts) =>
      if texts == [] then NO_UPCOMING_SLOT
      else
        var cleaned := CleanPills(texts);
        JoinAvoids(cleaned, ", ", '\n');
        JoinStarts(cleaned, ", ");
        Join(cleaned, ", ")
    case NoSuchElement =>
      StructureMissingIsSingleLine();
      AVAILABILITY_STRUCTURE_MISSING
    case OtherError => AVAILABILITY_ERROR
  }

  lemma StructureMissingIsSingleLine()
    ensures '\n' !in AVAILABILITY_STRUCTURE_MISSING
  {
    HeadIsSingleLine();
    TailIsSingleLine();
  }

  lemma HeadIsSingleLine()
    ensures '\n' !in "Disponibilité non trouvée"
  {
  }

  lemma TailIsSingleLine()
    ensures '\n' !in " (structure attendue absente)"
  {
  }

  function SetAvailability(data: Record, pills: Probe<seq<string>>): (r: Record)
    ensures r == data.(nextAvailability := AvailabilityText(pills))
  {
    data.(nextAvailability := AvailabilityText(pills))
  }

  predicate IsPostalCode(s: string) {
    |s| == 5 && forall i :: 0 <= i < 5 ==> IsAsciiDigit(s[i])
  }

  /** The regular expression `(\d{5})\s*(.*)` applied with `re.match`: five
      digits at the start give the postal code; the city is the rest of that
      line after the whitespace that follows the digits, stripped. */
  function MatchPostal(text: string): (m: Option<(string, string)>)
    ensures m.Some? <==> |text| >= 5 && IsPostalCode(text[..5])
    ensures m.Some? ==> m.value.0 == text[..5]
    ensures m.Some? ==> m.value.1 == Strip(TakeLine(StripStart(text[5..])))
    ensures m.Some? && '\n' !in text ==> m.value.1 == Strip(text[5..])
    ensures m.Some? ==> '\n' !in m.value.1 && Strip(m.value.1) == m.value.1
  {
    if |text| >= 5 && IsPostalCode(text[..5]) then
      var line := TakeLine(StripStart(text[5..]));
      var city := Strip(line);
      StripIdempotent(line);
      NoNewlineAfterStrip(line);
      CityOfSingleLine(text[5..]);
      Some((text[..5], city))
    else
      None
  }

  /** On a text without line breaks the city is the whole rest, stripped. */
  lemma CityOfSingleLine(rest: string)
    ensures '\n' !in rest ==> Strip(TakeLine(StripStart(rest))) == Strip(rest)
  {
    if '\n' in rest {
      return;
    }
    var front := StripStart(rest);
    TakeLineWhole(front);
    StripAfterStripStart(rest);
  }

  lemma NoNewlineAfterStrip(s: string)
    requires '\n' !in s
    ensures '\n' !in Strip(s)
  {
    var i, j :| StrippedAt(Strip(s), s, i, j);
  }

  /** `r` holds the postal code and city of `text`: the five leading digits
      and the city after them when it starts with a postal code, otherwise
      the postal code of `data` and the whole text as city. */
  predicate HoldsPostalCity(r: Record, data: Record, text: string) {
    && (MatchPostal(text).Some? ==> r.postalCode == text[..5] && r.city == MatchPostal(text).value.1)
    && (MatchPostal(text).None? ==> r.postalCode == data.postalCode && r.city == text)
  }

  /** The postal code and city of a "code city" text; a text that does not
      start with five digits becomes the city. */
  function ApplyPostalCity(data: Record, text: string): (r: Record)
    ensures r == data.(postalCode := r.postalCode, city := r.city)
    ensures r.postalCode == data.postalCode || IsPostalCode(r.postalCode)
    ensures HoldsPostalCity(r, data, text)
  {
    match MatchPostal(text)
    case Some((code, city)) => data.(postalCode := code, city := city)
    case None => data.(city := text)
  }

  /** The address block: the first paragraph is the street, the second is
      split into postal code and city. With one paragraph the split is applied
      only when the street came out empty. A failed read of a paragraph's text
      stops the block, keeping what was already stored. */
  function SetAddress(data: Record, paragraphs: Probe<seq<Probe<string>>>): (r: Record)
    ensures r == data.(street := r.street, postalCode := r.postalCode, city := r.city)
    ensures r.postalCode == data.postalCode || IsPostalCode(r.postalCode)
    ensures !Readable(paragraphs, 0) ==>
      r.street == data.street && r.postalCode == data.postalCode && r.city == data.city
    ensures Readable(paragraphs, 0) ==> r.street == Strip(paragraphs.value[0].value)
    ensures Readable(paragraphs, 0) && Readable(paragraphs, 1) ==>
      HoldsPostalCity(r, data, Strip(paragraphs.value[1].value))
    ensures Readable(paragraphs, 0) && |paragraphs.value| >= 2 && !Readable(paragraphs, 1) ==>
      r.postalCode == data.postalCode && r.city == data.city
    ensures Readable(paragraphs, 0) && |paragraphs.value| == 1 ==>
      var street := Strip(paragraphs.value[0].value);
      r.postalCode == data.postalCode && r.city == (if street == "" then "" else data.city)
  {
    if !Readable(paragraphs, 0) then data
    else
      var ps := paragraphs.value;
      var withStreet := data.(street := Strip(ps[0].value));
      if |ps| >= 2 then
        if ps[1].Found? then ApplyPostalCity(withStreet, Strip(ps[1].value)) else withStreet
      else if withStreet.street == "" then ApplyPostalCity(withStreet, Strip(ps[0].value))
      else withStreet
  }

  /** The address block's outcome depends on the record only through its
      address fields. */
  lemma SetAddressReadsAddress(data: Record, data': Record, paragraphs: Probe<seq<Probe<string>>>)
    requires data.street == data'.street && data.postalCode == data'.postalCode && data.city == data'.city
    ensures var r, r' := SetAddress(data, paragraphs), SetAddress(data', paragraphs);
      r.street == r'.street && r.postalCode == r'.postalCode && r.city == r'.city
  {
  }

  /** Paragraph `i` of the address block exists and its text was read. */
  predicate Readable(paragraphs: Probe<seq<Probe<string>>>, i: nat) {
    paragraphs.Found? && i < |paragraphs.value| && paragraphs.value[i].Found?
  }

  /** The insurance label, stripped; a missing element is recorded as such,
      any other failure leaves the field as it was. */
  function SetInsurance(data: Record, text: Probe<string>): (r: Record)
    ensures r == data.(insuranceSector := r.insuranceSector)
    ensures text.Found? ==> r.insuranceSector == Strip(text.value)
    ensures text.NoSuchElement? ==> r.insuranceSector == INSURANCE_NOT_FOUND
    ensures text.OtherError? ==> r == data
  {
    match text
    case Found(t) => data.(insuranceSector := Strip(t))
    case NoSuchElement => data.(insuranceSector := INSURANCE_NOT_FOUND)
    case OtherError => data
  }

  /** `extract_card_data`: the default record updated field group by field group. */
  function ExtractCardData(card: Card): (data: Record)
    ensures data.estimatedPrice == NOT_AVAILABLE
    ensures data.consultationType == REMOTE || data.consultationType == ON_SITE
    ensures data.consultationType == REMOTE <==> IsTelehealth(card.telehealthBadge, card.telehealthIcon)
    ensures '\n' !in data.nextAvailability
    ensures data.postalCode == NOT_AVAILABLE || IsPostalCode(data.postalCode)
  {
    var withType := SetConsultationType(DEFAULTS, card.telehealthBadge, card.telehealthIcon);
    var withName := SetNameAndLink(withType, card.nameHeading, card.profileHref);
    var withAvailability := SetAvailability(withName, card.availabilityPills);
    var withAddress := SetAddress(withAvailability, card.addressParagraphs);
    SetInsurance(withAddress, card.insuranceLabel)
  }

  /** The availability cell is the one `AvailabilityText` gives for the
      card's pills, and the insurance cell is the stripped label, the
      not-found string when the label is missing, or "N/A" after any other
      failure. */
  lemma ExtractAvailabilityAndInsurance(card: Card)
    ensures ExtractCardData(card).nextAvailability == AvailabilityText(card.availabilityPills)
    ensures card.insuranceLabel.Found? ==> ExtractCardData(card).insuranceSector == Strip(card.insuranceLabel.value)
    ensures card.insuranceLabel.NoSuchElement? ==> ExtractCardData(card).insuranceSector == INSURANCE_NOT_FOUND
    ensures card.insuranceLabel.OtherError? ==> ExtractCardData(card).insuranceSector == NOT_AVAILABLE
  {
  }

  /** The address cells are those the address block gives on the default
      record: the fields extracted before it do not influence it. */
  lemma ExtractAddress(card: Card)
    ensures var data, address := ExtractCardData(card), SetAddress(DEFAULTS, card.addressParagraphs);
      data.street == address.street && data.postalCode == address.postalCode && data.city == address.city
  {
    var withType := SetConsultationType(DEFAULTS, card.telehealthBadge, card.telehealthIcon);
    var withName := SetNameAndLink(withType, card.nameHeading, card.profileHref);
    var withAvailability := SetAvailability(withName, card.availabilityPills);
    SetAddressReadsAddress(withAvailability, DEFAULTS, card.addressParagraphs);
  }

  /** The name survives a missing or failing link lookup, and the link is the
      normalised `href` exactly when the heading was read and the `href` is
      non-empty; otherwise it stays "N/A". */
  lemma ExtractNameAndLink(card: Card)
    ensures card.nameHeading.Found? ==> ExtractCardData(card).fullName == Strip(card.nameHeading.value)
    ensures !card.nameHeading.Found? ==> ExtractCardData(card).fullName == NOT_AVAILABLE
    ensures ExtractCardData(card).profileLink ==
      if card.nameHeading.Found? && card.profileHref.Found? && card.profileHref.value != ""
      then NormalizeLink(card.profileHref.value) else NOT_AVAILABLE
  {
  }

  /** Address with two or more readable paragraphs: the street is the first,
      and the second gives postal code and city when it starts with five
      digits, or the city alone otherwise. */
  lemma ExtractAddressTwoParagraphs(card: Card, first: string, second: string)
    requires card.addressParagraphs.Found? && |card.addressParagraphs.value| >= 2
    requires card.addressParagraphs.value[0] == Found(first)
    requires card.addressParagraphs.value[1] == Found(second)
    ensures ExtractCardData(card).street == Strip(first)
    ensures MatchPostal(Strip(second)).Some? ==>
      ExtractCardData(card).postalCode == MatchPostal(Strip(second)).value.0 &&
      ExtractCardData(card).city == MatchPostal(Strip(second)).value.1
    ensures MatchPostal(Strip(second)).None? ==>
      ExtractCardData(card).postalCode == NOT_AVAILABLE &&
      ExtractCardData(card).city == Strip(second)
  {
  }

  /** Address with exactly one readable paragraph: it becomes the street; the
      split runs only when that street is empty, which sets the city to "" and
      leaves the postal code "N/A". */
  lemma ExtractAddressOneParagraph(card: Card, only: string)
    requires card.addressParagraphs == Found([Found(only)])
    ensures ExtractCardData(card).street == Strip(only)
    ensures ExtractCardData(card).postalCode == NOT_AVAILABLE
    ensures ExtractCardData(card).city == if Strip(only) == "" then "" else NOT_AVAILABLE
  {
    if Strip(only) == "" {
      assert MatchPostal("") == None;
    }
  }

  /** Two paragraphs or more, but the second one's text could not be read:
      the street is stored, postal code and city stay "N/A". */
  lemma ExtractAddressSecondUnreadable(card: Card, first: string)
    requires card.addressParagraphs.Found? && |card.addressParagraphs.value| >= 2
    requires card.addressParagraphs.value[0] == Found(first)
    requires !card.addressParagraphs.value[1].Found?
    ensures ExtractCardData(card).street == Strip(first)
    ensures ExtractCardData(card).postalCode == NOT_AVAILABLE
    ensures ExtractCardData(card).city == NOT_AVAILABLE
  {
  }

  /** No readable first paragraph (no location icon, no ancestor, no
      paragraph, or a failed read): street, postal code and city stay "N/A". */
  lemma ExtractAddressMissing(card: Card)
    requires !card.addressParagraphs.Found? || card.addressParagraphs.value == []
      || !card.addressParagraphs.value[0].Found?
    ensures ExtractCardData(card).street == NOT_AVAILABLE
    ensures ExtractCardData(card).postalCode == NOT_AVAILABLE
    ensures ExtractCardData(card).city == NOT_AVAILABLE
  {
  }

  /** A card on which none of the lookups that feed the checked fields found
      anything: no name heading, no availability slot, no readable address
      paragraph and no insurance label. */
  predicate FoundNothing(card: Card) {
    && !card.nameHeading.Found?
    && (card.availabilityPills.Found? ==> card.availabilityPills.value == [])
    && (card.addressParagraphs.Found? ==>
          card.addressParagraphs.value == [] || !card.addressParagraphs.value[0].Found?)
    && !card.insuranceLabel.Found?
  }

  /** What such a card yields: "N/A" or one of the failure strings in every
      field, whatever made each lookup fail. */
  lemma ExtractFoundNothing(card: Card)
    requires FoundNothing(card)
    ensures var data := ExtractCardData(card);
      && data.fullName == NOT_AVAILABLE && data.profileLink == NOT_AVAILABLE
      && data.nextAvailability in [NO_UPCOMING_SLOT, AVAILABILITY_STRUCTURE_MISSING, AVAILABILITY_ERROR]
      && data.insuranceSector in [NOT_AVAILABLE, INSURANCE_NOT_FOUND]
      && data.street == NOT_AVAILABLE && data.postalCode == NOT_AVAILABLE && data.city == NOT_AVAILABLE
  {
    ExtractNameAndLink(card);
    ExtractAddressMissing(card);
  }

  /** The example of the address format: "75015 Paris" splits into "75015"
      and "Paris". */
  lemma MatchPostalSpaced()
    ensures MatchPostal("75015 Paris") == Some(("75015", "Paris"))
  {
    SpacedPieces();
    MatchPostalAfterCode("75015", " Paris");
    CityParis();
  }

  lemma SpacedPieces()
    ensures "75015 Paris" == "75015" + " Paris"
    ensures StripStart(" Paris") == "Paris"
  {
    assert " Paris"[1..] == "Paris";
  }

  /** Without a space after the digits the split is the same. */
  lemma MatchPostalGlued()
    ensures MatchPostal("75015Paris") == Some(("75015", "Paris"))
  {
    assert "75015Paris" == "75015" + "Paris";
    MatchPostalAfterCode("75015", "Paris");
    CityParis();
  }

  /** A text made of a postal code and a rest splits into that code and the
      city found in the rest. */
  lemma MatchPostalAfterCode(code: string, rest: string)
    requires IsPostalCode(code)
    ensures MatchPostal(code + rest) == Some((code, Strip(TakeLine(StripStart(rest)))))
  {
    assert (code + rest)[..5] == code;
    assert (code + rest)[5..] == rest;
  }

  lemma CityParis()
    ensures StripStart("Paris") == "Paris"
    ensures Strip(TakeLine("Paris")) == "Paris"
  {
    assert TakeLine("Paris") == "Paris";
    assert StrippedAt("Paris", "Paris", 0, 5);
    StripUnique("Paris", "Paris");
  }

  /** A text that does not start with five digits has no postal code. */
  lemma MatchPostalRejects()
    ensures MatchPostal("Paris") == None
    ensures MatchPostal("750 Paris") == None
  {
    assert !IsPostalCode("Paris"[..5]) by { assert "Paris"[0] == 'P'; }
    assert !IsPostalCode("750 Paris"[..5]) by { assert "750 Paris"[3] == ' '; }
  }
}
