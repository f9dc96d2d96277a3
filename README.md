# Doctolib result scraper — a Dafny model of its card logic

`scrap.py` drives a browser over Doctolib's search results and writes one CSV
row per practitioner. Between the browser lookups sits deterministic logic:

- which selector's cards are used;
- how a nine-field record is built from one card;
- when a record is dropped;
- how many rows reach the file, and in which order.

This project models that logic and proves what it promises. Every browser
lookup becomes an input value. A `Probe` is one lookup's outcome: found with
its text, `NoSuchElementException`, or any other exception. A `Strategy` is
what one card selector's wait produced.

Modules, one per piece of the program:

- `Text` (`text.dfy`): the Python string operations used. These are
  `strip`, `lower`, `replace("\n", " ")`, `", ".join`, the `in` substring
  test and the line-bounded `.*` of the address regex. Each carries its
  defining property in its contract: `Strip` gives a text without outer
  whitespace and is unique and idempotent, `Lower` leaves no capital letter,
  `Join` places every piece and every separator, and `Contains` holds exactly
  when the needle occurs somewhere.
- `CardRecord` (`record.dfy`): the nine-key record, its defaults, the CSV
  header order and the lines of the CSV file.
- `Extract` (`extract.dfy`): `extract_card_data`. Each `try` block is one
  function that updates the record's own field group, and they are composed
  in the source's order. The local dictionary's successive assignments are
  modelled as successive record updates.
- `Filter` (`filter.dfy`): `should_filter_card`, in two parts.
  - `ShouldFilter` is the decision stated as a predicate.
  - The method `ShouldFilterCard` keeps the source's counting loop over the
    absence table and is proved equal to `ShouldFilter`.
- `Locator` (`locator.dfy`): the fallback choice in `find_practitioner_cards`.
- `Pipeline` (`pipeline.dfy`): `process_search_results`, a method with the
  source's loop, early `break` and row counter. It is proved against `Kept`,
  the list of records the filter keeps, which is capped by `Take`.

In these places the code does something a reader might not expect; the model
follows the code:

- **One address paragraph.** The postal-code/city split runs only when the
  stripped street is empty (scrap.py:257). It then sets the city to "" and
  leaves the postal code "N/A". It is not applied to a non-empty lone
  paragraph.
- **Telehealth markers.** An exception other than `NoSuchElementException` on
  the badge lookup ends the check without looking at the icon
  (scrap.py:205-206). So the type is "visio" when the badge is found, or when
  the badge is missing and the icon is found. It is not "either marker".
- **Price.** No price is ever looked up: "Prix estimé" is always "N/A".
- **Card list.** The list is located once (scrap.py:337) and iterated as it
  is (scrap.py:349). Cards are never re-acquired by index.

## Model

| member | source | states |
|---|---|---|
| Text.Strip | scrap.py:215 | the result is the text without its leading and trailing whitespace, and neither starts nor ends with whitespace |
| Text.StripUnique | scrap.py:215 | any string that is the text minus leading and trailing whitespace equals `Strip` of it, so the specification determines strip |
| Text.StripIdempotent | scrap.py:251 | stripping an already stripped text changes nothing |
| Text.StripAfterStripStart | scrap.py:252-254 | stripping after dropping the leading whitespace gives the same as stripping the text |
| Text.Lower | scrap.py:303 | the result has the text's length and no capital letter; every capital becomes its small letter (code plus 32) and every other character is kept |
| Text.LowerAppend | scrap.py:303 | lowering a concatenation is concatenating the lowered parts |
| Text.LowerIdempotent | scrap.py:312-313 | lowering twice is lowering once, and a lowered text has no capital letter |
| Text.Contains | scrap.py:325 | `needle in hay` holds exactly when the needle occurs at some position of the haystack |
| Text.ContainsNeedsChar | scrap.py:325 | a needle holding a character the haystack lacks is not found |
| Text.ReplaceNewlines | scrap.py:229 | the result has the same length and no newline; every newline becomes a space and every other character stays in place |
| Text.Join | scrap.py:230 | no pieces give ""; otherwise the length is the pieces' lengths plus one separator per gap, every piece sits at its start position in order, and a separator sits just before every piece but the first |
| Text.JoinAvoids | scrap.py:230 | a character absent from the pieces and from the separator is absent from the joined text |
| Text.JoinStarts | scrap.py:230 | the joined text starts with the first piece |
| Text.JoinEnds | scrap.py:230 | the joined text ends with the last piece |
| Text.TakeLine | scrap.py:252 | `.*` matches the longest prefix without a newline: it stops at the first newline or at the end |
| CardRecord.Get | scrap.py:179-189 | the record has a value under exactly the nine CSV headers |
| CardRecord.Row | scrap.py:16-19 | a row has one cell per header, and cell i is the value stored under header i |
| CardRecord.CsvFile | scrap.py:344-346 | the file is the header line followed by one line per written record, in writing order |
| Extract.SetConsultationType | scrap.py:192-210 | only the consultation type changes; it is "visio" exactly when the badge is found, or the badge is missing and the icon is found, and "Sur place" otherwise |
| Extract.NormalizeLink | scrap.py:218-219 | a link starting with "/" becomes the site origin followed by the link; any other link is kept |
| Extract.SetNameAndLink | scrap.py:213-223 | only name and link change; the name is the stripped heading text; no heading changes nothing; the link changes exactly when the heading is read and the href is non-empty, and then to the normalised href |
| Extract.CleanPills | scrap.py:229 | one cleaned label per pill, in order, none containing a newline |
| Extract.AvailabilityText | scrap.py:226-235 | found pills give the join of the cleaned labels with ", " (every label in order, separated by ", "); no pill, a missing container and any other error give their three distinct strings; the text never holds a newline |
| Extract.SetAvailability | scrap.py:226-235 | only the availability changes, to `AvailabilityText` of the pills |
| Extract.MatchPostal | scrap.py:252-254 | matches exactly when the text starts with five ASCII digits; the code is those digits; the city is the first line after the whitespace that follows them, stripped, which for a one-line text is the whole rest stripped; the city is stripped and on one line |
| Extract.MatchPostalAfterCode | scrap.py:252-254 | a postal code followed by any rest splits into that code and the city found in the rest |
| Extract.ApplyPostalCity | scrap.py:252-256 | only postal code and city change; on a match they become the five digits and the matched city; otherwise the text becomes the city and the code is unchanged |
| Extract.SetAddress | scrap.py:238-267 | only street, postal code and city change; no readable first paragraph changes nothing; otherwise the street is the stripped first paragraph; a readable second paragraph is split into code and city; an unreadable second leaves code and city; a lone paragraph leaves the code and sets the city to "" only when the street is empty |
| Extract.SetAddressReadsAddress | scrap.py:238-267 | the address block's outcome depends on the record only through its street, postal code and city |
| Extract.SetInsurance | scrap.py:270-278 | only the insurance changes: the stripped label when found, the not-found string when missing, no change on any other error |
| Extract.ExtractCardData | scrap.py:177-280 | for every card: price "N/A"; type "visio" or "Sur place", "visio" exactly for a telehealth card; availability on one line; postal code "N/A" or five digits |
| Extract.ExtractAvailabilityAndInsurance | scrap.py:226-278 | the availability is `AvailabilityText` of the card's pills; the insurance is the stripped label, the not-found string when the label is missing, or "N/A" after any other failure |
| Extract.ExtractAddress | scrap.py:238-267 | street, postal code and city are those the address block gives on the default record |
| Extract.ExtractNameAndLink | scrap.py:213-223 | the name survives a failing link lookup; the link is the normalised href exactly when the heading is read and the href is non-empty, otherwise "N/A" |
| Extract.ExtractAddressTwoParagraphs | scrap.py:247-256 | street is the first paragraph; a second starting with five digits gives code and city, otherwise it is the city and the code stays "N/A" |
| Extract.ExtractAddressSecondUnreadable | scrap.py:247-251 | a second paragraph whose text cannot be read leaves postal code and city "N/A" after the street is stored |
| Extract.ExtractAddressOneParagraph | scrap.py:247-263 | a lone paragraph is the street; the code stays "N/A"; the city is "" when that street is empty and "N/A" otherwise |
| Extract.ExtractAddressMissing | scrap.py:238-267 | with no readable first paragraph, street, postal code and city all stay "N/A" |
| Extract.ExtractFoundNothing | scrap.py:177-280 | a card where no lookup found anything yields "N/A" or a failure string in each of the seven checked fields |
| Extract.MatchPostalSpaced | scrap.py:252-254 | "75015 Paris" gives postal code "75015" and city "Paris" |
| Extract.MatchPostalGlued | scrap.py:252-254 | "75015Paris" gives the same split: `\s*` may match nothing |
| Extract.MatchPostalRejects | scrap.py:252-256 | "Paris" and "750 Paris" do not match: no postal code is taken from them |
| Filter.ShouldFilterCard | scrap.py:282-330 | the counting loop returns exactly `ShouldFilter`: all seven fields absent, or rejected by consultation type, or rejected by insurance |
| Filter.GuardKeys | scrap.py:285-298 | the guard's seven keys read name, link, availability, insurance, street, postal code and city |
| Filter.AllAbsentIff | scrap.py:285-308 | the guard holds exactly when name, link, street, postal code and city equal "N/A" ignoring case, and availability and insurance each equal one of their markers |
| Filter.AvailabilityMarkersIff | scrap.py:288-293 | an availability is absent exactly when it equals, ignoring case, "N/A" or one of the three lower-case failure strings |
| Filter.InsuranceMarkersIff | scrap.py:294 | an insurance value is absent exactly when it equals, ignoring case, "N/A" or "n/a (info non trouvée)" |
| Filter.GuardIgnoresPriceAndType | scrap.py:285-298 | price and consultation type have no influence on the guard |
| Filter.GuardOverridesCriteria | scrap.py:306-308 | a record whose checked fields are all absent is dropped whatever the arguments |
| Filter.ConsultationCriterion | scrap.py:311-318 | a set consultation criterion passes a record exactly when the lowered request is "sur place" or "visio" and equals the lowered actual type; any other request rejects every record |
| Filter.ConsultationRejects | scrap.py:311-318 | a record the consultation criterion rejects is dropped, whatever the guard and the insurance criterion |
| Filter.InsuranceCriterion | scrap.py:321-328 | past guard and consultation check, a record is dropped exactly when the lowered request occurs at no position of the lowered sector |
| Filter.FailureStringsAreMarkers | scrap.py:288-294 | "N/A" and every failure string extraction writes for availability and insurance are among the guard's markers for that field |
| Filter.FailureRecordIsAbsent | scrap.py:285-308 | a record holding only "N/A" and failure strings in the checked fields meets the guard |
| Filter.FoundNothingIsFiltered | scrap.py:285-308 | the record of a card where nothing was found is always dropped |
| Filter.ConsultationTypesLowered | scrap.py:312-316 | the two stored types lower to "visio" and "sur place" |
| Filter.ConsultationOfExtractedTypes | scrap.py:311-318 | for the two types extraction writes, a "visio" request rejects exactly the on-site records, a "sur place" request exactly the remote ones, any other request every record |
| Filter.ExtractedConsultationCriterion | scrap.py:311-318 | for a card's record, a "visio" request rejects exactly the cards without a telehealth marker, a "sur place" request exactly those with one |
| Filter.InsuranceExample | scrap.py:321-328 | "Secteur 1 conventionné" is kept under "secteur 1" and dropped under "secteur 2" |
| Locator.FindPractitionerCards | scrap.py:142-164 | non-empty article cards are used as they are; otherwise the fallback's cards, or none when it timed out |
| Locator.ArticlesSuppressFallback | scrap.py:153-154 | when article cards were found, the fallback's outcome cannot change the result |
| Locator.NeverMerged | scrap.py:142-164 | the result is one selector's whole list, or empty |
| Pipeline.Take | scrap.py:349-352 | the first n records, or all when there are fewer |
| Pipeline.KeptAppend | scrap.py:349-366 | the kept records of two card lists in a row are those of the first followed by those of the second |
| Pipeline.KeptSingle | scrap.py:358-366 | one card contributes its record exactly when the filter keeps it |
| Pipeline.KeptSound | scrap.py:358-366 | every kept record passes the filter and comes from one of the cards; there are no more records than cards |
| Pipeline.StopIsTake | scrap.py:349-352 | stopping once every card is seen or the cap is reached leaves exactly the capped list of kept records |
| Pipeline.ProcessSearchResults | scrap.py:332-372 | no cards: returns 0 and opens no file; otherwise the file is the header plus the first max(max_results, 0) kept records in card order, and the count is the number of rows |
| Pipeline.DeadMiddleCardIsSkipped | scrap.py:349-366 | with three cards, cap 2 and nothing found on the middle one, the rows are the first and third cards' records |

## Left out

- Browser control is not modelled. This covers `setup_driver`,
  `accept_cookies`, `search_doctolib` and `main` (scrap.py:21-42, 61-120,
  374-427): waits, clicks, `time.sleep` and top-level exception handling.
- Selenium lookups, XPath ancestor walks and `WebDriverWait` timeouts are
  not modelled. Their outcomes are inputs: `Probe` values on a `Card`, and
  `Strategy` values for the two card selectors.
- The results-container scoping in `find_practitioner_cards` is left out,
  because it only chooses where the selectors search (scrap.py:127-139).
- Exceptions other than `TimeoutException` from the card waits are left out.
  The source does not catch them there.
- `parse_arguments` (scrap.py:44-59) becomes the `Args` record. `min_price`,
  `max_price`, `start_date` and `end_date` are parsed but never read.
- `debug_print` logging and the debug HTML dumps are side-channel output and
  are left out (scrap.py:117-119, 171-173).
- The CSV file is modelled as its sequence of lines (a `seq` of cells per
  line). Quoting, encoding and the file name are left out.
- Unicode is reduced to ASCII:
  - `\d` matches only '0'..'9';
  - `lower()` lowers only 'A'..'Z';
  - `strip()` and `\s` use ASCII whitespace.

  Every non-ASCII letter in the source's fixed strings is already lower case,
  so the guard's comparisons of those strings are unaffected.
- An `href` that is `None` and an empty `href` are both given as `Found("")`.
  The source treats them alike.
- A failed read of a pill's text is folded into the container's `OtherError`,
  because the source catches both in the same handler.
- A failed read of a single address paragraph is its own `Probe`. It stops the
  address block and keeps what was already stored.
