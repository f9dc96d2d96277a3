/** Deciding whether an extracted record is dropped (`should_filter_card`):
    first a guard that drops records whose seven essential fields all hold an
    absence marker, then the consultation-type criterion, then the insurance
    criterion. */
module Filter {
  import opened Text
  import opened CardRecord
  import opened Extract

  /** The command-line arguments the scraper's filtering and result cap read. */
  datatype Args = Args(maxResults: int, consultationType: Option<string>, insurance: Option<string>)

  /** Python truthiness of an optional string argument: given and non-empty. */
  predicate IsSet(arg: Option<string>) {
    arg.Some? && arg.value != ""
  }

  /** The markers of a missing availability: the default and, in lower case,
      the three failure strings extraction writes (the long one in two halves,
      as in `AVAILABILITY_STRUCTURE_MISSING`). */
  const AVAILABILITY_MARKERS: seq<string> := [
    "N/A",
    "aucune prochainement (ou non spécifié)",
    "disponibilité non trouvée" + " (structure attendue absente)",
    "erreur extraction dispo"
  ]

  /** The markers of a missing insurance sector. */
  const INSURANCE_MARKERS: seq<string> := ["N/A", "n/a (info non trouvée)"]

  /** The seven checked fields, each with the markers that count as "no value"
      for it. The price and the consultation type are not checked. */
  const ABSENCE_INDICATORS: seq<(string, seq<string>)> := [
    ("Nom complet", ["N/A"]),
    ("Lien Profil", ["N/A"]),
    ("Prochaine disponibilité", AVAILABILITY_MARKERS),
    ("Secteur d'assurance", INSURANCE_MARKERS),
    ("Rue", ["N/A"]),
    ("Code postal", ["N/A"]),
    ("Ville", ["N/A"])
  ]

  /** The value equals one of the markers, ignoring case. */
  predicate IsAbsent(value: string, indicators: seq<string>) {
    exists j :: 0 <= j < |indicators| && EqualsIgnoreCase(value, indicators[j])
  }

  /** `data.get(key, "N/A")` */
  function FieldValue(data: Record, key: string): string {
    Get(data, key).GetOr(NOT_AVAILABLE)
  }

  /** Every checked field holds one of its absence markers. */
  predicate AllAbsent(data: Record) {
    forall k :: 0 <= k < |ABSENCE_INDICATORS| ==>
      IsAbsent(FieldValue(data, ABSENCE_INDICATORS[k].0), ABSENCE_INDICATORS[k].1)
  }

  /** The lowered request and the lowered actual type are both "sur place" or both "visio". */
  predicate ConsultationMatches(requested: string, actual: string) {
    (requested == "sur place" && actual == "sur place") || (requested == "visio" && actual == "visio")
  }

  predicate RejectedByConsultation(data: Record, args: Args) {
    IsSet(args.consultationType)
    && !ConsultationMatches(Lower(args.consultationType.value), Lower(data.consultationType))
  }

  predicate RejectedByInsurance(data: Record, args: Args) {
    IsSet(args.insurance) && !Contains(Lower(data.insuranceSector), Lower(args.insurance.value))
  }

  /** The filter's decision: true drops the record. */
  predicate ShouldFilter(data: Record, args: Args) {
    AllAbsent(data) || RejectedByConsultation(data, args) || RejectedByInsurance(data, args)
  }

  /** `should_filter_card`: counts the checked fields that hold an absence
      marker, drops the record when all of them do, and otherwise applies the
      consultation and insurance criteria in that order. */
  method ShouldFilterCard(data: Record, args: Args) returns (filtered: bool)
    ensures filtered == ShouldFilter(data, args)
  {
    var naCount := 0;
    var k := 0;
    while k < |ABSENCE_INDICATORS|
      invariant 0 <= naCount <= k <= |ABSENCE_INDICATORS|
      invariant naCount == k <==> forall j :: 0 <= j < k ==>
        IsAbsent(FieldValue(data, ABSENCE_INDICATORS[j].0), ABSENCE_INDICATORS[j].1)
    {
      var (field, indicators) := ABSENCE_INDICATORS[k];
      var lowered := seq(|indicators|, i requires 0 <= i < |indicators| => Lower(indicators[i]));
      var value := FieldValue(data, field);
      if Lower(value) in lowered {
        naCount := naCount + 1;
      } else {
        assert !IsAbsent(value, indicators) by {
          forall j | 0 <= j < |indicators| ensures !EqualsIgnoreCase(value, indicators[j]) {
            assert lowered[j] == Lower(indicators[j]);
          }
        }
      }
      k := k + 1;
    }
    if naCount == |ABSENCE_INDICATORS| {
      return true;
    }
    if IsSet(args.consultationType) {
      var requested := Lower(args.consultationType.value);
      var actual := Lower(data.consultationType);
      if !((requested == "sur place" && actual == "sur place") || (requested == "visio" && actual == "visio")) {
        return true;
      }
    }
    if IsSet(args.insurance) {
      var requested := Lower(args.insurance.value);
      var actual := Lower(data.insuranceSector);
      if !Contains(actual, requested) {
        return true;
      }
    }
    return false;
  }

  /** The keys of the guard's table name the record's name, link,
      availability, insurance, street, postal code and city fields. */
  lemma GuardKeys(data: Record)
    ensures |ABSENCE_INDICATORS| == 7
    ensures FieldValue(data, ABSENCE_INDICATORS[0].0) == data.fullName
    ensures FieldValue(data, ABSENCE_INDICATORS[1].0) == data.profileLink
    ensures FieldValue(data, ABSENCE_INDICATORS[2].0) == data.nextAvailability
    ensures FieldValue(data, ABSENCE_INDICATORS[3].0) == data.insuranceSector
    ensures FieldValue(data, ABSENCE_INDICATORS[4].0) == data.street
    ensures FieldValue(data, ABSENCE_INDICATORS[5].0) == data.postalCode
    ensures FieldValue(data, ABSENCE_INDICATORS[6].0) == data.city
  {
    IndicatorKeys();
    FieldValues(data);
  }

  lemma IndicatorKeys()
    ensures |ABSENCE_INDICATORS| == 7
    ensures ABSENCE_INDICATORS[0].0 == "Nom complet" && ABSENCE_INDICATORS[1].0 == "Lien Profil"
    ensures ABSENCE_INDICATORS[2].0 == "Prochaine disponibilité"
    ensures ABSENCE_INDICATORS[3].0 == "Secteur d'assurance"
    ensures ABSENCE_INDICATORS[4].0 == "Rue" && ABSENCE_INDICATORS[5].0 == "Code postal"
    ensures ABSENCE_INDICATORS[6].0 == "Ville"
  {
  }

  lemma FieldValues(data: Record)
    ensures FieldValue(data, "Nom complet") == data.fullName
    ensures FieldValue(data, "Lien Profil") == data.profileLink
    ensures FieldValue(data, "Prochaine disponibilité") == data.nextAvailability
    ensures FieldValue(data, "Secteur d'assurance") == data.insuranceSector
    ensures FieldValue(data, "Rue") == data.street
    ensures FieldValue(data, "Code postal") == data.postalCode
    ensures FieldValue(data, "Ville") == data.city
  {
  }

  /** The guard field by field: the record's name, link, street, postal code
      and city are "N/A", its availability is one of the availability markers
      and its insurance one of the insurance markers, each ignoring case. */
  lemma AllAbsentIff(data: Record)
    ensures AllAbsent(data) <==>
      && EqualsIgnoreCase(data.fullName, "N/A")
      && EqualsIgnoreCase(data.profileLink, "N/A")
      && IsAbsent(data.nextAvailability, AVAILABILITY_MARKERS)
      && IsAbsent(data.insuranceSector, INSURANCE_MARKERS)
      && EqualsIgnoreCase(data.street, "N/A")
      && EqualsIgnoreCase(data.postalCode, "N/A")
      && EqualsIgnoreCase(data.city, "N/A")
  {
    GuardKeys(data);
    IndicatorMarkers();
    IsAbsentOne(data.fullName, "N/A");
    IsAbsentOne(data.profileLink, "N/A");
    IsAbsentOne(data.street, "N/A");
    IsAbsentOne(data.postalCode, "N/A");
    IsAbsentOne(data.city, "N/A");
    var t := ABSENCE_INDICATORS;
    if AllAbsent(data) {
      assert IsAbsent(FieldValue(data, t[0].0), t[0].1) && IsAbsent(FieldValue(data, t[1].0), t[1].1);
      assert IsAbsent(FieldValue(data, t[2].0), t[2].1) && IsAbsent(FieldValue(data, t[3].0), t[3].1);
      assert IsAbsent(FieldValue(data, t[4].0), t[4].1) && IsAbsent(FieldValue(data, t[5].0), t[5].1);
      assert IsAbsent(FieldValue(data, t[6].0), t[6].1);
    } else {
      var k :| 0 <= k < |t| && !IsAbsent(FieldValue(data, t[k].0), t[k].1);
      assert k == 0 || k == 1 || k == 2 || k == 3 || k == 4 || k == 5 || k == 6;
    }
  }

  /** The markers of each checked field. */
  lemma IndicatorMarkers()
    ensures ABSENCE_INDICATORS[0].1 == ["N/A"] && ABSENCE_INDICATORS[1].1 == ["N/A"]
    ensures ABSENCE_INDICATORS[2].1 == AVAILABILITY_MARKERS
    ensures ABSENCE_INDICATORS[3].1 == INSURANCE_MARKERS
    ensures ABSENCE_INDICATORS[4].1 == ["N/A"] && ABSENCE_INDICATORS[5].1 == ["N/A"]
    ensures ABSENCE_INDICATORS[6].1 == ["N/A"]
  {
  }

  lemma IsAbsentOne(v: string, a: string)
    ensures IsAbsent(v, [a]) <==> EqualsIgnoreCase(v, a)
  {
    assert [a][0] == a;
  }

  /** The availability markers one by one. */
  lemma AvailabilityMarkersIff(v: string)
    ensures IsAbsent(v, AVAILABILITY_MARKERS) <==>
      || EqualsIgnoreCase(v, "N/A")
      || EqualsIgnoreCase(v, "aucune prochainement (ou non spécifié)")
      || EqualsIgnoreCase(v, "disponibilité non trouvée" + " (structure attendue absente)")
      || EqualsIgnoreCase(v, "erreur extraction dispo")
  {
    var s := AVAILABILITY_MARKERS;
    assert s[0] == "N/A";
    assert s[1] == "aucune prochainement (ou non spécifié)";
    assert s[2] == "disponibilité non trouvée" + " (structure attendue absente)";
    assert s[3] == "erreur extraction dispo";
  }

  /** The insurance markers one by one. */
  lemma InsuranceMarkersIff(v: string)
    ensures IsAbsent(v, INSURANCE_MARKERS) <==>
      EqualsIgnoreCase(v, "N/A") || EqualsIgnoreCase(v, "n/a (info non trouvée)")
  {
    var s := INSURANCE_MARKERS;
    assert s[0] == "N/A" && s[1] == "n/a (info non trouvée)";
  }

  /** Neither the estimated price nor the consultation type takes part in the guard. */
  lemma GuardIgnoresPriceAndType(data: Record, price: string, consultation: string)
    ensures AllAbsent(data) == AllAbsent(data.(estimatedPrice := price, consultationType := consultation))
  {
    AllAbsentIff(data);
    AllAbsentIff(data.(estimatedPrice := price, consultationType := consultation));
  }

  /** A record caught by the guard is dropped whatever the criteria. */
  lemma GuardOverridesCriteria(data: Record, args: Args)
    requires AllAbsent(data)
    ensures ShouldFilter(data, args)
  {
  }

  /** A consultation criterion keeps the record exactly when the lowered
      request is "sur place" or "visio" and equals the lowered actual type;
      any other request drops every record. */
  lemma ConsultationCriterion(data: Record, args: Args)
    requires IsSet(args.consultationType)
    ensures !RejectedByConsultation(data, args) <==>
      var requested := Lower(args.consultationType.value);
      (requested == "sur place" || requested == "visio") && requested == Lower(data.consultationType)
  {
  }

  /** A record the consultation criterion rejects is dropped, whatever the
      guard and the insurance criterion say. */
  lemma ConsultationRejects(data: Record, args: Args)
    requires RejectedByConsultation(data, args)
    ensures ShouldFilter(data, args)
  {
  }

  /** Past the guard and the consultation criterion, an insurance criterion
      drops the record exactly when the lowered request occurs at no position
      of the lowered insurance text. */
  lemma InsuranceCriterion(data: Record, args: Args)
    requires !AllAbsent(data) && !RejectedByConsultation(data, args) && IsSet(args.insurance)
    ensures ShouldFilter(data, args) <==>
      forall i :: !OccursAt(Lower(data.insuranceSector), Lower(args.insurance.value), i)
  {
  }

  /** The failure strings extraction writes are markers of the guard. */
  lemma FailureStringsAreMarkers()
    ensures IsAbsent(NO_UPCOMING_SLOT, AVAILABILITY_MARKERS)
    ensures IsAbsent(AVAILABILITY_STRUCTURE_MISSING, AVAILABILITY_MARKERS)
    ensures IsAbsent(AVAILABILITY_ERROR, AVAILABILITY_MARKERS)
    ensures IsAbsent(NOT_AVAILABLE, AVAILABILITY_MARKERS)
    ensures IsAbsent(INSURANCE_NOT_FOUND, INSURANCE_MARKERS)
    ensures IsAbsent(NOT_AVAILABLE, INSURANCE_MARKERS)
  {
    NoUpcomingSlotIsMarker();
    StructureMissingIsMarker();
    AvailabilityErrorIsMarker();
    InsuranceNotFoundIsMarker();
    assert EqualsIgnoreCase(NOT_AVAILABLE, AVAILABILITY_MARKERS[0]);
    assert EqualsIgnoreCase(NOT_AVAILABLE, INSURANCE_MARKERS[0]);
  }

  /** Equality ignoring case survives appending the same text to both sides. */
  lemma IgnoreCaseAppend(a: string, b: string, tail: string)
    requires EqualsIgnoreCase(a, b)
    ensures EqualsIgnoreCase(a + tail, b + tail)
  {
    LowerAppend(a, tail);
    LowerAppend(b, tail);
  }

  lemma NoUpcomingSlotIsMarker()
    ensures EqualsIgnoreCase(NO_UPCOMING_SLOT, AVAILABILITY_MARKERS[1])
  {
    NoUpcomingSlotPieces();
    NoUpcomingSlotMarkerPieces();
    NoUpcomingSlotHeads();
    IgnoreCaseAppend("A", "a", "ucune prochainement");
    IgnoreCaseAppend("Aucune prochainement", "aucune prochainement", " (ou non spécifié)");
  }

  lemma NoUpcomingSlotPieces()
    ensures NO_UPCOMING_SLOT == "Aucune prochainement" + " (ou non spécifié)"
  {
  }

  lemma NoUpcomingSlotMarkerPieces()
    ensures AVAILABILITY_MARKERS[1] == "aucune prochainement" + " (ou non spécifié)"
  {
  }

  lemma NoUpcomingSlotHeads()
    ensures "Aucune prochainement" == "A" + "ucune prochainement"
    ensures "aucune prochainement" == "a" + "ucune prochainement"
  {
  }

  lemma StructureMissingIsMarker()
    ensures EqualsIgnoreCase(AVAILABILITY_STRUCTURE_MISSING, AVAILABILITY_MARKERS[2])
  {
    StructureMissingHead();
    StructureMissingMarkerHead();
    IgnoreCaseAppend("D", "d", "isponibilité non trouvée");
    IgnoreCaseAppend("Disponibilité non trouvée", "disponibilité non trouvée", " (structure attendue absente)");
  }

  lemma StructureMissingHead()
    ensures "Disponibilité non trouvée" == "D" + "isponibilité non trouvée"
  {
  }

  lemma StructureMissingMarkerHead()
    ensures "disponibilité non trouvée" == "d" + "isponibilité non trouvée"
  {
  }

  lemma AvailabilityErrorIsMarker()
    ensures EqualsIgnoreCase(AVAILABILITY_ERROR, AVAILABILITY_MARKERS[3])
  {
    AvailabilityErrorPieces();
    IgnoreCaseAppend("E", "e", "rreur extraction dispo");
  }

  lemma AvailabilityErrorPieces()
    ensures AVAILABILITY_ERROR == "E" + "rreur extraction dispo"
    ensures AVAILABILITY_MARKERS[3] == "e" + "rreur extraction dispo"
  {
  }

  lemma InsuranceNotFoundIsMarker()
    ensures EqualsIgnoreCase(INSURANCE_NOT_FOUND, INSURANCE_MARKERS[1])
  {
    InsuranceNotFoundPieces();
    IgnoreCaseAppend("N/A", "n/a", " (info non trouvée)");
  }

  lemma InsuranceNotFoundPieces()
    ensures INSURANCE_NOT_FOUND == "N/A" + " (info non trouvée)"
    ensures INSURANCE_MARKERS[1] == "n/a" + " (info non trouvée)"
  {
  }

  /** A record holding only "N/A" and failure strings in its checked fields is caught by the guard. */
  lemma FailureRecordIsAbsent(data: Record)
    requires data.fullName == NOT_AVAILABLE && data.profileLink == NOT_AVAILABLE
    requires data.nextAvailability in [NO_UPCOMING_SLOT, AVAILABILITY_STRUCTURE_MISSING, AVAILABILITY_ERROR]
    requires data.insuranceSector in [NOT_AVAILABLE, INSURANCE_NOT_FOUND]
    requires data.street == NOT_AVAILABLE && data.postalCode == NOT_AVAILABLE && data.city == NOT_AVAILABLE
    ensures AllAbsent(data)
  {
    AllAbsentIff(data);
    FailureStringsAreMarkers();
  }

  /** A card on which nothing was found is dropped whatever the criteria. */
  lemma FoundNothingIsFiltered(card: Card, args: Args)
    requires FoundNothing(card)
    ensures AllAbsent(ExtractCardData(card))
    ensures ShouldFilter(ExtractCardData(card), args)
  {
    ExtractFoundNothing(card);
    FailureRecordIsAbsent(ExtractCardData(card));
  }

  lemma ConsultationTypesLowered()
    ensures Lower(REMOTE) == "visio" && Lower(ON_SITE) == "sur place"
  {
  }

  /** For a record whose type is one of the two the extractor writes: a
      request for "visio" (in any case) rejects exactly the on-site records, a
      request for "sur place" exactly the remote ones, any other request every
      record. */
  lemma ConsultationOfExtractedTypes(data: Record, args: Args)
    requires data.consultationType == REMOTE || data.consultationType == ON_SITE
    requires IsSet(args.consultationType)
    ensures Lower(args.consultationType.value) == "visio" ==>
      (RejectedByConsultation(data, args) <==> data.consultationType == ON_SITE)
    ensures Lower(args.consultationType.value) == "sur place" ==>
      (RejectedByConsultation(data, args) <==> data.consultationType == REMOTE)
    ensures Lower(args.consultationType.value) != "visio" && Lower(args.consultationType.value) != "sur place" ==>
      RejectedByConsultation(data, args)
  {
    ConsultationCriterion(data, args);
    ConsultationTypesLowered();
  }

  /** The same for the record built from a card: "visio" rejects exactly the
      cards without a telehealth marker, "sur place" exactly those with one. */
  lemma ExtractedConsultationCriterion(card: Card, args: Args)
    requires IsSet(args.consultationType)
    ensures Lower(args.consultationType.value) == "visio" ==>
      (RejectedByConsultation(ExtractCardData(card), args) <==> !IsTelehealth(card.telehealthBadge, card.telehealthIcon))
    ensures Lower(args.consultationType.value) == "sur place" ==>
      (RejectedByConsultation(ExtractCardData(card), args) <==> IsTelehealth(card.telehealthBadge, card.telehealthIcon))
  {
    ConsultationOfExtractedTypes(ExtractCardData(card), args);
  }

  /** Insurance matching is case-insensitive and by substring: "Secteur 1
      conventionné" is kept under "secteur 1" and dropped under "secteur 2". */
  lemma InsuranceExample()
    ensures var data := DEFAULTS.(insuranceSector := "Secteur 1 conventionné");
      && !ShouldFilter(data, Args(10, None, Some("secteur 1")))
      && ShouldFilter(data, Args(10, None, Some("secteur 2")))
  {
    var sector := "Secteur 1 conventionné";
    var data := DEFAULTS.(insuranceSector := sector);
    SectorIsNotMarker(data);
    SectorMatches(sector);
  }

  /** A record whose insurance text starts with 'S' passes the guard. */
  lemma SectorIsNotMarker(data: Record)
    requires |data.insuranceSector| > 0 && data.insuranceSector[0] == 'S'
    ensures !AllAbsent(data)
  {
    AllAbsentIff(data);
    InsuranceMarkersIff(data.insuranceSector);
    assert Lower(data.insuranceSector)[0] == 's';
    assert Lower("N/A")[0] == 'n';
    assert Lower("n/a (info non trouvée)")[0] == 'n';
  }

  lemma SectorMatches(sector: string)
    requires sector == "Secteur 1 conventionné"
    ensures Contains(Lower(sector), Lower("secteur 1"))
    ensures !Contains(Lower(sector), Lower("secteur 2"))
  {
    assert sector[..9] == "Secteur 1";
    assert Lower(sector)[..9] == Lower("Secteur 1");
    assert Lower("Secteur 1") == "secteur 1" == Lower("secteur 1");
    assert Contains(Lower(sector), Lower("secteur 1"));
    assert '2' !in sector;
    assert Lower("secteur 2")[8] == '2';
    ContainsNeedsChar(Lower(sector), Lower("secteur 2"), 8);
  }
}
