/** The practitioner record: the nine-key dictionary that the scraper fills per
    card and writes as one CSV row, with its column order and the fixed
    strings it stores. */
module CardRecord {

  datatype Option<T> = None | Some(value: T) {
    function GetOr(default: T): T {
      match this
      case Some(v) => v
      case None => default
    }
  }

  const BASE_URL := "https://www.doctolib.fr"

  /** The CSV columns, in the order the file writes them. */
  const CSV_HEADERS: seq<string> := [
    "Nom complet", "Lien Profil", "Prochaine disponibilité", "Type de consultation",
    "Secteur d'assurance", "Prix estimé", "Rue", "Code postal", "Ville"
  ]

  /** The default of every field but the consultation type. */
  const NOT_AVAILABLE := "N/A"
  const ON_SITE := "Sur place"
  const REMOTE := "visio"
  const NO_UPCOMING_SLOT := "Aucune prochainement (ou non spécifié)"
  /** "Disponibilité non trouvée (structure attendue absente)", written in two
      halves so that proofs about its characters stay small. */
  const AVAILABILITY_STRUCTURE_MISSING := "Disponibilité non trouvée" + " (structure attendue absente)"
  const AVAILABILITY_ERROR := "Erreur extraction dispo"
  const INSURANCE_NOT_FOUND := "N/A (info non trouvée)"

  /** One practitioner, one field per CSV column. */
  datatype Record = Record(
    fullName: string,
    profileLink: string,
    nextAvailability: string,
    consultationType: string,
    insuranceSector: string,
    estimatedPrice: string,
    street: string,
    postalCode: string,
    city: string)

  /** The record every card starts from: all fields "N/A" except the
      consultation type, which is on site. */
  const DEFAULTS := Record(NOT_AVAILABLE, NOT_AVAILABLE, NOT_AVAILABLE, ON_SITE,
                           NOT_AVAILABLE, NOT_AVAILABLE, NOT_AVAILABLE, NOT_AVAILABLE, NOT_AVAILABLE)

  /** Dictionary lookup `data.get(key)`: the record's keys are exactly the CSV headers. */
  function Get(data: Record, key: string): (v: Option<string>)
    ensures v.Some? <==> key in CSV_HEADERS
  {
    if key == "Nom complet" then Some(data.fullName)
    else if key == "Lien Profil" then Some(data.profileLink)
    else if key == "Prochaine disponibilité" then Some(data.nextAvailability)
    else if key == "Type de consultation" then Some(data.consultationType)
    else if key == "Secteur d'assurance" then Some(data.insuranceSector)
    else if key == "Prix estimé" then Some(data.estimatedPrice)
    else if key == "Rue" then Some(data.street)
    else if key == "Code postal" then Some(data.postalCode)
    else if key == "Ville" then Some(data.city)
    else None
  }

  /** The CSV row `csv.DictWriter` writes for a record: cell `i` holds the value
      stored under header `i`. */
  function Row(data: Record): (row: seq<string>)
    ensures |row| == |CSV_HEADERS|
    ensures forall i :: 0 <= i < |row| ==> Get(data, CSV_HEADERS[i]) == Some(row[i])
  {
    [data.fullName, data.profileLink, data.nextAvailability, data.consultationType,
     data.insuranceSector, data.estimatedPrice, data.street, data.postalCode, data.city]
  }

  /** The lines of the CSV file after the header and the rows of `rows` were written. */
  function CsvFile(rows: seq<Record>): (lines: seq<seq<string>>)
    ensures |lines| == |rows| + 1 && lines[0] == CSV_HEADERS
    ensures forall k :: 0 <= k < |rows| ==> lines[k + 1] == Row(rows[k])
  {
    if rows == [] then [CSV_HEADERS] else CsvFile(rows[..|rows| - 1]) + [Row(rows[|rows| - 1])]
  }
}
