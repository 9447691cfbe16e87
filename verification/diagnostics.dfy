/**
 The diagnostics the plugins publish on the host's pub/sub channel.

 Each plugin call returns the list of `(level, message)` pairs it would
 publish, in publication order. A message is kept structured; `Text`
 renders the exact string the plugin passes to `pub`.
 */
module Diagnostics {
  import Strings

  datatype Level = Error | Warn

  /** Why a value was refused as an ORCID identifier. */
  datatype OrcidProblem =
    | Unresolvable(reason: string)   // the URL parser threw; its own message
    | WrongOrigin(origin: string)
    | BadFormat(id: string)
    | BadChecksum(id: string)

  /** The configured dates the header normaliser validates. */
  datatype DateField = PublishDate | CrEnd | PrEnd | PerEnd
  {
    /** The configuration option holding the date. */
    function Name(): string {
      match this
      case PublishDate => "publishDate"
      case CrEnd => "crEnd"
      case PrEnd => "prEnd"
      case PerEnd => "perEnd"
    }
  }

  datatype Message =
    // header normaliser
    | MissingSpecStatus
    | MissingShortName
    | InvalidDate(field: DateField, shown: string)
    | EdDraftWithoutUri
    | NoEditor
    | PersonWithoutName
    | NotAnOrcid(shown: string, problem: OrcidProblem)
    | IncompleteAlternateFormat
    | WgArrayMismatch
    | WgRequired
    | PrWithoutCrEnd
    | CrWithoutCrEnd
    | PrWithoutPrEnd
    | PerWithoutPerEnd
    | NoRecTrackConflict(status: string)
    | IgNoteWithoutDisclosure
    | CrWithoutImplementationReport
    | PrWithoutImplementationReport
    // canonical URI resolution
    | EdDraftCanonicalWithoutUri
    | TrCanonicalWithoutShortName
    | InvalidCanonical(reason: string)

  datatype Diagnostic = Diagnostic(level: Level, message: Message)

  type Log = seq<Diagnostic>

  /** The statuses that place a document on the Recommendation track,
      in the order the noRecTrack error lists them. */
  const RecTrackStatus: seq<string> := ["FPWD", "WD", "FPLC", "LC", "CR", "PR", "PER", "REC"]

  const ImplementationExperience: string :=
    "[implementation experience](https://data.gov.cz/2019/Process-20190301/#implementation-experience)."

  const ImplementationReportLink: string :=
    "[`implementationReportURI`](https://github.com/w3c/respec/wiki/implementationReportURI)"

  function ProblemText(p: OrcidProblem): string {
    match p
    case Unresolvable(reason) => reason
    case WrongOrigin(origin) =>
      "The origin should be \"https://orcid.org\", not \"" + origin + "\"."
    case BadFormat(id) =>
      "ORCIDs have the format \"1234-1234-1234-1234\", not \"" + id + "\""
    case BadChecksum(id) => "\"" + id + "\" has an invalid checksum."
  }

  /** The string handed to `pub` for a message. */
  function Text(m: Message): string {
    match m
    case MissingSpecStatus => "Missing required configuration: `specStatus`"
    case MissingShortName => "Missing required configuration: `shortName`"
    case InvalidDate(field, shown) =>
      var prop := field.Name();
      "[`" + prop + "`](https://github.com/w3c/respec/wiki/" + prop + ") "
      + "is not a valid date: \"" + shown + "\". Expected format 'YYYY-MM-DD'."
    case EdDraftWithoutUri => "Editor's Drafts should set edDraftURI."
    case NoEditor => "At least one editor is required"
    case PersonWithoutName => "All authors and editors must have a name."
    case NotAnOrcid(shown, problem) =>
      "\"" + shown + "\" is not an ORCID. " + ProblemText(problem)
    case IncompleteAlternateFormat => "All alternate formats must have a uri and a label."
    case WgArrayMismatch =>
      "If one of '`wg`', '`wgURI`', or '`wgPatentURI`' is an array, they all have to be."
    case WgRequired =>
      "[`wg`](https://github.com/w3c/respec/wiki/wg)"
      + " configuration option is required for this kind of document."
    case PrWithoutCrEnd =>
      "`specStatus` is \"PR\" but no `crEnd` is specified (needed to indicate end of previous CR)."
    case CrWithoutCrEnd =>
      "`specStatus` is \"CR\", but no `crEnd` is specified in Respec config."
    case PrWithoutPrEnd => "`specStatus` is \"PR\" but no `prEnd` is specified."
    case PerWithoutPerEnd => "Status is PER but no perEnd is specified"
    case NoRecTrackConflict(status) =>
      "Document configured as [`noRecTrack`](https://github.com/w3c/respec/wiki/noRecTrack), "
      + "but its status (\"" + status + "\") puts it on the W3C Rec Track. Status cannot be any of: "
      + Strings.Join(RecTrackStatus, ", ")
      + ". [More info](https://github.com/w3c/respec/wiki/noRecTrack)."
    case IgNoteWithoutDisclosure =>
      "IG-NOTEs must link to charter's disclosure section using `charterDisclosureURI`."
    case CrWithoutImplementationReport =>
      "CR documents must have an " + ImplementationReportLink + " "
      + "that describes " + ImplementationExperience
    case PrWithoutImplementationReport =>
      "PR documents should include an  " + ImplementationReportLink
      + " that describes " + ImplementationExperience
    case EdDraftCanonicalWithoutUri =>
      "Canonical URI set to edDraft, but no edDraftURI is set in configuration"
    case TrCanonicalWithoutShortName =>
      "Canonical URI set to TR, but no shortName is set in configuration"
    case InvalidCanonical(reason) => "CanonicalURI is an invalid URL: " + reason
  }

  /** The group of checks that publishes a message, in publication order:
      the opening checks (0), the people (1), the alternate formats (2),
      the working groups (3), the end dates (4), the track checks (5);
      the canonical-URI messages come from the other plugin (6). A date
      error belongs to the opening checks for `publishDate` and to the
      end dates otherwise. */
  function Stage(m: Message): nat {
    if m.PersonWithoutName? || m.NotAnOrcid? then 1
    else if m.IncompleteAlternateFormat? then 2
    else if m.WgArrayMismatch? || m.WgRequired? then 3
    else if m.PrWithoutCrEnd? || m.CrWithoutCrEnd? || m.PrWithoutPrEnd? || m.PerWithoutPerEnd? then 4
    else if m.InvalidDate? then (if m.field.PublishDate? then 0 else 4)
    else if m.NoRecTrackConflict? || m.IgNoteWithoutDisclosure?
         || m.CrWithoutImplementationReport? || m.PrWithoutImplementationReport? then 5
    else if m.EdDraftCanonicalWithoutUri? || m.TrCanonicalWithoutShortName? || m.InvalidCanonical? then 6
    else 0
  }

  /** `pub(level, message)` when `cond` holds, nothing otherwise. */
  function PubIf(cond: bool, level: Level, m: Message): (log: Log)
    ensures Diagnostic(level, m) in log <==> cond
    ensures |log| <= 1
    ensures forall d :: d in log ==> d == Diagnostic(level, m)
  {
    if cond then [Diagnostic(level, m)] else []
  }
}
