/**
 Status classification: the flags the header normaliser derives from the
 document's `specStatus` (and from `noRecTrack` and a user-supplied
 `recNotExpected`), using fixed lookup tables.
 */
module Status {
  import opened Js
  import Strings
  import Diagnostics

  const Status2Maturity: map<string, string> := map[
    "FPWD" := "WD", "LC" := "WD", "FPLC" := "WD", "FPWD-NOTE" := "NOTE",
    "WD-NOTE" := "WD", "LC-NOTE" := "LC", "IG-NOTE" := "NOTE", "WG-NOTE" := "NOTE"]

  const Status2Rdf: map<string, string> := map[
    "NOTE" := "w3p:NOTE", "WD" := "w3p:WD", "LC" := "w3p:LastCall", "CR" := "w3p:CR",
    "PR" := "w3p:PR", "REC" := "w3p:REC", "PER" := "w3p:PER", "RSCND" := "w3p:RSCND"]

  const Status2Text: map<string, string> := map["ED" := "Draft", "REC" := "Doporučení"]

  /** The long status names: the short ones plus two note statuses. */
  const Status2Long: map<string, string> := Status2Text + map[
    "FPWD-NOTE" := "First Public Working Group Note",
    "LC-NOTE" := "Last Call Working Draft"]

  const RecTrackStatus: seq<string> := Diagnostics.RecTrackStatus

  const NoTrackStatus: seq<string> := [
    "MO", "unofficial", "base", "finding", "draft-finding",
    "CG-DRAFT", "CG-FINAL", "BG-DRAFT", "BG-FINAL"]

  const CgBg: seq<string> := ["CG-DRAFT", "CG-FINAL", "BG-DRAFT", "BG-FINAL"]

  const PrecededByAn: seq<string> := ["ED", "IG-NOTE"]

  /** The status-derived configuration fields. */
  datatype Flags = Flags(
    isUnofficial: bool,
    isCGBG: bool,
    isCGFinal: bool,
    isBasic: bool,
    isRegular: bool,
    isNoTrack: bool,
    isRecTrack: bool,
    isMemberSubmission: bool,
    isTeamSubmission: bool,
    isSubmission: bool,
    anOrA: string,
    isTagFinding: bool,
    maturity: Value,
    longStatus: Value,
    textStatus: Value,
    rdfStatus: Value,      // written only when it is a string
    showThisVersion: bool,
    notYetRec: bool,
    isRec: bool,
    notRec: bool,
    prependW3C: bool,
    isED: bool,
    isCR: bool,
    isPR: bool,
    isPER: bool,
    isMO: bool,
    isNote: bool,
    isIGNote: bool,
    recNotExpected: bool)

  /** `v == "WD"` (loose equality). A string compares by content, an
      array or object through its string form; "WD" is not a numeral, so
      no number or boolean equals it, and null and undefined equal only
      each other. */
  predicate LooselyWD(v: Value) {
    match v
    case Str(s) => s == "WD"
    case Arr(_) => ToString(v) == "WD"
    case Obj(_) => ToString(v) == "WD"
    case _ => false
  }

  /** The maturity: the mapped status when the status has a maturity
      entry, the status itself otherwise. */
  function Maturity(specStatus: Value): Value {
    var mapped := Lookup(Status2Maturity, specStatus);
    if Truthy(mapped) then mapped else specStatus
  }

  /** The flag derivations of the header normaliser, in source order. */
  function Classify(specStatus: Value, noRecTrack: Value, recNotExpected: Value): Flags {
    var isUnofficial := specStatus == Str("unofficial");
    var isCGBG := IsOneOf(specStatus, CgBg);
    var isCGFinal := isCGBG && Strings.EndsWith(specStatus.s, "G-FINAL");
    var isBasic := specStatus == Str("base");
    var isRegular := !isCGBG && !isBasic;
    var isNoTrack := IsOneOf(specStatus, NoTrackStatus);
    var isRecTrack := if Truthy(noRecTrack) then false else IsOneOf(specStatus, RecTrackStatus);
    var isMemberSubmission := specStatus == Str("Member-SUBM");
    var isTeamSubmission := specStatus == Str("Team-SUBM");
    var isTagFinding := specStatus == Str("finding") || specStatus == Str("draft-finding");
    var maturity := Maturity(specStatus);
    var rne :=
      if Truthy(noRecTrack) || Truthy(recNotExpected) then true
      else !isRecTrack && LooselyWD(maturity) && specStatus != Str("FPWD-NOTE");
    Flags(
      isUnofficial := isUnofficial,
      isCGBG := isCGBG,
      isCGFinal := isCGFinal,
      isBasic := isBasic,
      isRegular := isRegular,
      isNoTrack := isNoTrack,
      isRecTrack := isRecTrack,
      isMemberSubmission := isMemberSubmission,
      isTeamSubmission := isTeamSubmission,
      isSubmission := isMemberSubmission || isTeamSubmission,
      anOrA := if IsOneOf(specStatus, PrecededByAn) then "an" else "a",
      isTagFinding := isTagFinding,
      maturity := maturity,
      longStatus := Lookup(Status2Long, specStatus),
      textStatus := Lookup(Status2Text, specStatus),
      rdfStatus := Lookup(Status2Rdf, specStatus),
      showThisVersion := !isNoTrack || isTagFinding,
      notYetRec := isRecTrack && specStatus != Str("REC"),
      isRec := isRecTrack && specStatus == Str("REC"),
      notRec := specStatus != Str("REC"),
      prependW3C := !isUnofficial,
      isED := specStatus == Str("ED"),
      isCR := specStatus == Str("CR"),
      isPR := specStatus == Str("PR"),
      isPER := specStatus == Str("PER"),
      isMO := specStatus == Str("MO"),
      isNote := IsOneOf(specStatus, ["FPWD-NOTE", "WG-NOTE"]),
      isIGNote := specStatus == Str("IG-NOTE"),
      recNotExpected := rne)
  }

  /** A document is on the Recommendation track exactly when `noRecTrack`
      is falsy and its status is a Rec-track status; on the track it is
      either a Recommendation or not yet one, never both. */
  lemma RecTrackFlags(specStatus: Value, noRecTrack: Value, recNotExpected: Value)
    ensures var f := Classify(specStatus, noRecTrack, recNotExpected);
      && (f.isRecTrack <==> !Truthy(noRecTrack) && specStatus.Str? && specStatus.s in RecTrackStatus)
      && !(f.isRec && f.notYetRec)
      && (f.isRec || f.notYetRec <==> f.isRecTrack)
      && (f.isRec <==> !Truthy(noRecTrack) && specStatus == Str("REC"))
  {
  }

  lemma EndsWithGFinal(s: string)
    requires s in CgBg
    ensures Strings.EndsWith(s, "G-FINAL") <==> s == "CG-FINAL" || s == "BG-FINAL"
  {
    if s == "CG-DRAFT" {
      assert s[|s| - 7..] == "G-DRAFT";
    } else if s == "BG-DRAFT" {
      assert s[|s| - 7..] == "G-DRAFT";
    } else if s == "CG-FINAL" {
      assert s[|s| - 7..] == "G-FINAL";
    } else {
      assert s[|s| - 7..] == "G-FINAL";
    }
  }

  /** Community and business group documents: the final ones are exactly
      the two `*G-FINAL` statuses, and a final document is always a group
      document; a document is regular exactly when it is neither a group
      document nor a "base" document. */
  lemma GroupFlags(specStatus: Value, noRecTrack: Value, recNotExpected: Value)
    ensures var f := Classify(specStatus, noRecTrack, recNotExpected);
      && (f.isCGFinal <==> specStatus == Str("CG-FINAL") || specStatus == Str("BG-FINAL"))
      && (f.isCGFinal ==> f.isCGBG)
      && (f.isCGBG <==> specStatus.Str? && specStatus.s in CgBg)
      && (f.isRegular <==> !f.isCGBG && !f.isBasic)
      && (f.isRegular <==> specStatus != Str("base") && !(specStatus.Str? && specStatus.s in CgBg))
  {
    if specStatus.Str? && specStatus.s in CgBg {
      EndsWithGFinal(specStatus.s);
    }
  }

  /** A truthy `noRecTrack` forces `recNotExpected`; without it and
      without a user value, a document is "not expected to become a
      Recommendation" exactly when it is off the track with maturity WD
      and is not a first public note. */
  lemma RecNotExpectedFlag(specStatus: Value, noRecTrack: Value, recNotExpected: Value)
    ensures var f := Classify(specStatus, noRecTrack, recNotExpected);
      && (Truthy(noRecTrack) ==> f.recNotExpected && !f.isRecTrack)
      && (Truthy(recNotExpected) ==> f.recNotExpected)
      && (!Truthy(noRecTrack) && !Truthy(recNotExpected) ==>
            (f.recNotExpected <==>
               !f.isRecTrack && LooselyWD(f.maturity) && specStatus != Str("FPWD-NOTE")))
  {
  }

  /** The maturity of a status: WD for the first public and last call
      drafts, NOTE for the group notes, and the status itself for every
      status without a maturity entry. */
  lemma MaturityTable(specStatus: Value)
    ensures ToString(specStatus) in {"FPWD", "LC", "FPLC", "WD-NOTE"} ==> Maturity(specStatus) == Str("WD")
    ensures ToString(specStatus) in {"FPWD-NOTE", "IG-NOTE", "WG-NOTE"} ==> Maturity(specStatus) == Str("NOTE")
    ensures ToString(specStatus) == "LC-NOTE" ==> Maturity(specStatus) == Str("LC")
    ensures ToString(specStatus) !in Status2Maturity ==> Maturity(specStatus) == specStatus
  {
  }

  /** A proposed recommendation that is not marked off the track is
      flagged PR, on the track, and not yet a Recommendation. */
  lemma ProposedRecommendationFlags(noRecTrack: Value, recNotExpected: Value)
    requires !Truthy(noRecTrack)
    ensures var f := Classify(Str("PR"), noRecTrack, recNotExpected);
      f.isPR && f.isRecTrack && !f.isRec && f.notYetRec && f.rdfStatus == Str("w3p:PR")
  {
  }

  /** A "base" document is basic, not regular and off the Recommendation
      track. */
  lemma BaseFlags(noRecTrack: Value, recNotExpected: Value)
    ensures var f := Classify(Str("base"), noRecTrack, recNotExpected);
      f.isBasic && !f.isRegular && !f.isRecTrack
  {
  }
}
