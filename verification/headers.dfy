/**
 The header normaliser: it validates the configuration, derives the
 status flags and the person, working-group and licence fields, and
 reports every problem as a diagnostic instead of stopping.

 The plugin mutates the configuration in place; here `Run` returns the
 new configuration together with the diagnostics, in the order the
 plugin publishes them.
 */
module Headers {
  import opened Js
  import opened Wrappers
  import opened Urls
  import opened Diagnostics
  import Strings
  import Orcid
  import Status

  /** What the plugin gets from its host: the URL parser and the Date
      constructor's verdict on a configured date value. */
  datatype Env = Env(resolve: Resolver, validDate: Value -> bool)

  datatype Checked = Checked(value: Value, log: Log, threw: bool)

  /** What a run of checks published, and whether it stopped with a
      TypeError after that. */
  datatype Outcome = Outcome(log: Log, threw: bool)

  /** `first`, then `next` unless `first` threw. */
  function Then(first: Outcome, next: Outcome): (r: Outcome)
    ensures r.threw <==> first.threw || next.threw
    ensures forall d :: d in r.log <==> d in first.log || (!first.threw && d in next.log)
  {
    if first.threw then first else Outcome(first.log + next.log, next.threw)
  }

  // ---------------------------------------------------------------------
  // People (editors, former editors, authors)

  /** The ORCID value is accepted: it resolves against orcid.org to a URL
      on the orcid.org origin whose path is an identifier valid under
      ISO/IEC 7064 MOD 11-2. */
  predicate OrcidValid(orcid: Value, resolve: Resolver) {
    var r := resolve(ToString(orcid), Orcid.OrcidBase);
    r.Success? && r.value.origin == Orcid.OrcidOrigin
      && Orcid.Mod112Valid(Orcid.PathToId(r.value.pathname))
  }

  predicate IsOrcidError(d: Diagnostic) {
    d.message.NotAnOrcid?
  }

  /** The number of ORCID errors in a log. */
  function OrcidErrors(log: Log): nat {
    if |log| == 0 then 0
    else (if IsOrcidError(log[0]) then 1 else 0) + OrcidErrors(log[1..])
  }

  /** Every diagnostic a person check can publish. */
  predicate PersonDiagnostic(d: Diagnostic) {
    d.level == Error && (d.message == PersonWithoutName || d.message.NotAnOrcid?)
  }

  /** A person whose ORCID is set and refused. */
  predicate OrcidRejected(person: Value, resolve: Resolver) {
    person.Obj? && Truthy(Get(person.fields, "orcid"))
      && !OrcidValid(Get(person.fields, "orcid"), resolve)
  }

  /** `peopCheck`: reading `it.name` throws on null and undefined.
      Otherwise a person needs a name, and a set ORCID is replaced by its
      full orcid.org URL, or removed with an error when it is refused. No
      other field of the person changes. */
  function CheckPerson(it: Value, resolve: Resolver): (r: Checked)
    ensures r.threw <==> Nullish(it)
    ensures Diagnostic(Error, PersonWithoutName) in r.log <==> !Nullish(it) && !Truthy(Prop(it, "name"))
    ensures forall d :: d in r.log ==> PersonDiagnostic(d)
    ensures OrcidErrors(r.log) == (if OrcidRejected(it, resolve) then 1 else 0)
    ensures it.Obj? <==> r.value.Obj?
    ensures !it.Obj? ==> r.value == it
    ensures it.Obj? ==>
      var before, after := it.fields, r.value.fields;
      var orcid := Get(before, "orcid");
      && (forall k :: k != "orcid" ==> (k in after <==> k in before))
      && (forall k :: k != "orcid" && k in before ==> after[k] == before[k])
      && (!Truthy(orcid) ==> after == before)
      && (Truthy(orcid) && OrcidValid(orcid, resolve) ==>
            after == before["orcid" := Str(resolve(ToString(orcid), Orcid.OrcidBase).value.href)])
      && (Truthy(orcid) && !OrcidValid(orcid, resolve) ==> "orcid" !in after)
  {
    if Nullish(it) then Checked(it, [], true)
    else
      var nameLog := PubIf(!Truthy(Prop(it, "name")), Error, PersonWithoutName);
      assert OrcidErrors(nameLog) == 0;
      if !it.Obj? then Checked(it, nameLog, false)
      else
        var p := it.fields;
        var orcid := Get(p, "orcid");
        if !Truthy(orcid) then Checked(it, nameLog, false)
        else
          match Orcid.NormalizeOrcid(ToString(orcid), resolve)
          case Success(href) => Checked(Obj(p["orcid" := Str(href)]), nameLog, false)
          case Failure(problem) =>
            var err := Diagnostic(Error, NotAnOrcid(ToString(orcid), problem));
            OrcidErrorsAppend(nameLog, [err]);
            Checked(Obj(p - {"orcid"}), nameLog + [err], false)
  }

  lemma {:induction false} OrcidErrorsAppend(a: Log, b: Log)
    ensures OrcidErrors(a + b) == OrcidErrors(a) + OrcidErrors(b)
  {
    if |a| == 0 {
      assert a + b == b;
    } else {
      assert (a + b)[1..] == a[1..] + b;
      OrcidErrorsAppend(a[1..], b);
    }
  }

  /** The number of people whose ORCID is refused, up to the first null
      or undefined person, where the check throws. */
  function RejectedCount(people: seq<Value>, resolve: Resolver): nat {
    if |people| == 0 || Nullish(people[0]) then 0
    else (if OrcidRejected(people[0], resolve) then 1 else 0) + RejectedCount(people[1..], resolve)
  }

  datatype CheckedList = CheckedList(people: seq<Value>, log: Log, threw: bool)

  /** `people.forEach(peopCheck)`: every person checked in order, the
      diagnostics one person after the other, until a null or undefined
      person makes the check throw. */
  function CheckPeople(people: seq<Value>, resolve: Resolver): (r: CheckedList)
    ensures r.threw <==> FirstNullish(people) < |people|
    ensures !r.threw ==> |r.people| == |people|
    ensures !r.threw ==> forall i :: 0 <= i < |people| ==> r.people[i] == CheckPerson(people[i], resolve).value
    ensures forall d :: d in r.log ==> PersonDiagnostic(d)
    ensures OrcidErrors(r.log) == RejectedCount(people, resolve)
    ensures Diagnostic(Error, PersonWithoutName) in r.log <==> SomeoneNameless(people)
  {
    if |people| == 0 then CheckedList([], [], false)
    else
      var head := CheckPerson(people[0], resolve);
      if head.threw then CheckedList(people, [], true)
      else
        var tail := CheckPeople(people[1..], resolve);
        OrcidErrorsAppend(head.log, tail.log);
        NamelessStep(people);
        assert forall i :: 1 <= i < |people| ==> people[1..][i - 1] == people[i];
        CheckedList([head.value] + tail.people, head.log + tail.log, tail.threw)
  }

  /** Someone before the first null or undefined person has no name: the
      first person, or someone in the rest of the list. */
  predicate SomeoneNameless(people: seq<Value>) {
    exists i :: 0 <= i < FirstNullish(people) && !Truthy(Prop(people[i], "name"))
  }

  lemma NamelessStep(people: seq<Value>)
    requires |people| > 0 && !Nullish(people[0])
    ensures FirstNullish(people) == 1 + FirstNullish(people[1..])
    ensures SomeoneNameless(people) <==>
      !Truthy(Prop(people[0], "name")) || SomeoneNameless(people[1..])
  {
    var rest := people[1..];
    assert FirstNullish(people) == 1 + FirstNullish(rest);
    if SomeoneNameless(rest) {
      var j :| 0 <= j < FirstNullish(rest) && !Truthy(Prop(rest[j], "name"));
      assert people[j + 1] == rest[j];
    }
    if SomeoneNameless(people) && Truthy(Prop(people[0], "name")) {
      var i :| 0 <= i < FirstNullish(people) && !Truthy(Prop(people[i], "name"));
      assert rest[i - 1] == people[i];
    }
  }

  /** `if (v) v.forEach(f)` or `(v || []).forEach(f)`, with an `f` that
      reads a property of its argument, throws: `forEach` is missing on a
      truthy value that is not an array, and `f` throws on a null or
      undefined element. */
  predicate ListThrows(v: Value) {
    Truthy(v) && (!v.Arr? || FirstNullish(v.items) < |v.items|)
  }

  /** `if (conf.x) conf.x.forEach(peopCheck)` for one of the person
      lists: an array is checked element by element, a falsy value is
      left alone, and any other value throws. */
  function CheckList(v: Value, resolve: Resolver): (r: Checked)
    ensures r.threw <==> ListThrows(v)
    ensures forall d :: d in r.log ==> PersonDiagnostic(d)
    ensures forall d :: d in r.log ==> Stage(d.message) == 1
    ensures v.Arr? && !r.threw ==> r.value.Arr? && r.value.items == CheckPeople(v.items, resolve).people
    ensures v.Arr? ==> OrcidErrors(r.log) == RejectedCount(v.items, resolve)
    ensures !v.Arr? ==> r.value == v && r.log == []
  {
    if v.Arr? then
      var c := CheckPeople(v.items, resolve);
      Checked(Arr(c.people), c.log, c.threw)
    else Checked(v, [], Truthy(v))
  }

  // ---------------------------------------------------------------------
  // Working groups

  /** The `wgId` getter on a string `wgPatentURI`: split the URI at `/`
      and take the segment after the first "pp-impl", or "" when there is
      none. When "pp-impl" is missing, `findIndex` yields -1 and the
      getter reads segment 0. */
  function WgId(patentUri: string): string {
    var parts := Strings.Split(patentUri, '/');
    var pos := Strings.FindIndex(parts, "pp-impl") + 1;
    if pos < |parts| then parts[pos] else ""
  }

  /** For a patent URI whose path holds a "pp-impl" segment, the id is
      the segment right after the first one, and "" when "pp-impl" is the
      last segment. */
  lemma WgIdAfterPpImpl(before: seq<string>, after: seq<string>)
    requires forall i :: 0 <= i < |before| ==> '/' !in before[i]
    requires forall i :: 0 <= i < |after| ==> '/' !in after[i]
    requires "pp-impl" !in before
    ensures WgId(Strings.Join(before + ["pp-impl"] + after, "/")) ==
      (if |after| == 0 then "" else after[0])
  {
    var parts := before + ["pp-impl"] + after;
    SegmentsFree(before, after);
    Strings.SplitJoin(parts, '/');
    FirstPpImpl(before, after);
    if |after| > 0 {
      assert parts[|before| + 1] == after[0];
    }
  }

  lemma SegmentsFree(before: seq<string>, after: seq<string>)
    requires forall i :: 0 <= i < |before| ==> '/' !in before[i]
    requires forall i :: 0 <= i < |after| ==> '/' !in after[i]
    ensures var parts := before + ["pp-impl"] + after;
      forall i :: 0 <= i < |parts| ==> '/' !in parts[i]
  {
    var parts := before + ["pp-impl"] + after;
    forall i | 0 <= i < |parts| ensures '/' !in parts[i] {
      if i < |before| {
        assert parts[i] == before[i];
      } else if i > |before| {
        assert parts[i] == after[i - |before| - 1];
      } else {
        assert parts[i] == "pp-impl";
      }
    }
  }

  lemma FirstPpImpl(before: seq<string>, after: seq<string>)
    requires "pp-impl" !in before
    ensures Strings.FindIndex(before + ["pp-impl"] + after, "pp-impl") == |before|
  {
    var parts := before + ["pp-impl"] + after;
    assert parts[|before|] == "pp-impl";
    assert parts[..|before|] == before;
  }

  /** Without a "pp-impl" segment the getter returns the text before the
      first `/` (for an absolute URL, its scheme and colon). */
  lemma WgIdWithoutPpImpl(patentUri: string)
    requires "pp-impl" !in Strings.Split(patentUri, '/')
    ensures WgId(patentUri) == patentUri[..Strings.IndexOfChar(patentUri, '/')]
  {
  }

  /** Some of `wg`, `wgURI` and `wgPatentURI` are arrays, but not all. */
  predicate WgArraysMixed(wg: Value, wgUri: Value, wgPatentUri: Value) {
    var arrays := [wg, wgUri, wgPatentUri];
    (exists i :: 0 <= i < 3 && arrays[i].Arr?) && !(forall i :: 0 <= i < 3 ==> arrays[i].Arr?)
  }

  /** The working-group consistency error is published exactly when one
      or two of the three group values are arrays. */
  function WgArrayCheck(wg: Value, wgUri: Value, wgPatentUri: Value): (log: Log)
    ensures var arrays := (if wg.Arr? then 1 else 0) + (if wgUri.Arr? then 1 else 0)
                          + (if wgPatentUri.Arr? then 1 else 0);
      log == (if 0 < arrays < 3 then [Diagnostic(Error, WgArrayMismatch)] else [])
  {
    var arrays := [wg, wgUri, wgPatentUri];
    assert arrays[0] == wg && arrays[1] == wgUri && arrays[2] == wgPatentUri;
    PubIf(WgArraysMixed(wg, wgUri, wgPatentUri), Error, WgArrayMismatch)
  }

  // ---------------------------------------------------------------------
  // Other checks

  /** `validateDateAndRecover`: a set date the Date constructor rejects is
      reported; an unset one falls back to a date that is always valid. */
  function DateCheck(conf: Object, field: DateField, validDate: Value -> bool): (log: Log)
    ensures var v := Get(conf, field.Name());
      Diagnostic(Error, InvalidDate(field, ToString(v))) in log <==> Truthy(v) && !validDate(v)
    ensures forall d :: d in log ==> d.message.InvalidDate? && d.message.field == field
  {
    var v := Get(conf, field.Name());
    PubIf(Truthy(v) && !validDate(v), Error, InvalidDate(field, ToString(v)))
  }

  /** `(conf.alternateFormats || []).forEach(…)`: every alternate format
      needs a truthy `uri` and `label`, one error per incomplete entry,
      until a null or undefined entry makes the check throw. A truthy
      value that is not an array throws at once. */
  function AlternateFormatChecks(formats: Value): (r: Outcome)
    ensures r.threw <==> ListThrows(formats)
    ensures forall d :: d in r.log ==> d == Diagnostic(Error, IncompleteAlternateFormat)
    ensures formats.Arr? ==> |r.log| == IncompleteCount(formats.items)
    ensures !formats.Arr? ==> r.log == []
  {
    if formats.Arr? then
      Outcome(IncompleteFormats(formats.items), FirstNullish(formats.items) < |formats.items|)
    else Outcome([], Truthy(formats))
  }

  /** The number of incomplete alternate formats before the first null or
      undefined one. */
  function IncompleteCount(formats: seq<Value>): nat {
    if |formats| == 0 || Nullish(formats[0]) then 0
    else (if FormatIncomplete(formats[0]) then 1 else 0) + IncompleteCount(formats[1..])
  }

  function IncompleteFormats(formats: seq<Value>): (log: Log)
    ensures forall d :: d in log ==> d == Diagnostic(Error, IncompleteAlternateFormat)
    ensures |log| == IncompleteCount(formats)
  {
    if |formats| == 0 || Nullish(formats[0]) then []
    else
      PubIf(FormatIncomplete(formats[0]), Error, IncompleteAlternateFormat)
      + IncompleteFormats(formats[1..])
  }

  predicate FormatIncomplete(it: Value) {
    !Truthy(Prop(it, "uri")) || !Truthy(Prop(it, "label"))
  }

  /** `!conf.editors || conf.editors.length === 0`. */
  predicate NoEditors(editors: Value) {
    !Truthy(editors) || Prop(editors, "length") == Num(0)
  }

  // ---------------------------------------------------------------------
  // The plugin

  const Licenses: map<string, Value> := map[
    "cc0" := Obj(map[
      "name" := Str("Creative Commons 0 Public Domain Dedication"),
      "short" := Str("CC0"),
      "url" := Str("https://creativecommons.org/publicdomain/zero/1.0/")]),
    "cc-by" := Obj(map[
      "name" := Str("Creative Commons Attribution 4.0 International Public License"),
      "short" := Str("CC-BY"),
      "url" := Str("https://creativecommons.org/licenses/by/4.0/legalcode")])]

  /** `licenses[conf.license]`. */
  function LicenseInfo(license: Value): Value {
    var key := ToString(license);
    if key in Licenses then Licenses[key] else Undefined
  }

  /** `v && v.length > 1`: the falsy value itself, or whether it has more
      than one element. The model takes a length that is not a number as
      not greater than 1. */
  function Several(v: Value): Value {
    if !Truthy(v) then v
    else Bool(Prop(v, "length").Num? && Prop(v, "length").n > 1)
  }

  /** The fields the plugin computes. The plugin writes them onto the
      configuration object; the model returns them as a record beside
      the configuration. */
  datatype Header = Header(
    flags: Status.Flags,
    isCCBY: bool,
    licenseInfo: Value,
    multipleEditors: Value,
    multipleFormerEditors: bool,
    multipleAuthors: Value,
    multipleAlternates: Value,
    multipleWGs: bool)

  /** The configuration options the model rewrites. */
  const Overwritten: set<string> :=
    {"logos", "subtitle", "edDraftURI", "editors", "formerEditors", "authors", "wgId"}

  /** The other options the plugin may assign: the derived flags and
      counts (returned here in `Header`), the dates, the HTML fragments,
      the title and the cleared `copyrightStart`. */
  const Derived: set<string> := {
    "alternatesHTML", "anOrA", "bugTrackerHTML", "copyrightStart", "crEnd", "dashDate",
    "humanCREnd", "humanPEREnd", "humanPREnd", "isBasic", "isCCBY", "isCGBG", "isCGFinal",
    "isCR", "isED", "isIGNote", "isMO", "isMemberSubmission", "isNoTrack", "isNote", "isPER",
    "isPR", "isRec", "isRecTrack", "isRegular", "isSubmission", "isTagFinding",
    "isTeamSubmission", "isUnofficial", "licenseInfo", "longStatus", "maturity",
    "multipleAlternates", "multipleAuthors", "multipleEditors", "multipleFormerEditors",
    "multipleWGs", "notRec", "notYetRec", "perEnd", "prEnd", "prependW3C", "publishDate",
    "publishHumanDate", "publishISODate", "publishYear", "rdfStatus", "recNotExpected",
    "shortISODate", "showThisVersion", "textStatus", "title", "wgHTML", "wgPatentHTML"}

  /** Every option the plugin may write. */
  const Assigned: set<string> := Overwritten + Derived

  /** `conf[k] = v` when `cond`. */
  function SetIf(conf: Object, cond: bool, k: string, v: Value): (r: Object)
    ensures cond ==> r == conf[k := v]
    ensures !cond ==> r == conf
    ensures forall x :: x != k ==> (x in r <==> x in conf) && (x in conf ==> r[x] == conf[x])
  {
    if cond then conf[k := v] else conf
  }

  function Compute(conf: Object, f: Status.Flags): Header {
    var editors := Get(conf, "editors");
    var formerEditors := Get(conf, "formerEditors");
    var wg := Get(conf, "wg");
    Header(
      flags := f,
      isCCBY := Get(conf, "license") == Str("cc-by"),
      licenseInfo := LicenseInfo(Get(conf, "license")),
      multipleEditors := Several(editors),
      multipleFormerEditors := formerEditors.Arr? && |formerEditors.items| > 1,
      multipleAuthors := Several(Get(conf, "authors")),
      multipleAlternates := Several(Get(conf, "alternateFormats")),
      multipleWGs := wg.Arr? && |wg.items| > 1)
  }

  /** `wgId`: a lazy getter over an own, non-array `wgPatentURI`, and
      otherwise the configured id or "". `None` stands for the getter on
      a patent URI that is not a string, which throws when read. */
  function WgIdField(conf: Object): Option<Value> {
    if "wgPatentURI" in conf && !conf["wgPatentURI"].Arr? then
      if conf["wgPatentURI"].Str? then Some(Str(WgId(conf["wgPatentURI"].s))) else None
    else
      var id := Get(conf, "wgId");
      Some(if Truthy(id) then id else Str(""))
  }

  /** The checks published before the people are checked. */
  function OpeningChecks(conf: Object, f: Status.Flags, validDate: Value -> bool): (log: Log)
    ensures forall d :: d in log ==> Stage(d.message) == 0
    ensures var status := Get(conf, "specStatus");
      && (Diagnostic(Error, MissingSpecStatus) in log <==> !Truthy(status))
      && (Diagnostic(Error, MissingShortName) in log <==> f.isRegular && !Truthy(Get(conf, "shortName")))
      && (Diagnostic(Error, NoEditor) in log <==> NoEditors(Get(conf, "editors")))
      && (Diagnostic(Warn, EdDraftWithoutUri) in log <==>
            !Truthy(Get(conf, "edDraftURI")) && status == Str("ED"))
  {
    var required := RequiredChecks(conf, f);
    var date := DateCheck(conf, PublishDate, validDate);
    var editors := EditorChecks(conf);
    assert forall d :: d in date ==> Stage(d.message) == 0;
    assert forall d :: d in required + date ==> Stage(d.message) == 0;
    required + date + editors
  }

  /** `specStatus` is always required, `shortName` for a regular
      document. */
  function RequiredChecks(conf: Object, f: Status.Flags): (log: Log)
    ensures forall d :: d in log ==> d.message.MissingSpecStatus? || d.message.MissingShortName?
    ensures forall d :: d in log ==> Stage(d.message) == 0
    ensures Diagnostic(Error, MissingSpecStatus) in log <==> !Truthy(Get(conf, "specStatus"))
    ensures Diagnostic(Error, MissingShortName) in log <==> f.isRegular && !Truthy(Get(conf, "shortName"))
  {
    PubIf(!Truthy(Get(conf, "specStatus")), Error, MissingSpecStatus)
    + PubIf(f.isRegular && !Truthy(Get(conf, "shortName")), Error, MissingShortName)
  }

  /** An Editor's Draft should link itself, and every document needs an
      editor. */
  function EditorChecks(conf: Object): (log: Log)
    ensures forall d :: d in log ==> d.message.EdDraftWithoutUri? || d.message.NoEditor?
    ensures forall d :: d in log ==> Stage(d.message) == 0
    ensures Diagnostic(Error, NoEditor) in log <==> NoEditors(Get(conf, "editors"))
    ensures Diagnostic(Warn, EdDraftWithoutUri) in log <==>
      !Truthy(Get(conf, "edDraftURI")) && Get(conf, "specStatus") == Str("ED")
  {
    PubIf(!Truthy(Get(conf, "edDraftURI")) && Get(conf, "specStatus") == Str("ED"), Warn, EdDraftWithoutUri)
    + PubIf(NoEditors(Get(conf, "editors")), Error, NoEditor)
  }

  /** A CR or PR document must give the end of its candidate
      recommendation; a set `crEnd` must be a valid date. */
  function CrEndChecks(conf: Object, validDate: Value -> bool): (log: Log)
    ensures forall d :: d in log ==> Stage(d.message) == 4
    ensures forall d :: d in log ==>
      d.message.PrWithoutCrEnd? || d.message.CrWithoutCrEnd? || d.message.InvalidDate?
    ensures var status := Get(conf, "specStatus");
      && (Diagnostic(Error, PrWithoutCrEnd) in log <==> status == Str("PR") && !Truthy(Get(conf, "crEnd")))
      && (Diagnostic(Error, CrWithoutCrEnd) in log <==> status == Str("CR") && !Truthy(Get(conf, "crEnd")))
  {
    var status := Get(conf, "specStatus");
    PubIf(status == Str("PR") && !Truthy(Get(conf, "crEnd")), Error, PrWithoutCrEnd)
    + PubIf(status == Str("CR") && !Truthy(Get(conf, "crEnd")), Error, CrWithoutCrEnd)
    + DateCheck(conf, CrEnd, validDate)
  }

  /** A document of status `status` must set the end date `field`, and a
      set end date must be valid. */
  function EndCheck(conf: Object, status: string, field: DateField, m: Message, validDate: Value -> bool): (log: Log)
    requires m.PrWithoutPrEnd? || m.PerWithoutPerEnd?
    requires !field.PublishDate?
    ensures forall d :: d in log ==> Stage(d.message) == 4
    ensures forall d :: d in log ==> d.message == m || d.message.InvalidDate?
    ensures Diagnostic(Error, m) in log <==>
      Get(conf, "specStatus") == Str(status) && !Truthy(Get(conf, field.Name()))
  {
    PubIf(Get(conf, "specStatus") == Str(status) && !Truthy(Get(conf, field.Name())), Error, m)
    + DateCheck(conf, field, validDate)
  }

  /** The end dates a CR, PR or PER document must give, each followed by
      the validity check of the date. */
  function EndDateChecks(conf: Object, validDate: Value -> bool): (log: Log)
    ensures forall d :: d in log ==> Stage(d.message) == 4
    ensures var status := Get(conf, "specStatus");
      && (Diagnostic(Error, PrWithoutCrEnd) in log <==> status == Str("PR") && !Truthy(Get(conf, "crEnd")))
      && (Diagnostic(Error, CrWithoutCrEnd) in log <==> status == Str("CR") && !Truthy(Get(conf, "crEnd")))
      && (Diagnostic(Error, PrWithoutPrEnd) in log <==> status == Str("PR") && !Truthy(Get(conf, "prEnd")))
      && (Diagnostic(Error, PerWithoutPerEnd) in log <==> status == Str("PER") && !Truthy(Get(conf, "perEnd")))
  {
    var cr := CrEndChecks(conf, validDate);
    var pr := EndCheck(conf, "PR", PrEnd, PrWithoutPrEnd, validDate);
    var per := EndCheck(conf, "PER", PerEnd, PerWithoutPerEnd, validDate);
    cr + pr + per
  }

  /** `conf.l10n.file_a_bug`, read when the bug tracker has both a `new`
      and an `open` link, throws when `l10n` is null or undefined. */
  predicate BugTrackerThrows(conf: Object) {
    var tracker := Get(conf, "bugTracker");
    Truthy(tracker) && Truthy(Prop(tracker, "new")) && Truthy(Prop(tracker, "open"))
      && Nullish(Get(conf, "l10n"))
  }

  /** `conf.wgURI[idx]` and `conf.wgPatentURI[i]`, read once per group of
      a non-empty `wg` array, throw when the value indexed is null or
      undefined. */
  predicate WgThrows(conf: Object) {
    var wg := Get(conf, "wg");
    wg.Arr? && |wg.items| > 0 && (Nullish(Get(conf, "wgURI")) || Nullish(Get(conf, "wgPatentURI")))
  }

  /** The working-group checks, then the group fragments that may throw. */
  function GroupChecks(conf: Object, f: Status.Flags): (r: Outcome)
    ensures r.threw <==> WgThrows(conf)
    ensures forall d :: d in r.log ==> Stage(d.message) == 3
    ensures && (Diagnostic(Error, WgArrayMismatch) in r.log <==>
                  WgArraysMixed(Get(conf, "wg"), Get(conf, "wgURI"), Get(conf, "wgPatentURI")))
            && (Diagnostic(Error, WgRequired) in r.log <==> f.isCGBG && !Truthy(Get(conf, "wg")))
  {
    var log := WgArrayCheck(Get(conf, "wg"), Get(conf, "wgURI"), Get(conf, "wgPatentURI"))
      + PubIf(f.isCGBG && !Truthy(Get(conf, "wg")), Error, WgRequired);
    Outcome(log, WgThrows(conf))
  }

  /** The Rec-track, note and implementation-report checks. */
  function TrackChecks(conf: Object, f: Status.Flags): (log: Log)
    ensures forall d :: d in log ==> Stage(d.message) == 5
    ensures var status := Get(conf, "specStatus");
      && (Diagnostic(Error, NoRecTrackConflict(ToString(status))) in log <==>
            Truthy(Get(conf, "noRecTrack")) && IsOneOf(status, Status.RecTrackStatus))
      && (Diagnostic(Error, IgNoteWithoutDisclosure) in log <==>
            f.isIGNote && !Truthy(Get(conf, "charterDisclosureURI")))
      && (Diagnostic(Error, CrWithoutImplementationReport) in log <==>
            f.isCR && !Truthy(Get(conf, "implementationReportURI")))
      && (Diagnostic(Warn, PrWithoutImplementationReport) in log <==>
            f.isPR && !Truthy(Get(conf, "implementationReportURI")))
  {
    var status := Get(conf, "specStatus");
    var conflict :=
      PubIf(Truthy(Get(conf, "noRecTrack")) && IsOneOf(status, Status.RecTrackStatus),
            Error, NoRecTrackConflict(ToString(status)));
    conflict + NoteAndReportChecks(conf, f)
  }

  /** An IG note must link the charter's disclosure section; a CR
      document must, and a PR document should, link an implementation
      report. */
  function NoteAndReportChecks(conf: Object, f: Status.Flags): (log: Log)
    ensures forall d :: d in log ==>
      d.message.IgNoteWithoutDisclosure? || d.message.CrWithoutImplementationReport?
      || d.message.PrWithoutImplementationReport?
    ensures Diagnostic(Error, IgNoteWithoutDisclosure) in log <==>
      f.isIGNote && !Truthy(Get(conf, "charterDisclosureURI"))
    ensures Diagnostic(Error, CrWithoutImplementationReport) in log <==>
      f.isCR && !Truthy(Get(conf, "implementationReportURI"))
    ensures Diagnostic(Warn, PrWithoutImplementationReport) in log <==>
      f.isPR && !Truthy(Get(conf, "implementationReportURI"))
  {
    var implementationReport := Truthy(Get(conf, "implementationReportURI"));
    PubIf(f.isIGNote && !Truthy(Get(conf, "charterDisclosureURI")), Error, IgNoteWithoutDisclosure)
    + PubIf(!implementationReport && f.isCR, Error, CrWithoutImplementationReport)
    + PubIf(!implementationReport && f.isPR, Warn, PrWithoutImplementationReport)
  }

  /** The options the plugin overwrites, in source order. */
  function Update(conf: Object, f: Status.Flags, resolve: Resolver): (r: Object)
    ensures forall x :: x !in Overwritten ==> (x in r <==> x in conf) && (x in conf ==> r[x] == conf[x])
  {
    var c1 := SetIf(conf, f.isUnofficial && !Get(conf, "logos").Arr?, "logos", Arr([]));
    var c2 := SetIf(c1, !Truthy(Get(conf, "subtitle")), "subtitle", Str(""));
    var c3 := SetIf(c2, !Truthy(Get(conf, "edDraftURI")), "edDraftURI", Str(""));
    var c4 := SetIf(c3, "editors" in conf, "editors", CheckList(Get(conf, "editors"), resolve).value);
    var c5 := SetIf(c4, "formerEditors" in conf, "formerEditors",
                    CheckList(Get(conf, "formerEditors"), resolve).value);
    var c6 := SetIf(c5, "authors" in conf, "authors", CheckList(Get(conf, "authors"), resolve).value);
    match WgIdField(conf)
    case Some(id) => c6["wgId" := id]
    case None => c6 - {"wgId"}
  }

  /** How a run ends: with the new configuration, the computed fields and
      the diagnostics, or with a TypeError after the diagnostics published
      before it. */
  datatype HeaderStep =
    | Completed(conf: Object, header: Header, log: Log)
    | Aborted(log: Log)

  /** The status flags of a configuration: the plugin writes them first,
      before any check can throw. */
  function FlagsOf(conf: Object): Status.Flags {
    Status.Classify(Get(conf, "specStatus"), Get(conf, "noRecTrack"), Get(conf, "recNotExpected"))
  }

  /** Some person list throws when it is checked. */
  predicate PeopleThrow(conf: Object) {
    ListThrows(Get(conf, "editors")) || ListThrows(Get(conf, "formerEditors"))
    || ListThrows(Get(conf, "authors"))
  }

  function ListOutcome(c: Checked): Outcome {
    Outcome(c.log, c.threw)
  }

  /** The editors, the former editors and the authors, checked in that
      order until one of the lists throws. */
  function PeopleChecks(conf: Object, resolve: Resolver): (r: Outcome)
    ensures r.threw <==> PeopleThrow(conf)
    ensures forall d :: d in r.log ==> Stage(d.message) == 1
  {
    var editors := CheckList(Get(conf, "editors"), resolve);
    var formerEditors := CheckList(Get(conf, "formerEditors"), resolve);
    var authors := CheckList(Get(conf, "authors"), resolve);
    Then(Then(ListOutcome(editors), ListOutcome(formerEditors)), ListOutcome(authors))
  }

  /** The run gets to the working-group checks: no person list, no
      alternate format and no bug-tracker link throws before them. */
  predicate ReachesGroups(conf: Object) {
    !PeopleThrow(conf) && !ListThrows(Get(conf, "alternateFormats")) && !BugTrackerThrows(conf)
  }

  /** The run gets to its end: it also gets past the group fragments. */
  predicate Completes(conf: Object) {
    ReachesGroups(conf) && !WgThrows(conf)
  }

  /** The seven phases of a run, in source order. */
  datatype Phases = Phases(
    opening: Outcome,
    people: Outcome,
    formats: Outcome,
    bugTracker: Outcome,
    groups: Outcome,
    endDates: Outcome,
    track: Outcome)

  /** The phases of the plugin: the opening checks, the people, the
      alternate formats, the bug tracker, the working groups, the end
      dates and the track checks. */
  function PhasesOf(conf: Object, f: Status.Flags, env: Env): Phases {
    Phases(
      opening := Outcome(OpeningChecks(conf, f, env.validDate), false),
      people := PeopleChecks(conf, env.resolve),
      formats := AlternateFormatChecks(Get(conf, "alternateFormats")),
      bugTracker := Outcome([], BugTrackerThrows(conf)),
      groups := GroupChecks(conf, f),
      endDates := Outcome(EndDateChecks(conf, env.validDate), false),
      track := Outcome(TrackChecks(conf, f), false))
  }

  /** The phases one after the other, up to the first that throws. */
  function Sequence(p: Phases): Outcome {
    Then(Then(Then(Then(Then(Then(p.opening, p.people), p.formats), p.bugTracker), p.groups), p.endDates),
         p.track)
  }

  /** Everything the plugin publishes, in order, and whether it throws. */
  function Published(conf: Object, env: Env): (r: Outcome)
    ensures r.threw <==> !Completes(conf)
  {
    PhasesThrow(conf, FlagsOf(conf), env);
    Sequence(PhasesOf(conf, FlagsOf(conf), env))
  }

  /** The whole plugin. */
  function Run(conf: Object, env: Env): (r: HeaderStep)
    ensures r.Completed? <==> Completes(conf)
    ensures r.log == Published(conf, env).log
  {
    var f := FlagsOf(conf);
    var out := Published(conf, env);
    if out.threw then Aborted(out.log)
    else Completed(Update(conf, f, env.resolve), Compute(conf, f), out.log)
  }

  // ---------------------------------------------------------------------
  // Properties of the plugin

  /** A run that completes leaves every option the plugin never assigns
      as it was: present or absent, with its value. */
  lemma RunLeavesOtherFields(conf: Object, env: Env)
    ensures Run(conf, env).Completed? ==>
      var out := Run(conf, env).conf;
      forall k :: k !in Assigned ==> (k in out <==> k in conf) && (k in conf ==> out[k] == conf[k])
  {
  }

  /** The status fields the plugin writes, stated in terms of the
      configured `specStatus` and `noRecTrack`. */
  lemma RunStatusFields(conf: Object)
    ensures var f := FlagsOf(conf);
      var status, noRecTrack := Get(conf, "specStatus"), Get(conf, "noRecTrack");
      var onTrack := !Truthy(noRecTrack) && IsOneOf(status, Status.RecTrackStatus);
      && f.isRecTrack == onTrack
      && f.isRec == (onTrack && status == Str("REC"))
      && f.notYetRec == (onTrack && status != Str("REC"))
      && f.isCGBG == IsOneOf(status, Status.CgBg)
      && f.isCGFinal == (status == Str("CG-FINAL") || status == Str("BG-FINAL"))
      && f.isRegular == (status != Str("base") && !IsOneOf(status, Status.CgBg))
      && (Truthy(noRecTrack) ==> f.recNotExpected)
  {
    Status.RecTrackFlags(Get(conf, "specStatus"), Get(conf, "noRecTrack"), Get(conf, "recNotExpected"));
    Status.GroupFlags(Get(conf, "specStatus"), Get(conf, "noRecTrack"), Get(conf, "recNotExpected"));
  }

  /** In a run that completes, `wgId` is the segment after "pp-impl" of a
      string patent URI when the configuration makes the getter, and
      otherwise the configured id when that is truthy and "" when it is
      not. */
  lemma RunWgId(conf: Object, env: Env)
    ensures Run(conf, env).Completed? ==>
      var out := Run(conf, env).conf;
      && ("wgPatentURI" in conf && conf["wgPatentURI"].Str? ==>
            Get(out, "wgId") == Str(WgId(conf["wgPatentURI"].s)))
      && ("wgPatentURI" !in conf || conf["wgPatentURI"].Arr? ==>
            Get(out, "wgId") == (if Truthy(Get(conf, "wgId")) then Get(conf, "wgId") else Str("")))
  {
    if Run(conf, env).Completed? {
      UpdateWgId(conf, FlagsOf(conf), env.resolve);
    }
  }

  lemma UpdateWgId(conf: Object, f: Status.Flags, resolve: Resolver)
    ensures var out := Update(conf, f, resolve);
      && ("wgPatentURI" in conf && conf["wgPatentURI"].Str? ==>
            Get(out, "wgId") == Str(WgId(conf["wgPatentURI"].s)))
      && ("wgPatentURI" !in conf || conf["wgPatentURI"].Arr? ==>
            Get(out, "wgId") == (if Truthy(Get(conf, "wgId")) then Get(conf, "wgId") else Str("")))
  {
  }

  /** A run aborts exactly at the header normaliser's TypeErrors: a person list or
      the alternate formats that cannot be walked, a two-link bug tracker
      without `l10n`, or a `wg` array without `wgURI` or `wgPatentURI`. */
  lemma RunAborts(conf: Object, env: Env)
    ensures Run(conf, env).Aborted? <==>
      PeopleThrow(conf) || ListThrows(Get(conf, "alternateFormats")) || BugTrackerThrows(conf)
      || WgThrows(conf)
  {
  }

  /** Every phase publishes messages of its own stage only; the bug
      tracker publishes nothing. */
  predicate Staged(p: Phases) {
    && (forall d :: d in p.opening.log ==> Stage(d.message) == 0)
    && (forall d :: d in p.people.log ==> Stage(d.message) == 1)
    && (forall d :: d in p.formats.log ==> Stage(d.message) == 2)
    && p.bugTracker.log == []
    && (forall d :: d in p.groups.log ==> Stage(d.message) == 3)
    && (forall d :: d in p.endDates.log ==> Stage(d.message) == 4)
    && (forall d :: d in p.track.log ==> Stage(d.message) == 5)
  }

  lemma PhasesStaged(conf: Object, f: Status.Flags, env: Env)
    ensures Staged(PhasesOf(conf, f, env))
  {
    OpeningStaged(conf, f, env);
    PeopleStaged(conf, f, env);
    FormatsStaged(conf, f, env);
    LatePhasesStaged(conf, f, env);
  }

  lemma OpeningStaged(conf: Object, f: Status.Flags, env: Env)
    ensures forall d :: d in PhasesOf(conf, f, env).opening.log ==> Stage(d.message) == 0
  {
  }

  lemma PeopleStaged(conf: Object, f: Status.Flags, env: Env)
    ensures forall d :: d in PhasesOf(conf, f, env).people.log ==> Stage(d.message) == 1
  {
  }

  lemma FormatsStaged(conf: Object, f: Status.Flags, env: Env)
    ensures var p := PhasesOf(conf, f, env);
      && (forall d :: d in p.formats.log ==> Stage(d.message) == 2)
      && p.bugTracker.log == []
  {
  }

  lemma LatePhasesStaged(conf: Object, f: Status.Flags, env: Env)
    ensures var p := PhasesOf(conf, f, env);
      && (forall d :: d in p.groups.log ==> Stage(d.message) == 3)
      && (forall d :: d in p.endDates.log ==> Stage(d.message) == 4)
      && (forall d :: d in p.track.log ==> Stage(d.message) == 5)
  {
  }

  lemma PhasesThrow(conf: Object, f: Status.Flags, env: Env)
    ensures var p := PhasesOf(conf, f, env);
      && !p.opening.threw && !p.endDates.threw && !p.track.threw
      && (p.people.threw <==> PeopleThrow(conf))
      && (p.formats.threw <==> ListThrows(Get(conf, "alternateFormats")))
      && (p.bugTracker.threw <==> BugTrackerThrows(conf))
      && (p.groups.threw <==> WgThrows(conf))
  {
  }

  /** A message of a stage is in the sequence exactly when its phase
      publishes it and no earlier phase threw. */
  lemma SequenceIn(p: Phases, d: Diagnostic)
    requires Staged(p)
    ensures var log := Sequence(p).log;
      && (Stage(d.message) == 0 ==> (d in log <==> d in p.opening.log))
      && (Stage(d.message) == 1 ==> (d in log <==> !p.opening.threw && d in p.people.log))
      && (Stage(d.message) == 2 ==> (d in log <==>
            !p.opening.threw && !p.people.threw && d in p.formats.log))
      && (Stage(d.message) == 3 ==> (d in log <==>
            !p.opening.threw && !p.people.threw && !p.formats.threw && !p.bugTracker.threw
            && d in p.groups.log))
      && (Stage(d.message) == 4 ==> (d in log <==>
            !p.opening.threw && !p.people.threw && !p.formats.threw && !p.bugTracker.threw
            && !p.groups.threw && d in p.endDates.log))
      && (Stage(d.message) == 5 ==> (d in log <==>
            !p.opening.threw && !p.people.threw && !p.formats.threw && !p.bugTracker.threw
            && !p.groups.threw && !p.endDates.threw && d in p.track.log))
  {
  }

  /** A message is published exactly when the check group of its stage
      publishes it and the run gets that far. */
  lemma InPublished(conf: Object, env: Env, d: Diagnostic)
    ensures var f, log := FlagsOf(conf), Published(conf, env).log;
      && (Stage(d.message) == 0 ==> (d in log <==> d in OpeningChecks(conf, f, env.validDate)))
      && (Stage(d.message) == 1 ==> (d in log <==> d in PeopleChecks(conf, env.resolve).log))
      && (Stage(d.message) == 2 ==> (d in log <==>
            !PeopleThrow(conf) && d in AlternateFormatChecks(Get(conf, "alternateFormats")).log))
      && (Stage(d.message) == 3 ==> (d in log <==> ReachesGroups(conf) && d in GroupChecks(conf, f).log))
      && (Stage(d.message) == 4 ==> (d in log <==> Completes(conf) && d in EndDateChecks(conf, env.validDate)))
      && (Stage(d.message) == 5 ==> (d in log <==> Completes(conf) && d in TrackChecks(conf, f)))
  {
    EarlyInPublished(conf, env, d);
    LateInPublished(conf, env, d);
  }

  lemma EarlyInPublished(conf: Object, env: Env, d: Diagnostic)
    ensures var f, log := FlagsOf(conf), Published(conf, env).log;
      && (Stage(d.message) == 0 ==> (d in log <==> d in OpeningChecks(conf, f, env.validDate)))
      && (Stage(d.message) == 1 ==> (d in log <==> d in PeopleChecks(conf, env.resolve).log))
      && (Stage(d.message) == 2 ==> (d in log <==>
            !PeopleThrow(conf) && d in AlternateFormatChecks(Get(conf, "alternateFormats")).log))
  {
    PhasesStaged(conf, FlagsOf(conf), env);
    PhasesThrow(conf, FlagsOf(conf), env);
    SequenceIn(PhasesOf(conf, FlagsOf(conf), env), d);
  }

  lemma LateInPublished(conf: Object, env: Env, d: Diagnostic)
    ensures var f, log := FlagsOf(conf), Published(conf, env).log;
      && (Stage(d.message) == 3 ==> (d in log <==> ReachesGroups(conf) && d in GroupChecks(conf, f).log))
      && (Stage(d.message) == 4 ==> (d in log <==> Completes(conf) && d in EndDateChecks(conf, env.validDate)))
      && (Stage(d.message) == 5 ==> (d in log <==> Completes(conf) && d in TrackChecks(conf, f)))
  {
    PhasesStaged(conf, FlagsOf(conf), env);
    PhasesThrow(conf, FlagsOf(conf), env);
    SequenceIn(PhasesOf(conf, FlagsOf(conf), env), d);
  }

  lemma OpeningIn(conf: Object, env: Env, d: Diagnostic)
    requires Stage(d.message) == 0
    ensures d in Published(conf, env).log <==> d in OpeningChecks(conf, FlagsOf(conf), env.validDate)
  {
    InPublished(conf, env, d);
  }

  lemma GroupIn(conf: Object, env: Env, d: Diagnostic)
    requires Stage(d.message) == 3
    ensures d in Published(conf, env).log <==> ReachesGroups(conf) && d in GroupChecks(conf, FlagsOf(conf)).log
  {
    InPublished(conf, env, d);
  }

  lemma EndDateIn(conf: Object, env: Env, d: Diagnostic)
    requires Stage(d.message) == 4
    ensures d in Published(conf, env).log <==> Completes(conf) && d in EndDateChecks(conf, env.validDate)
  {
    InPublished(conf, env, d);
  }

  lemma TrackIn(conf: Object, env: Env, d: Diagnostic)
    requires Stage(d.message) == 5
    ensures d in Published(conf, env).log <==> Completes(conf) && d in TrackChecks(conf, FlagsOf(conf))
  {
    InPublished(conf, env, d);
  }

  /** A log whose messages come stage by stage. */
  predicate StageOrdered(log: Log) {
    forall i, j :: 0 <= i < j < |log| ==> Stage(log[i].message) <= Stage(log[j].message)
  }

  lemma ThenOrdered(first: Outcome, next: Outcome, s: nat)
    requires StageOrdered(first.log)
    requires forall d :: d in first.log ==> Stage(d.message) <= s
    requires forall d :: d in next.log ==> Stage(d.message) == s
    ensures StageOrdered(Then(first, next).log)
    ensures forall d :: d in Then(first, next).log ==> Stage(d.message) <= s
  {
    if !first.threw {
      var a: Log, b: Log := first.log, next.log;
      forall i: int, j: int | 0 <= i < j < |a + b|
        ensures Stage((a + b)[i].message) <= Stage((a + b)[j].message)
      {
        if j < |a| {
          assert (a + b)[i] == a[i] && (a + b)[j] == a[j];
        } else if i < |a| {
          assert (a + b)[i] == a[i] && a[i] in a;
          assert (a + b)[j] == b[j - |a|] && b[j - |a|] in b;
        } else {
          assert (a + b)[i] == b[i - |a|] && b[i - |a|] in b;
          assert (a + b)[j] == b[j - |a|] && b[j - |a|] in b;
        }
      }
    }
  }

  lemma SequenceOrdered(p: Phases)
    requires Staged(p)
    ensures StageOrdered(Sequence(p).log)
  {
    assert forall i :: 0 <= i < |p.opening.log| ==> p.opening.log[i] in p.opening.log;
    ThenOrdered(p.opening, p.people, 1);
    var o1 := Then(p.opening, p.people);
    ThenOrdered(o1, p.formats, 2);
    var o2 := Then(o1, p.formats);
    ThenOrdered(o2, p.bugTracker, 2);
    var o3 := Then(o2, p.bugTracker);
    ThenOrdered(o3, p.groups, 3);
    var o4 := Then(o3, p.groups);
    ThenOrdered(o4, p.endDates, 4);
    var o5 := Then(o4, p.endDates);
    ThenOrdered(o5, p.track, 5);
  }

  /** The plugin publishes stage by stage, in source order: the opening
      checks, the people, the alternate formats, the working groups, the
      end dates, the track checks. */
  lemma PublishedInStageOrder(conf: Object, env: Env)
    ensures StageOrdered(Run(conf, env).log)
  {
    PhasesStaged(conf, FlagsOf(conf), env);
    SequenceOrdered(PhasesOf(conf, FlagsOf(conf), env));
  }

  // One lemma per diagnostic: published exactly when its check group
  // publishes it and the run gets that far.

  lemma PublishesMissingSpecStatus(conf: Object, env: Env)
    ensures Diagnostic(Error, MissingSpecStatus) in Published(conf, env).log <==>
      !Truthy(Get(conf, "specStatus"))
  {
    OpeningIn(conf, env, Diagnostic(Error, MissingSpecStatus));
  }

  lemma PublishesMissingShortName(conf: Object, env: Env)
    ensures Diagnostic(Error, MissingShortName) in Published(conf, env).log <==>
      FlagsOf(conf).isRegular && !Truthy(Get(conf, "shortName"))
  {
    OpeningIn(conf, env, Diagnostic(Error, MissingShortName));
  }

  lemma PublishesNoEditor(conf: Object, env: Env)
    ensures Diagnostic(Error, NoEditor) in Published(conf, env).log <==>
      NoEditors(Get(conf, "editors"))
  {
    OpeningIn(conf, env, Diagnostic(Error, NoEditor));
  }

  lemma PublishesEdDraftWithoutUri(conf: Object, env: Env)
    ensures Diagnostic(Warn, EdDraftWithoutUri) in Published(conf, env).log <==>
      Get(conf, "specStatus") == Str("ED") && !Truthy(Get(conf, "edDraftURI"))
  {
    OpeningIn(conf, env, Diagnostic(Warn, EdDraftWithoutUri));
  }

  lemma PublishesPrWithoutCrEnd(conf: Object, env: Env)
    ensures Diagnostic(Error, PrWithoutCrEnd) in Published(conf, env).log <==>
      Completes(conf) && Get(conf, "specStatus") == Str("PR") && !Truthy(Get(conf, "crEnd"))
  {
    EndDateIn(conf, env, Diagnostic(Error, PrWithoutCrEnd));
  }

  lemma PublishesCrWithoutCrEnd(conf: Object, env: Env)
    ensures Diagnostic(Error, CrWithoutCrEnd) in Published(conf, env).log <==>
      Completes(conf) && Get(conf, "specStatus") == Str("CR") && !Truthy(Get(conf, "crEnd"))
  {
    EndDateIn(conf, env, Diagnostic(Error, CrWithoutCrEnd));
  }

  lemma PublishesPrWithoutPrEnd(conf: Object, env: Env)
    ensures Diagnostic(Error, PrWithoutPrEnd) in Published(conf, env).log <==>
      Completes(conf) && Get(conf, "specStatus") == Str("PR") && !Truthy(Get(conf, "prEnd"))
  {
    EndDateIn(conf, env, Diagnostic(Error, PrWithoutPrEnd));
  }

  lemma PublishesPerWithoutPerEnd(conf: Object, env: Env)
    ensures Diagnostic(Error, PerWithoutPerEnd) in Published(conf, env).log <==>
      Completes(conf) && Get(conf, "specStatus") == Str("PER") && !Truthy(Get(conf, "perEnd"))
  {
    EndDateIn(conf, env, Diagnostic(Error, PerWithoutPerEnd));
  }

  lemma PublishesWgArrayMismatch(conf: Object, env: Env)
    ensures Diagnostic(Error, WgArrayMismatch) in Published(conf, env).log <==>
      ReachesGroups(conf) && WgArraysMixed(Get(conf, "wg"), Get(conf, "wgURI"), Get(conf, "wgPatentURI"))
  {
    GroupIn(conf, env, Diagnostic(Error, WgArrayMismatch));
  }

  lemma PublishesWgRequired(conf: Object, env: Env)
    ensures Diagnostic(Error, WgRequired) in Published(conf, env).log <==>
      ReachesGroups(conf) && FlagsOf(conf).isCGBG && !Truthy(Get(conf, "wg"))
  {
    GroupIn(conf, env, Diagnostic(Error, WgRequired));
  }

  lemma PublishesIgNoteWithoutDisclosure(conf: Object, env: Env)
    ensures Diagnostic(Error, IgNoteWithoutDisclosure) in Published(conf, env).log <==>
      Completes(conf) && FlagsOf(conf).isIGNote && !Truthy(Get(conf, "charterDisclosureURI"))
  {
    TrackIn(conf, env, Diagnostic(Error, IgNoteWithoutDisclosure));
  }

  lemma PublishesCrWithoutImplementationReport(conf: Object, env: Env)
    ensures Diagnostic(Error, CrWithoutImplementationReport) in Published(conf, env).log <==>
      Completes(conf) && FlagsOf(conf).isCR && !Truthy(Get(conf, "implementationReportURI"))
  {
    TrackIn(conf, env, Diagnostic(Error, CrWithoutImplementationReport));
  }

  lemma PublishesPrWithoutImplementationReport(conf: Object, env: Env)
    ensures Diagnostic(Warn, PrWithoutImplementationReport) in Published(conf, env).log <==>
      Completes(conf) && FlagsOf(conf).isPR && !Truthy(Get(conf, "implementationReportURI"))
  {
    TrackIn(conf, env, Diagnostic(Warn, PrWithoutImplementationReport));
  }

  lemma PublishesNoRecTrackConflict(conf: Object, env: Env)
    ensures var status := Get(conf, "specStatus");
      Diagnostic(Error, NoRecTrackConflict(ToString(status))) in Published(conf, env).log <==>
        Completes(conf) && Truthy(Get(conf, "noRecTrack")) && IsOneOf(status, Status.RecTrackStatus)
  {
    TrackIn(conf, env, Diagnostic(Error, NoRecTrackConflict(ToString(Get(conf, "specStatus")))));
  }

  /** The required-configuration errors: a missing `specStatus` always,
      a missing `shortName` for every document that is neither a group
      document nor a "base" document. Both come before anything can
      throw. */
  lemma RunRequiredFields(conf: Object, env: Env)
    ensures var log := Run(conf, env).log;
      var status := Get(conf, "specStatus");
      && (Diagnostic(Error, MissingSpecStatus) in log <==> !Truthy(status))
      && (Diagnostic(Error, MissingShortName) in log <==>
            status != Str("base") && !IsOneOf(status, Status.CgBg) && !Truthy(Get(conf, "shortName")))
  {
    Status.GroupFlags(Get(conf, "specStatus"), Get(conf, "noRecTrack"), Get(conf, "recNotExpected"));
    PublishesMissingSpecStatus(conf, env);
    PublishesMissingShortName(conf, env);
  }

  /** The editor diagnostics: an error when there is no editor, and a
      warning for an Editor's Draft without `edDraftURI`. */
  lemma RunEditorChecks(conf: Object, env: Env)
    ensures var log := Run(conf, env).log;
      && (Diagnostic(Error, NoEditor) in log <==> NoEditors(Get(conf, "editors")))
      && (Diagnostic(Warn, EdDraftWithoutUri) in log <==>
            Get(conf, "specStatus") == Str("ED") && !Truthy(Get(conf, "edDraftURI")))
  {
    PublishesNoEditor(conf, env);
    PublishesEdDraftWithoutUri(conf, env);
  }

  /** The end dates, checked only by a run that gets past every throw: a
      CR or PR document needs `crEnd`, a PR document `prEnd` and a PER
      document `perEnd`. */
  lemma RunEndDates(conf: Object, env: Env)
    ensures var log := Run(conf, env).log;
      var status := Get(conf, "specStatus");
      && (Diagnostic(Error, PrWithoutCrEnd) in log <==>
            Completes(conf) && status == Str("PR") && !Truthy(Get(conf, "crEnd")))
      && (Diagnostic(Error, CrWithoutCrEnd) in log <==>
            Completes(conf) && status == Str("CR") && !Truthy(Get(conf, "crEnd")))
      && (Diagnostic(Error, PrWithoutPrEnd) in log <==>
            Completes(conf) && status == Str("PR") && !Truthy(Get(conf, "prEnd")))
      && (Diagnostic(Error, PerWithoutPerEnd) in log <==>
            Completes(conf) && status == Str("PER") && !Truthy(Get(conf, "perEnd")))
  {
    RunCrEnd(conf, env);
    RunPrAndPerEnd(conf, env);
  }

  lemma RunCrEnd(conf: Object, env: Env)
    ensures var log := Run(conf, env).log;
      var status := Get(conf, "specStatus");
      && (Diagnostic(Error, PrWithoutCrEnd) in log <==>
            Completes(conf) && status == Str("PR") && !Truthy(Get(conf, "crEnd")))
      && (Diagnostic(Error, CrWithoutCrEnd) in log <==>
            Completes(conf) && status == Str("CR") && !Truthy(Get(conf, "crEnd")))
  {
    PublishesPrWithoutCrEnd(conf, env);
    PublishesCrWithoutCrEnd(conf, env);
  }

  lemma RunPrAndPerEnd(conf: Object, env: Env)
    ensures var log := Run(conf, env).log;
      var status := Get(conf, "specStatus");
      && (Diagnostic(Error, PrWithoutPrEnd) in log <==>
            Completes(conf) && status == Str("PR") && !Truthy(Get(conf, "prEnd")))
      && (Diagnostic(Error, PerWithoutPerEnd) in log <==>
            Completes(conf) && status == Str("PER") && !Truthy(Get(conf, "perEnd")))
  {
    PublishesPrWithoutPrEnd(conf, env);
    PublishesPerWithoutPerEnd(conf, env);
  }

  /** The working-group diagnostics, published when the run gets to them:
      the array-consistency error exactly when some but not all of the
      three group values are arrays, and the missing-group error exactly
      for a group document without `wg`. */
  lemma RunWorkingGroups(conf: Object, env: Env)
    ensures var log := Run(conf, env).log;
      && (Diagnostic(Error, WgArrayMismatch) in log <==>
            ReachesGroups(conf) && WgArraysMixed(Get(conf, "wg"), Get(conf, "wgURI"), Get(conf, "wgPatentURI")))
      && (Diagnostic(Error, WgRequired) in log <==>
            ReachesGroups(conf) && IsOneOf(Get(conf, "specStatus"), Status.CgBg) && !Truthy(Get(conf, "wg")))
  {
    Status.GroupFlags(Get(conf, "specStatus"), Get(conf, "noRecTrack"), Get(conf, "recNotExpected"));
    PublishesWgArrayMismatch(conf, env);
    PublishesWgRequired(conf, env);
  }

  /** The track diagnostics, checked only by a run that gets past every
      throw: the `noRecTrack` conflict exactly when a Rec-track status is
      marked off the track; the note error exactly for an IG note without
      its disclosure link; the implementation-report error for a CR
      document and warning for a PR document without one. */
  lemma RunTrackChecks(conf: Object, env: Env)
    ensures var log := Run(conf, env).log;
      var status := Get(conf, "specStatus");
      var report := Truthy(Get(conf, "implementationReportURI"));
      && (Diagnostic(Error, NoRecTrackConflict(ToString(status))) in log <==>
            Completes(conf) && Truthy(Get(conf, "noRecTrack")) && IsOneOf(status, Status.RecTrackStatus))
      && (Diagnostic(Error, IgNoteWithoutDisclosure) in log <==>
            Completes(conf) && status == Str("IG-NOTE") && !Truthy(Get(conf, "charterDisclosureURI")))
      && (Diagnostic(Error, CrWithoutImplementationReport) in log <==>
            Completes(conf) && status == Str("CR") && !report)
      && (Diagnostic(Warn, PrWithoutImplementationReport) in log <==>
            Completes(conf) && status == Str("PR") && !report)
  {
    PublishesNoRecTrackConflict(conf, env);
    PublishesIgNoteWithoutDisclosure(conf, env);
    PublishesCrWithoutImplementationReport(conf, env);
    PublishesPrWithoutImplementationReport(conf, env);
  }

  /** The number of refused people in one of the person options, up to
      a null or undefined person. */
  function ListRejected(v: Value, resolve: Resolver): nat {
    if v.Arr? then RejectedCount(v.items, resolve) else 0
  }

  /** The refused people over the three lists, in checking order, until a
      list throws. */
  function PeopleRejected(conf: Object, resolve: Resolver): nat {
    var editors, formerEditors, authors := Get(conf, "editors"), Get(conf, "formerEditors"), Get(conf, "authors");
    ListRejected(editors, resolve)
    + (if ListThrows(editors) then 0
       else ListRejected(formerEditors, resolve)
            + (if ListThrows(formerEditors) then 0 else ListRejected(authors, resolve)))
  }

  lemma NoOrcidErrors(log: Log)
    requires forall d :: d in log ==> !IsOrcidError(d)
    ensures OrcidErrors(log) == 0
  {
    if |log| > 0 {
      assert log[0] in log;
      assert forall d :: d in log[1..] ==> d in log;
      NoOrcidErrors(log[1..]);
    }
  }

  lemma ThenOrcidErrors(first: Outcome, next: Outcome)
    ensures OrcidErrors(Then(first, next).log) ==
      OrcidErrors(first.log) + (if first.threw then 0 else OrcidErrors(next.log))
  {
    if !first.threw {
      OrcidErrorsAppend(first.log, next.log);
    }
  }

  /** Only the people publish ORCID errors. */
  lemma SequenceOrcidErrors(p: Phases)
    requires Staged(p)
    ensures OrcidErrors(Sequence(p).log) ==
      OrcidErrors(p.opening.log) + (if p.opening.threw then 0 else OrcidErrors(p.people.log))
  {
    NoOrcidErrors(p.formats.log);
    NoOrcidErrors(p.groups.log);
    NoOrcidErrors(p.endDates.log);
    NoOrcidErrors(p.track.log);
    var o1 := Then(p.opening, p.people);
    var o2 := Then(o1, p.formats);
    var o3 := Then(o2, p.bugTracker);
    var o4 := Then(o3, p.groups);
    var o5 := Then(o4, p.endDates);
    ThenOrcidErrors(p.opening, p.people);
    ThenOrcidErrors(o1, p.formats);
    ThenOrcidErrors(o2, p.bugTracker);
    ThenOrcidErrors(o3, p.groups);
    ThenOrcidErrors(o4, p.endDates);
    ThenOrcidErrors(o5, p.track);
  }

  /** The ORCID errors of the three person lists, in checking order. */
  lemma PeopleOrcidErrors(conf: Object, resolve: Resolver)
    ensures OrcidErrors(PeopleChecks(conf, resolve).log) == PeopleRejected(conf, resolve)
  {
    var editors := CheckList(Get(conf, "editors"), resolve);
    var formerEditors := CheckList(Get(conf, "formerEditors"), resolve);
    var authors := CheckList(Get(conf, "authors"), resolve);
    ThenOrcidErrors(ListOutcome(editors), ListOutcome(formerEditors));
    ThenOrcidErrors(Then(ListOutcome(editors), ListOutcome(formerEditors)), ListOutcome(authors));
  }

  /** One ORCID error is published per refused person, over the editors,
      former editors and authors that are checked, and no other check
      publishes one. */
  lemma RunOrcidErrors(conf: Object, env: Env)
    ensures OrcidErrors(Run(conf, env).log) == PeopleRejected(conf, env.resolve)
  {
    PublishedOrcidErrors(conf, env);
    PeopleOrcidErrors(conf, env.resolve);
  }

  lemma PublishedOrcidErrors(conf: Object, env: Env)
    ensures OrcidErrors(Published(conf, env).log) == OrcidErrors(PeopleChecks(conf, env.resolve).log)
  {
    PhasesStaged(conf, FlagsOf(conf), env);
    PhasesPeople(conf, FlagsOf(conf), env);
    PhasesOrcidErrors(PhasesOf(conf, FlagsOf(conf), env));
  }

  lemma PhasesPeople(conf: Object, f: Status.Flags, env: Env)
    ensures var p := PhasesOf(conf, f, env);
      !p.opening.threw && p.people == PeopleChecks(conf, env.resolve)
  {
  }

  lemma PhasesOrcidErrors(p: Phases)
    requires Staged(p) && !p.opening.threw
    ensures OrcidErrors(Sequence(p).log) == OrcidErrors(p.people.log)
  {
    SequenceOrcidErrors(p);
    NoOrcidErrors(p.opening.log);
  }
}
