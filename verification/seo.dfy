/**
 The SEO plugin: it settles the document's canonical URI, announces it
 with a `<link rel=canonical>` element, and optionally describes the
 document as JSON-LD.

 The host gives the URL parser, the document's own location, its
 language and meta description, the bibliography and the cited keys;
 the elements the plugin appends are returned as values.
 */
module Seo {
  import opened Js
  import opened Wrappers
  import opened Urls
  import opened Diagnostics

  // ---------------------------------------------------------------------
  // Canonical URI

  /** Where the latest published version of every document lives. */
  const TrLatestBase: string := "https://ofn.gov.cz/"

  /** `conf.shortName ? "https://ofn.gov.cz/" + shortName + "/" : null`. */
  function TrLatestUri(shortName: Value): Value {
    if Truthy(shortName) then Str(TrLatestBase + ToString(shortName) + "/") else Null
  }

  datatype Step = Step(conf: Object, log: Log)

  /** The canonical-URI switch. `canonicalURI` set to "edDraft" points at
      the editor's draft, "TR" at the latest published version, and any
      other truthy value is resolved as a URL against the document's
      location; an unset value falls back to the latest published
      version. Resolving the editor's draft is not guarded, so a failure
      there aborts the plugin (`Failure`). */
  function ResolveCanonical(conf: Object, resolve: Resolver, location: string): (r: Result<Step, string>)
    ensures r.Success? ==> forall k :: k != "canonicalURI" ==>
      (k in r.value.conf <==> k in conf) && (k in conf ==> r.value.conf[k] == conf[k])
    ensures var c, shortName, edDraft := Get(conf, "canonicalURI"), Get(conf, "shortName"), Get(conf, "edDraftURI");
      && (r.Failure? <==>
            c == Str("edDraft") && Truthy(edDraft) && resolve(ToString(edDraft), location).Failure?)
      && (c == Str("edDraft") && !Truthy(edDraft) ==>
            r == Success(Step(conf["canonicalURI" := Null], [Diagnostic(Warn, EdDraftCanonicalWithoutUri)])))
      && (c == Str("edDraft") && Truthy(edDraft) && r.Success? ==>
            r.value == Step(conf["canonicalURI" := Str(resolve(ToString(edDraft), location).value.href)], []))
      && (c == Str("TR") && Truthy(shortName) ==>
            r == Success(Step(conf["canonicalURI" := Str(TrLatestBase + ToString(shortName) + "/")], [])))
      && (c == Str("TR") && !Truthy(shortName) ==>
            r == Success(Step(conf["canonicalURI" := Null], [Diagnostic(Warn, TrCanonicalWithoutShortName)])))
  {
    var c := Get(conf, "canonicalURI");
    var trLatest := TrLatestUri(Get(conf, "shortName"));
    if c == Str("edDraft") then
      var edDraft := Get(conf, "edDraftURI");
      if Truthy(edDraft) then
        match resolve(ToString(edDraft), location)
        case Success(url) => Success(Step(conf["canonicalURI" := Str(url.href)], []))
        case Failure(e) => Failure(e)
      else
        Success(Step(conf["canonicalURI" := Null], [Diagnostic(Warn, EdDraftCanonicalWithoutUri)]))
    else if c == Str("TR") then
      if Truthy(trLatest) then Success(Step(conf["canonicalURI" := trLatest], []))
      else Success(Step(conf["canonicalURI" := Null], [Diagnostic(Warn, TrCanonicalWithoutShortName)]))
    else if Truthy(c) then
      match resolve(ToString(c), location)
      case Success(url) => Success(Step(conf["canonicalURI" := Str(url.href)], []))
      case Failure(e) =>
        Success(Step(conf["canonicalURI" := Null], [Diagnostic(Warn, InvalidCanonical(e))]))
    else if Truthy(trLatest) then Success(Step(conf["canonicalURI" := trLatest], []))
    else Success(Step(conf, []))
  }

  /** Any other value: a truthy one is resolved against the location, and
      an invalid one is dropped to null with a warning; an unset one
      becomes the latest published version when there is a short name,
      and is left alone, silently, when there is none. */
  lemma DefaultCanonical(conf: Object, resolve: Resolver, location: string)
    requires Get(conf, "canonicalURI") != Str("edDraft") && Get(conf, "canonicalURI") != Str("TR")
    ensures var r := ResolveCanonical(conf, resolve, location);
      var c, shortName := Get(conf, "canonicalURI"), Get(conf, "shortName");
      var url := resolve(ToString(c), location);
      && r.Success?
      && (Truthy(c) && url.Success? ==>
            r.value == Step(conf["canonicalURI" := Str(url.value.href)], []))
      && (Truthy(c) && url.Failure? ==>
            r.value == Step(conf["canonicalURI" := Null], [Diagnostic(Warn, InvalidCanonical(url.error))]))
      && (!Truthy(c) && Truthy(shortName) ==>
            r.value == Step(conf["canonicalURI" := Str(TrLatestBase + ToString(shortName) + "/")], []))
      && (!Truthy(c) && !Truthy(shortName) ==> r.value == Step(conf, []))
  {
  }

  /** A warning is published exactly when a canonical URI was asked for
      but could not be settled, and then the URI becomes null; at most
      one warning is ever published. */
  lemma CanonicalWarning(conf: Object, resolve: Resolver, location: string)
    requires ResolveCanonical(conf, resolve, location).Success?
    ensures var s := ResolveCanonical(conf, resolve, location).value;
      && |s.log| <= 1
      && (s.log != [] <==> Truthy(Get(conf, "canonicalURI")) && Get(s.conf, "canonicalURI") == Null)
  {
  }

  /** `<link rel=canonical href=…>` is added exactly for a truthy
      canonical URI, with the URI's string form as its target. */
  function CanonicalLink(uri: Value): (link: Option<string>)
    ensures link.Some? <==> Truthy(uri)
    ensures link.Some? ==> link.value == ToString(uri)
  {
    if Truthy(uri) then Some(ToString(uri)) else None
  }

  // ---------------------------------------------------------------------
  // JSON-LD pieces

  /** `addPerson`: a schema.org person from an editor or author; the
      destructuring throws (`None`) on null and undefined. */
  function AddPerson(p: Value): (r: Option<Object>)
    ensures r.Some? <==> !Nullish(p)
    ensures r.Some? ==>
      && Get(r.value, "type") == Str("Person")
      && Get(r.value, "name") == Prop(p, "name")
      && Get(r.value, "url") == Prop(p, "url")
      && Get(r.value, "foaf:mbox") == Prop(p, "mailto")
      && ("worksFor" in r.value <==> Truthy(Prop(p, "company")) || Truthy(Prop(p, "companyURL")))
  {
    if Nullish(p) then None
    else
      var company, companyUrl := Prop(p, "company"), Prop(p, "companyURL");
      var ed := map[
        "type" := Str("Person"), "name" := Prop(p, "name"),
        "url" := Prop(p, "url"), "foaf:mbox" := Prop(p, "mailto")];
      if Truthy(company) || Truthy(companyUrl) then
        Some(ed["worksFor" := Obj(map["name" := company, "url" := companyUrl])])
      else Some(ed)
  }

  /** The contact details a person record carries into JSON-LD. */
  datatype Contact = Contact(name: Value, url: Value, mailto: Value, company: Value, companyUrl: Value)

  function ContactOf(p: Value): Contact {
    Contact(Prop(p, "name"), Prop(p, "url"), Prop(p, "mailto"), Prop(p, "company"), Prop(p, "companyURL"))
  }

  /** The contact details read back from a schema.org person. */
  function ContactFromLd(ed: Object): Contact {
    var worksFor := Get(ed, "worksFor");
    Contact(Get(ed, "name"), Get(ed, "url"), Get(ed, "foaf:mbox"),
            Prop(worksFor, "name"), Prop(worksFor, "url"))
  }

  /** `addPerson` loses nothing: the details read back from its result are
      the person's own, except that a company and company URL that are
      both falsy are not carried over at all. */
  lemma AddPersonRoundTrip(p: Value)
    requires !Nullish(p)
    ensures var back, c := ContactFromLd(AddPerson(p).value), ContactOf(p);
      && back.name == c.name && back.url == c.url && back.mailto == c.mailto
      && (Truthy(c.company) || Truthy(c.companyUrl) ==> back == c)
      && (!Truthy(c.company) && !Truthy(c.companyUrl) ==>
            back.company == Undefined && back.companyUrl == Undefined)
  {
    var ed := AddPerson(p).value;
    var c := ContactOf(p);
    if Truthy(c.company) || Truthy(c.companyUrl) {
      assert Get(ed, "worksFor") == Obj(map["name" := c.company, "url" := c.companyUrl]);
    } else {
      assert "worksFor" !in ed;
    }
  }

  /** `people.map(addPerson)`: `None` when some entry throws. */
  function AddPeople(people: seq<Value>): (r: Option<seq<Object>>)
    ensures r.Some? <==> forall i :: 0 <= i < |people| ==> !Nullish(people[i])
    ensures r.Some? ==>
      && |r.value| == |people|
      && forall i :: 0 <= i < |people| ==> r.value[i] == AddPerson(people[i]).value
  {
    if |people| == 0 then Some([])
    else
      match AddPerson(people[0])
      case None => None
      case Some(head) =>
        match AddPeople(people[1..])
        case None => None
        case Some(tail) => Some([head] + tail)
  }

  /** `if (v) jsonld.field = v.map(addPerson)`: `Some(None)` leaves the
      field out, `None` is a throw (an entry that is null or undefined, or
      a truthy value that is not an array). */
  function PeopleField(v: Value): Option<Option<seq<Object>>> {
    if !Truthy(v) then Some(None)
    else if !v.Arr? then None
    else
      match AddPeople(v.items)
      case None => None
      case Some(people) => Some(Some(people))
  }

  /** `addRef`: a schema.org article for a bibliography entry, identified
      and located by the entry's `href`; the destructuring throws on null
      and undefined. */
  function AddRef(entry: Value): (r: Option<Object>)
    ensures r.Some? <==> !Nullish(entry)
    ensures r.Some? ==>
      && Get(r.value, "id") == Prop(entry, "href")
      && Get(r.value, "url") == Prop(entry, "href")
      && Get(r.value, "name") == Prop(entry, "title")
      && Get(r.value, "type") == Str("TechArticle")
      && r.value.Keys == {"id", "type", "name", "url"}
  {
    if Nullish(entry) then None
    else
      var href := Prop(entry, "href");
      Some(map["id" := href, "type" := Str("TechArticle"), "name" := Prop(entry, "title"), "url" := href])
  }

  /** `typeof v === "object"`: true for objects, arrays, and null. */
  predicate TypeofObject(v: Value) {
    v.Obj? || v.Arr? || v.Null?
  }

  /** An entry that is an object in the ordinary sense: not null. */
  predicate IsObject(v: Value) {
    v.Obj? || v.Arr?
  }

  /** `keys.map(ref => biblio[ref])`. */
  function Entries(keys: seq<string>, biblio: map<string, Value>): (r: seq<Value>)
    ensures |r| == |keys|
    ensures forall i :: 0 <= i < |keys| ==> r[i] == Get(biblio, keys[i])
  {
    if |keys| == 0 then [] else [Get(biblio, keys[0])] + Entries(keys[1..], biblio)
  }

  /** The citations as written: the entries of the normative and then the
      informative keys, filtered by `typeof ref === "object"`, each passed
      to `addRef`. A null entry passes the filter and makes `addRef`
      throw, so the whole JSON-LD script is lost (`None`). */
  function CitationsAsWritten(normative: seq<string>, informative: seq<string>, biblio: map<string, Value>)
    : Option<seq<Object>>
  {
    AddRefs(KeepTypeofObject(Entries(normative + informative, biblio)))
  }

  function KeepTypeofObject(entries: seq<Value>): (r: seq<Value>)
    ensures forall i :: 0 <= i < |r| ==> TypeofObject(r[i])
    ensures forall v :: v in entries && TypeofObject(v) ==> v in r
  {
    if |entries| == 0 then []
    else (if TypeofObject(entries[0]) then [entries[0]] else []) + KeepTypeofObject(entries[1..])
  }

  /** `entries.map(addRef)`: `None` when some entry throws. */
  function AddRefs(entries: seq<Value>): (r: Option<seq<Object>>)
    ensures r.Some? <==> forall i :: 0 <= i < |entries| ==> !Nullish(entries[i])
    ensures r.Some? ==> |r.value| == |entries|
  {
    if |entries| == 0 then Some([])
    else
      match AddRef(entries[0])
      case None => None
      case Some(head) =>
        match AddRefs(entries[1..])
        case None => None
        case Some(tail) => Some([head] + tail)
  }

  /** A bibliography that maps a cited key to null: the citations as
      written throw instead of leaving the entry out. */
  lemma NullEntryLosesCitations()
    ensures CitationsAsWritten(["HTML"], [], map["HTML" := Null]) == None
  {
    var entries := Entries(["HTML"], map["HTML" := Null]);
    assert entries == [Null];
    assert KeepTypeofObject(entries) == [Null];
  }

  /** In general: as soon as one cited key maps to null, the citations as
      written are lost. */
  lemma NullEntryAlwaysLoses(normative: seq<string>, informative: seq<string>, biblio: map<string, Value>, k: string)
    requires k in normative + informative && Get(biblio, k) == Null
    ensures CitationsAsWritten(normative, informative, biblio) == None
  {
    var keys := normative + informative;
    var i :| 0 <= i < |keys| && keys[i] == k;
    var entries := Entries(keys, biblio);
    assert entries[i] == Null;
    var kept := KeepTypeofObject(entries);
    assert Null in kept;
    var j :| 0 <= j < |kept| && kept[j] == Null;
  }

  /** The cited keys whose bibliography entry is an object, in citation
      order. */
  function Resolving(keys: seq<string>, biblio: map<string, Value>): (r: seq<string>)
    ensures |r| <= |keys|
    ensures forall k :: k in r <==> k in keys && IsObject(Get(biblio, k))
  {
    if |keys| == 0 then []
    else (if IsObject(Get(biblio, keys[0])) then [keys[0]] else []) + Resolving(keys[1..], biblio)
  }

  /** The citations: one article per cited key whose entry is an object,
      normative keys first, in order. Null entries are left out like
      every other entry that is not an object. */
  function Citations(normative: seq<string>, informative: seq<string>, biblio: map<string, Value>)
    : (r: seq<Object>)
    ensures var kept := Resolving(normative + informative, biblio);
      && |r| == |kept|
      && forall i :: 0 <= i < |kept| ==>
           var entry := Get(biblio, kept[i]);
           Get(r[i], "id") == Prop(entry, "href") && Get(r[i], "name") == Prop(entry, "title")
  {
    RefsOf(Resolving(normative + informative, biblio), biblio)
  }

  function RefsOf(keys: seq<string>, biblio: map<string, Value>): (r: seq<Object>)
    requires forall i :: 0 <= i < |keys| ==> IsObject(Get(biblio, keys[i]))
    ensures |r| == |keys|
    ensures forall i :: 0 <= i < |keys| ==> Some(r[i]) == AddRef(Get(biblio, keys[i]))
  {
    if |keys| == 0 then []
    else
      assert IsObject(Get(biblio, keys[0]));
      [AddRef(Get(biblio, keys[0])).value] + RefsOf(keys[1..], biblio)
  }

  /** Without null entries among the cited keys the citations as written
      are exactly the citations. */
  lemma {:induction false} CitationsAgree(keys: seq<string>, biblio: map<string, Value>)
    requires forall k :: k in keys ==> Get(biblio, k) != Null
    ensures AddRefs(KeepTypeofObject(Entries(keys, biblio))) == Some(RefsOf(Resolving(keys, biblio), biblio))
  {
    if |keys| > 0 {
      var e := Get(biblio, keys[0]);
      var es := Entries(keys, biblio);
      assert es[1..] == Entries(keys[1..], biblio);
      CitationsAgree(keys[1..], biblio);
      var rest := KeepTypeofObject(es[1..]);
      var refsRest := RefsOf(Resolving(keys[1..], biblio), biblio);
      assert AddRefs(rest) == Some(refsRest);
      if IsObject(e) {
        ResolvingStep(keys, biblio);
        KeepStep(es, rest);
        assert AddRefs(KeepTypeofObject(es)) == Some([AddRef(e).value] + refsRest);
      } else {
        assert keys[0] in keys;
        assert !TypeofObject(es[0]);
        assert KeepTypeofObject(es) == rest;
        assert Resolving(keys, biblio) == Resolving(keys[1..], biblio);
      }
    }
  }

  lemma ResolvingStep(keys: seq<string>, biblio: map<string, Value>)
    requires |keys| > 0 && IsObject(Get(biblio, keys[0]))
    ensures RefsOf(Resolving(keys, biblio), biblio)
      == [AddRef(Get(biblio, keys[0])).value] + RefsOf(Resolving(keys[1..], biblio), biblio)
  {
    var ks := Resolving(keys, biblio);
    assert ks == [keys[0]] + Resolving(keys[1..], biblio);
    assert ks[1..] == Resolving(keys[1..], biblio);
  }

  lemma KeepStep(es: seq<Value>, rest: seq<Value>)
    requires |es| > 0 && IsObject(es[0]) && rest == KeepTypeofObject(es[1..])
    ensures AddRefs(KeepTypeofObject(es)) ==
      match AddRefs(rest)
      case None => None
      case Some(t) => Some([AddRef(es[0]).value] + t)
  {
    assert KeepTypeofObject(es) == [es[0]] + rest;
    assert ([es[0]] + rest)[1..] == rest;
  }

  /** The W3C, the first copyright holder of every document. */
  const W3CHolder: Value :=
    Obj(map["name" := Str("World Wide Web Consortium"), "url" := Str("https://www.w3.org/")])

  /** `Array.isArray(v) ? v : [v]`. */
  function Holders(v: Value): seq<Value> {
    if v.Arr? then v.items else [v]
  }

  /** `holders.map(h => ({name: h}))`. */
  function NamedHolders(hs: seq<Value>): (r: seq<Value>)
    ensures |r| == |hs|
    ensures forall i :: 0 <= i < |hs| ==> r[i] == Obj(map["name" := hs[i]])
  {
    if |hs| == 0 then [] else [Obj(map["name" := hs[0]])] + NamedHolders(hs[1..])
  }

  /** The copyright holders: the W3C alone, or, with additional holders,
      the W3C followed by one named entry per holder, in order. */
  function CopyrightHolder(additional: Value): (r: Value)
    ensures !Truthy(additional) ==> r == W3CHolder
    ensures Truthy(additional) ==>
      && r.Arr? && |r.items| == |Holders(additional)| + 1 && r.items[0] == W3CHolder
      && forall i :: 0 <= i < |Holders(additional)| ==> r.items[i + 1] == Obj(map["name" := Holders(additional)[i]])
  {
    if Truthy(additional) then Arr([W3CHolder] + NamedHolders(Holders(additional))) else W3CHolder
  }

  /** `items.map(x => x.name)`. */
  function Names(items: seq<Value>): (r: seq<Value>)
    ensures |r| == |items|
  {
    if |items| == 0 then [] else [Prop(items[0], "name")] + Names(items[1..])
  }

  /** The holder names can be read back from the list: after the W3C
      entry come exactly the additional holders, in order. */
  lemma {:induction false} HolderNamesRoundTrip(hs: seq<Value>)
    ensures Names(NamedHolders(hs)) == hs
  {
    if |hs| > 0 {
      HolderNamesRoundTrip(hs[1..]);
      var named := NamedHolders(hs);
      assert named[1..] == NamedHolders(hs[1..]);
      assert Prop(named[0], "name") == hs[0];
    }
  }

  lemma CopyrightNames(additional: Value)
    requires Truthy(additional)
    ensures var r := CopyrightHolder(additional);
      r.Arr? && r.items[0] == W3CHolder && Names(r.items[1..]) == Holders(additional)
  {
    var r := CopyrightHolder(additional);
    assert r.items[1..] == NamedHolders(Holders(additional));
    HolderNamesRoundTrip(Holders(additional));
  }

  /** `["TechArticle"]`, followed by the status's RDF type when it has
      one. */
  function LdType(rdfStatus: Value): (r: seq<Value>)
    ensures |r| >= 1 && r[0] == Str("TechArticle")
    ensures |r| == 2 <==> Truthy(rdfStatus)
    ensures |r| == 2 ==> r[1] == rdfStatus
  {
    [Str("TechArticle")] + (if Truthy(rdfStatus) then [rdfStatus] else [])
  }

  // ---------------------------------------------------------------------
  // The plugin

  /** What the page offers: its `lang` attribute ("" when unset) and the
      content of its meta description, if any. */
  datatype Page = Page(lang: string, description: Option<string>)

  /** The JSON-LD description of the document (its `@context` is a fixed
      value and is left out). */
  datatype JsonLd = JsonLd(
    id: Value,
    types: seq<Value>,
    name: Value,
    inLanguage: string,
    license: Value,
    datePublished: Value,
    copyrightHolder: Value,
    discussionUrl: Value,
    alternativeHeadline: Value,
    isBasedOn: Value,
    description: Option<string>,
    editor: Option<seq<Object>>,
    contributor: Option<seq<Object>>,
    citation: seq<Object>)

  /** `addJSONLDInfo`; `None` when building throws: an unknown licence
      (`licenseInfo.url` on undefined) or an editor or author list that
      cannot be mapped. The citations are the corrected `Citations`: for a
      cited key whose entry is null the code as written throws as well
      (`NullEntryAlwaysLoses`), and otherwise both agree
      (`JsonLdCitationsAsWritten`). */
  function BuildJsonLd(conf: Object, page: Page, biblio: map<string, Value>,
                       normative: seq<string>, informative: seq<string>): (r: Option<JsonLd>)
    ensures r.Some? <==>
      !Nullish(Get(conf, "licenseInfo"))
      && PeopleField(Get(conf, "editors")).Some? && PeopleField(Get(conf, "authors")).Some?
    ensures r.Some? ==>
      var canonical := Get(conf, "canonicalURI");
      && r.value.id == (if Truthy(canonical) then canonical else Get(conf, "thisVersion"))
      && r.value.types == LdType(Get(conf, "rdfStatus"))
      && r.value.inLanguage == (if page.lang == "" then "en" else page.lang)
      && r.value.copyrightHolder == CopyrightHolder(Get(conf, "additionalCopyrightHolders"))
      && r.value.citation == Citations(normative, informative, biblio)
  {
    var licenseInfo := Get(conf, "licenseInfo");
    var editors, authors := PeopleField(Get(conf, "editors")), PeopleField(Get(conf, "authors"));
    if Nullish(licenseInfo) || editors.None? || authors.None? then None
    else
      var canonical := Get(conf, "canonicalURI");
      Some(JsonLd(
        id := if Truthy(canonical) then canonical else Get(conf, "thisVersion"),
        types := LdType(Get(conf, "rdfStatus")),
        name := Get(conf, "title"),
        inLanguage := if page.lang == "" then "en" else page.lang,
        license := Prop(licenseInfo, "url"),
        datePublished := Get(conf, "dashDate"),
        copyrightHolder := CopyrightHolder(Get(conf, "additionalCopyrightHolders")),
        discussionUrl := Get(conf, "issueBase"),
        alternativeHeadline := Get(conf, "subtitle"),
        isBasedOn := Get(conf, "prevVersion"),
        description := page.description,
        editor := editors.value,
        contributor := authors.value,
        citation := Citations(normative, informative, biblio)))
  }

  /** Without a null entry among the cited keys, the citations the code
      as written builds are exactly those of the JSON-LD description. */
  lemma JsonLdCitationsAsWritten(conf: Object, page: Page, biblio: map<string, Value>,
                                 normative: seq<string>, informative: seq<string>)
    requires forall k :: k in normative + informative ==> Get(biblio, k) != Null
    ensures var ld := BuildJsonLd(conf, page, biblio, normative, informative);
      ld.Some? ==> CitationsAsWritten(normative, informative, biblio) == Some(ld.value.citation)
  {
    CitationsAgree(normative + informative, biblio);
  }

  /** What the plugin gets from its host. */
  datatype SeoEnv = SeoEnv(
    resolve: Resolver,
    location: string,
    page: Page,
    biblio: map<string, Value>,
    normative: seq<string>,
    informative: seq<string>)

  /** The JSON-LD script: not asked for, appended, or lost because
      building it threw. */
  datatype Script = NotRequested | Appended(ld: JsonLd) | Lost

  datatype SeoStep = SeoStep(conf: Object, link: Option<string>, script: Script, log: Log)

  /** The whole plugin. It aborts exactly when the editor's-draft URI
      cannot be parsed; otherwise only `canonicalURI` changes, and the
      JSON-LD script is lost exactly when it is asked for and cannot be
      built. */
  function Run(conf: Object, env: SeoEnv): (r: Result<SeoStep, string>)
    ensures var c, edDraft := Get(conf, "canonicalURI"), Get(conf, "edDraftURI");
      r.Failure? <==>
        c == Str("edDraft") && Truthy(edDraft) && env.resolve(ToString(edDraft), env.location).Failure?
    ensures r.Success? ==> forall k :: k != "canonicalURI" ==>
      (k in r.value.conf <==> k in conf) && (k in conf ==> r.value.conf[k] == conf[k])
    ensures r.Success? ==>
      (r.value.script.Lost? <==>
         Truthy(Get(conf, "doJsonLd"))
         && (Nullish(Get(conf, "licenseInfo"))
             || PeopleField(Get(conf, "editors")).None? || PeopleField(Get(conf, "authors")).None?))
  {
    match ResolveCanonical(conf, env.resolve, env.location)
    case Failure(e) => Failure(e)
    case Success(step) =>
      var out := step.conf;
      assert && Get(out, "doJsonLd") == Get(conf, "doJsonLd")
             && Get(out, "licenseInfo") == Get(conf, "licenseInfo")
             && Get(out, "editors") == Get(conf, "editors")
             && Get(out, "authors") == Get(conf, "authors");
      var script :=
        if !Truthy(Get(out, "doJsonLd")) then NotRequested
        else match BuildJsonLd(out, env.page, env.biblio, env.normative, env.informative)
             case Some(ld) => Appended(ld)
             case None => Lost;
      Success(SeoStep(out, CanonicalLink(Get(out, "canonicalURI")), script, step.log))
  }

  /** The canonical link of a run is there exactly when the settled
      canonical URI is truthy, and names it; the JSON-LD identifier is
      that URI whenever it is truthy. */
  lemma RunCanonicalLink(conf: Object, env: SeoEnv)
    requires Run(conf, env).Success?
    ensures var s := Run(conf, env).value;
      var uri := Get(s.conf, "canonicalURI");
      && (s.link.Some? <==> Truthy(uri))
      && (s.link.Some? ==> s.link.value == ToString(uri))
      && (s.script.Appended? && Truthy(uri) ==> s.script.ld.id == uri)
      && (s.script.NotRequested? <==> !Truthy(Get(conf, "doJsonLd")))
  {
    var step := ResolveCanonical(conf, env.resolve, env.location).value;
    assert Get(step.conf, "doJsonLd") == Get(conf, "doJsonLd");
  }
}
