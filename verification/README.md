# odcz profile: header normaliser, SEO plugin and defaults, in Dafny

This project models the three configuration plugins of the "odcz" ReSpec
profile. They run in this order on one shared configuration object:

- **defaults** (`Defaults`) layers the host's core defaults, the profile's own
  defaults and the user's configuration. The user's values win. The linter
  switches are merged the same way, unless the user wrote `lint: false`. The
  host's definition map is installed last.
- **headers** (`Headers`, `Status`, `Orcid`) derives the status flags from
  `specStatus` using fixed tables. It normalises the ORCID of every editor,
  former editor and author (format check and ISO/IEC 7064 MOD 11-2 check
  character), defines `wgId`, and publishes one diagnostic for every
  problem it finds. A few inputs make it throw a TypeError part-way; the
  diagnostics published up to there are all it leaves.
- **seo** (`Seo`) settles `canonicalURI` by the edDraft / TR / explicit-URL
  switch and announces it with a canonical link. On request it builds the
  JSON-LD description of the document: its types, copyright holders, people
  and citations.

Each plugin is a pure function. It returns the new configuration together
with the diagnostics it publishes, in publication order. A diagnostic is a
structured `Diagnostics.Message`; `Diagnostics.Text` renders the exact string
the plugin publishes. The host services are parameters:

- the URL parser (`Urls.Resolver`, which either gives `href`, `origin` and
  `pathname` or fails with the parser's message);
- the `Date` constructor's verdict on a configured date;
- the document's location, language and meta description;
- the bibliography.

JavaScript values are `Js.Value`. An object is a map from its own property
names to values. A property that is absent from the map reads as
`undefined`.

Four behaviours of the code are easy to miss; the model keeps them.

- A "PR" document is flagged `notYetRec` only when `noRecTrack` is falsy
  (`Status.ProposedRecommendationFlags`). With `noRecTrack` set it is off the
  track, so neither `isRec` nor `notYetRec` holds.
- The editor's-draft branch of the canonical switch parses `edDraftURI`
  outside any `try`, so an unparsable URI aborts the SEO plugin.
  `Seo.ResolveCanonical` returns `Failure` in exactly that case.
- The header normaliser has no `try` around its checks. A person list or an
  alternate-format list that cannot be walked, a bug tracker with both links
  but no `l10n`, and a `wg` array without `wgURI` or `wgPatentURI` throw a
  TypeError, and no check after that point publishes anything
  (`Headers.RunAborts`).
- The citation filter keeps every entry that is `typeof "object"`, and
  `null` is `typeof "object"`. See Findings.

## Model

| member | source | states |
|---|---|---|
| Orcid.NormalizeOrcid | src/odcz/headers.js:475-503 | an unparsable value fails with the parser's message; a foreign origin, a malformed iD and a wrong check character each fail with their own problem, in that order; the value is accepted exactly when the origin is orcid.org and the iD is MOD 11-2 valid, and then the result is the full URL |
| Orcid.AcceptedIffMod112 | src/odcz/headers.js:492-502 | the source's left fold `(acc + c) * 2` followed by `(12 - r % 11) % 11` accepts exactly the iDs whose weighted digit sum plus check value is 1 modulo 11 |
| Orcid.ReduceIsWeighted | src/odcz/headers.js:493-498 | the fold equals the accumulator times 2^n plus the digits weighted by decreasing powers of two |
| Orcid.SingleSubstitutionDetected | src/odcz/headers.js:492-502 | two iDs that differ in one payload digit cannot both be accepted |
| Headers.CheckPerson | src/odcz/headers.js:249-261 | reading the name of a null or undefined person throws; otherwise a person without a truthy name gets the name error; a set ORCID is replaced by its full URL when accepted and removed with exactly one ORCID error when refused; every other property is left alone |
| Headers.CheckPeople | src/odcz/headers.js:262-270 | `forEach(peopCheck)` checks the people in order and throws exactly when one is null or undefined; the number of ORCID errors equals the number of refused people before that one; the name error appears exactly when some person checked lacks a name |
| Headers.CheckList | src/odcz/headers.js:262-270 | an array-valued person option is checked; a falsy one is left alone; any other truthy value throws, having no `forEach`; only arrays publish anything |
| Headers.RunOrcidErrors | src/odcz/headers.js:249-270 | across the whole run, one ORCID error is published per refused editor, former editor or author checked before a list throws, and no other check publishes one |
| Headers.WgIdAfterPpImpl | src/odcz/headers.js:333-340 | for a patent URI whose segments hold "pp-impl", `wgId` is the segment after its first occurrence, or "" when it is the last segment |
| Headers.WgIdWithoutPpImpl | src/odcz/headers.js:336-338 | without a "pp-impl" segment, `findIndex` returns -1 and the getter yields the text before the first `/` |
| Headers.RunWgId | src/odcz/headers.js:332-343 | in a run that completes, an own string `wgPatentURI` makes `wgId` the getter's value; with no patent URI, or an array one, `wgId` is the configured id when it is truthy and "" otherwise |
| Headers.WgArrayCheck | src/odcz/headers.js:359-368 | the consistency error is published exactly when one or two of `wg`, `wgURI` and `wgPatentURI` are arrays |
| Headers.RunWorkingGroups | src/odcz/headers.js:359-375 | in a run that gets past the people, the alternate formats and the bug tracker, the consistency error is published exactly when some but not all group values are arrays, and the missing-`wg` error exactly for a CG/BG document without a truthy `wg`; otherwise neither is |
| Headers.DateCheck | src/odcz/headers.js:181-193 | a set date is reported exactly when the Date constructor rejects it; an unset one never is |
| Headers.AlternateFormatChecks | src/odcz/headers.js:275-279 | one error per alternate format that lacks a truthy `uri` or `label`, up to the first null or undefined entry, which throws; a truthy value that is not an array throws at once |
| Headers.RunRequiredFields | src/odcz/headers.js:203-212 | the `specStatus` error is published exactly when the status is falsy; the `shortName` error exactly for a document that is neither "base" nor a CG/BG status and has no truthy `shortName` |
| Headers.RunEditorChecks | src/odcz/headers.js:235-248 | the editor error is published exactly when `editors` is falsy or empty; the edDraftURI warning exactly for an "ED" document without a truthy `edDraftURI` |
| Headers.RunEndDates | src/odcz/headers.js:393-419 | in a run that gets past every throw, a PR or CR document without `crEnd`, a PR document without `prEnd` and a PER document without `perEnd` each get their error; no other document, and no aborted run, gets one |
| Headers.RunTrackChecks | src/odcz/headers.js:427-461 | in a run that gets past every throw, the `noRecTrack` conflict is published exactly for a Rec-track status with a truthy `noRecTrack`, and the IG-NOTE error, the CR implementation-report error and the PR implementation-report warning exactly when the status matches and the link is missing; an aborted run publishes none of them |
| Headers.RunAborts | src/odcz/headers.js:262-388 | a run aborts exactly when a person list or the alternate formats cannot be walked, a bug tracker with both links has no `l10n`, or a non-empty `wg` array comes with a null or undefined `wgURI` or `wgPatentURI` |
| Headers.Run | src/odcz/headers.js:195-468 | the run completes exactly when none of the TypeErrors of `Headers.RunAborts` occurs (`Headers.Completes`), and in either case its diagnostics are everything `Headers.Published` publishes up to the throw |
| Headers.InPublished | src/odcz/headers.js:207-461 | membership by stage: a message of the opening checks, the people, the alternate formats, the working groups, the end dates or the track checks is published exactly when its stage's checks publish it and no earlier phase threw |
| Headers.PublishedInStageOrder | src/odcz/headers.js:207-461 | the diagnostics come stage by stage in source order: opening checks, people, alternate formats, working groups, end dates, track checks |
| Headers.RunLeavesOtherFields | src/odcz/headers.js:195-419 | in a run that completes, every option the plugin never assigns keeps its presence and its value |
| Headers.RunStatusFields | src/odcz/headers.js:203-234 | the computed flags in terms of the configuration: on the Rec track exactly for a Rec-track status without `noRecTrack`; a Recommendation or not yet one, never both; CG/BG, CG/BG final and regular by the status tables; a truthy `noRecTrack` forces `recNotExpected` |
| Status.RecTrackFlags | src/odcz/headers.js:224-319 | `isRecTrack` holds exactly for a Rec-track status without a truthy `noRecTrack`; on the track a document is exactly one of `isRec` and `notYetRec` |
| Status.GroupFlags | src/odcz/headers.js:203-206 | `isCGFinal` holds exactly for CG-FINAL and BG-FINAL, which are group statuses; `isRegular` holds exactly when the status is neither a group status nor "base" |
| Status.RecNotExpectedFlag | src/odcz/headers.js:421-426 | a truthy `noRecTrack` or user value forces `recNotExpected`; otherwise it holds exactly for an off-track document of maturity "WD" that is not an FPWD-NOTE |
| Status.MaturityTable | src/odcz/headers.js:110-119 | the maturity of the listed statuses is WD, NOTE or LC by the table; every other status is its own maturity |
| Status.ProposedRecommendationFlags | src/odcz/headers.js:318-324 | a PR document without `noRecTrack` is flagged PR, on the track, not yet a Recommendation, with RDF type w3p:PR |
| Status.BaseFlags | src/odcz/headers.js:203-206 | a "base" document is basic, not regular and off the Rec track |
| Strings.SplitJoin | src/odcz/headers.js:336 | splitting at `/` a join of slash-free segments gives the segments back |
| Seo.ResolveCanonical | js/odcz/seo.js:16-51 | "edDraft" takes the resolved `edDraftURI`, or becomes null with a warning when there is none, and aborts exactly when that URI cannot be parsed; "TR" takes `https://ofn.gov.cz/<shortName>/`, or becomes null with a warning; no other option changes |
| Seo.DefaultCanonical | js/odcz/seo.js:39-49 | any other truthy value is resolved against the location or dropped to null with the parser's message; an unset one becomes the latest-version URI when there is a short name and is otherwise left alone |
| Seo.CanonicalWarning | js/odcz/seo.js:18-51 | at most one warning is published, and one is published exactly when a canonical URI was asked for and ended up null |
| Seo.CanonicalLink | js/odcz/seo.js:53-58 | the canonical link is added exactly for a truthy URI and points at its string form |
| Seo.RunCanonicalLink | js/odcz/seo.js:53-62 | in a whole run the link is present exactly for a truthy settled URI; the JSON-LD id is that URI; the script is not requested exactly when `doJsonLd` is falsy |
| Seo.Run | js/odcz/seo.js:15-62 | the plugin aborts exactly when `canonicalURI` is "edDraft" and a truthy `edDraftURI` cannot be parsed; otherwise every option but `canonicalURI` is left as it was, and the JSON-LD script is lost exactly when `doJsonLd` is truthy and the licence is unknown or the editors or authors cannot be mapped (citations as in `Seo.BuildJsonLd`) |
| Seo.AddPerson | js/odcz/seo.js:136-158 | a Person with the name, url and mailto of the record, with `worksFor` exactly when company or companyURL is truthy; null and undefined throw |
| Seo.AddPersonRoundTrip | js/odcz/seo.js:136-158 | name, url and mailto read back unchanged from the JSON-LD person, and so do company and companyURL whenever either is truthy |
| Seo.AddPeople | js/odcz/seo.js:119-125 | mapping `addPerson` over a list succeeds exactly when no entry is null or undefined, and then maps each entry |
| Seo.AddRef | js/odcz/seo.js:161-173 | a TechArticle whose id and url are the entry's href and whose name is its title, with no other key; null and undefined throw |
| Seo.Citations | js/odcz/seo.js:128 | corrected citations: one article per cited key, normative first, whose entry is an object, carrying that entry's href and title |
| Seo.CitationsAgree | js/odcz/seo.js:128 | when no cited key maps to null, the citations as written are exactly the corrected citations |
| Seo.NullEntryAlwaysLoses | js/odcz/seo.js:128 | as written, one cited key that maps to null makes the whole citation list throw |
| Seo.NullEntryLosesCitations | js/odcz/seo.js:128 | as written, citing "HTML" with a null bibliography entry throws |
| Seo.CopyrightHolder | js/odcz/seo.js:95-108 | the W3C alone, or with truthy additional holders the W3C followed by one named entry per holder (a non-array holder counts as one), in order |
| Seo.CopyrightNames | js/odcz/seo.js:104-108 | the additional holders read back, in order, from the names after the W3C entry |
| Seo.LdType | js/odcz/seo.js:68-69 | the type list is "TechArticle", followed by the RDF status exactly when that is truthy |
| Seo.BuildJsonLd | js/odcz/seo.js:65-128 | the description is built exactly when the licence is known and the editor and author lists can be mapped; its id is the canonical URI or else `thisVersion`, its language the page's or "en", and its holders and types are as above, and its citations are the corrected `Seo.Citations` |
| Seo.JsonLdCitationsAsWritten | js/odcz/seo.js:128 | when no cited key maps to null, the citations the code as written builds are exactly those of the description |
| Defaults.MergeKeys | src/odcz/defaults.js:74-85 | no key is dropped: the result has exactly the keys of the user's configuration, the profile's defaults and the core defaults, plus `lint` and `definitionMap` |
| Defaults.MergePrecedence | src/odcz/defaults.js:74-79 | every other key takes the user's value, else the profile's default, else the core default |
| Defaults.UserValuesKept | src/odcz/defaults.js:74-79 | every key the user set survives, with its value unless it is `lint` or `definitionMap` |
| Defaults.MergedLint | src/odcz/defaults.js:66-73 | the linter setting is `false` exactly when the user wrote `false`; otherwise each switch comes from the user, else the profile, else the core |
| Defaults.LintSetting | src/odcz/defaults.js:66-73 | the same for the plugin's own switches: `false` exactly for a user `false`, otherwise the user's switches over the profile's four over the core's |
| Defaults.ProfileLintSwitches | src/odcz/defaults.js:32-38 | without a user linter setting every profile switch is in force, overriding the core's |
| Defaults.MergeWritesLint | src/odcz/defaults.js:66-79 | the merged linter setting is written under `lint` |
| Defaults.MergeWritesDefinitionMap | src/odcz/defaults.js:85 | `definitionMap` is written last, so the value handed to the plugin replaces any the user set |
| Defaults.DefaultsFillGaps | src/odcz/defaults.js:39-61 | an unset key gets the profile's default: "base", "cc-by", no JSON-LD, no pluralising, highlighted variables, section links, cross-references and the two logos |
| Defaults.DefaultStatusIsBasic | src/odcz/defaults.js:43 | a configuration without a status becomes a "base" document: basic, not regular, so it needs no short name, and off the Rec track |
| Defaults.MergeIdempotent | src/odcz/defaults.js:64-86 | merging again over a merged configuration changes nothing |
| Defaults.RunIdempotent | src/odcz/defaults.js:64-86 | running the plugin on its own output changes nothing |
| Defaults.Run | src/odcz/defaults.js:64-86 | the result has exactly the keys of the user's configuration, this profile's defaults and the core defaults, plus `lint` and `definitionMap`; `lint` is the merged linter setting and `definitionMap` the value handed to the plugin |

## Left out

- The syntax-highlighting worker and the profile loader: neither is part of this model.
- The DOM is left out: the header template, `document.body.prepend`, link
  and script elements (returned as values instead), and the awaited
  "document ready" signal.
- `document.title`, the text of the HTML fragments (`alternatesHTML`,
  `bugTrackerHTML`, `wgHTML`, `wgPatentHTML`), `amend-user-config`, the
  JSON-LD `@context` and `JSON.stringify` are left out. The TypeErrors the
  fragments throw are modelled (`Headers.BugTrackerThrows`,
  `Headers.WgThrows`). For `wgHTML` the model takes it that `joinAnd` calls its
  formatter once per group; `joinAnd` is not part of this model.
- Date formatting is left out. Dates are judged by a parameter, and the
  derived date fields (`publishDate`, `humanCREnd`, …) are not written.
- The header template is not part of this model. A throw inside it, such as
  reading `wgId` over a non-string `wgPatentURI`, would stop the run before
  the working-group checks; the model does not account for it.
- An aborted header run returns only the diagnostics published before the
  TypeError (`Headers.Aborted`). The partly written configuration it leaves
  behind is not modelled.
- Headers.RunLeavesOtherFields: the options in `Headers.Derived` are not
  written onto the model's configuration. They are the derived flags and
  counts (returned in `Header`), the dates `publishDate`, `crEnd`, `prEnd`
  and `perEnd` with their formatted forms, the HTML fragments, `title`, and
  `copyrightStart`, which is cleared when it equals the publication year.
- Headers.WgIdField: a non-string own `wgPatentURI` makes the getter throw when
  read. Here `wgId` is then unset.
- The computed header fields are returned as a `Header` record beside the
  configuration, not written onto it.
- Prototype properties, getters other than `wgId`, and non-integer numbers
  (`Js.Value` numbers are integers) are not modelled.
- Seo.BuildJsonLd: builds its citations with the corrected `Seo.Citations`.
  When a cited key's bibliography entry is null, the code as written throws
  in `addRef` and appends no script (`Seo.NullEntryAlwaysLoses`); otherwise
  both agree (`Seo.JsonLdCitationsAsWritten`).
- Seo.Run: inherits that choice. A cited key with a null bibliography entry
  loses the script in the code and not here.
- Seo.Run reads `rdfStatus`, `licenseInfo`, `thisVersion` and the other
  derived fields as they stand in its input, and the bibliography and cited
  keys are parameters. The header normaliser does not feed the SEO plugin
  in this model.
- Defaults.MergedLint: a string or array `lint` would spread its indices
  into the switches. Here only an object spreads; other values contribute
  nothing.
- Defaults.LintSetting: the same gap. A string or array user `lint`
  spreads its indices into the switches in the code; here it contributes
  no switch, so the user's switches over the profile's four hold only for
  an object `lint`.
- Headers.CheckPeople: a person object listed twice is checked once per
  occurrence against its original value. In the code the first visit
  deletes a refused `orcid`, so the second visit publishes no ORCID error;
  here each occurrence publishes one.
- Headers.RunOrcidErrors: the count is exact for distinct person objects.
  One object shared between lists, or listed twice, with a refused ORCID
  gets one ORCID error from the code and one per occurrence here.
- Aliasing is not modelled. The plugins edit the person objects the
  configuration shares with other holders; here they return new values.
- Registering the two linter rules and the `licenses` table of the defaults
  module are not modelled: that table is never used there.

## Findings

| source | as written | input that shows it | evidently intended | confidence | as-written member | corrected member |
|---|---|---|---|---|---|---|
| js/odcz/seo.js:128 | the citations keep every bibliography entry with `typeof ref === "object"`, which includes `null`, and then pass it to `addRef`, whose destructuring throws on `null`; the JSON-LD script is never appended | a cited key "HTML" whose bibliography entry is `null` | entries that are not objects, `null` included, are left out of the citations, as unresolved keys are | low, not executed | Seo.NullEntryLosesCitations | Seo.Citations |
