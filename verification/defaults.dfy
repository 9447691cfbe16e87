/**
 The defaults plugin: it layers the host framework's core defaults, the
 profile's own defaults and the user's configuration, with the user's
 values winning, merges the linter switches the same way unless the user
 turned the linter off, and finally installs the host's definition map.
 */
module Defaults {
  import opened Js
  import Status

  /** The profile's linter switches. */
  const OdczLint: Object := map[
    "no-headingless-sections" := Bool(true),
    "no-http-props" := Bool(true),
    "check-punctuation" := Bool(false),
    "local-refs-exist" := Bool(true)]

  /** One logo shown in the header: image, alternative text, size, link. */
  function Logo(src: string, alt: string, height: nat, width: nat, url: string): Value {
    Obj(map["src" := Str(src), "alt" := Str(alt), "height" := Num(height),
            "width" := Num(width), "url" := Str(url)])
  }

  const Logos: Value := Arr([
    Logo("https://ofn.gov.cz/static/images/ozp_logo_cz.jpg",
         "Evropská unie - Evropský sociální fond - Operační program Zaměstnanost",
         48, 231, "https://www.esfcr.cz/"),
    Logo("https://ofn.gov.cz/static/images/logo.png", "Otevřená data", 64, 64,
         "https://data.gov.cz/")])

  /** The profile's defaults. */
  const OdczDefaults: Object := map[
    "lint" := Obj(OdczLint),
    "pluralize" := Bool(false),
    "highlightVars" := Bool(true),
    "doJsonLd" := Bool(false),
    "license" := Str("cc-by"),
    "specStatus" := Str("base"),
    "logos" := Logos,
    "addSectionLinks" := Bool(true),
    "xref" := Bool(true)]

  /** The properties `{...v}` copies from a value: an object's own
      properties; nothing from null, undefined, booleans or numbers. */
  function Spread(v: Value): Object {
    if v.Obj? then v.fields else map[]
  }

  /** `Object.assign(target, source)` on plain objects: the source's
      properties are copied over the target's. */
  function Assign(target: Object, source: Object): (r: Object)
    ensures r.Keys == target.Keys + source.Keys
    ensures forall k :: k in source ==> r[k] == source[k]
    ensures forall k :: k in target && k !in source ==> r[k] == target[k]
  {
    target + source
  }

  /** The later layer wins: a key takes its value from the first layer
      that has it, looking at `top`, then `middle`, then `bottom`. */
  function Layered(top: Object, middle: Object, bottom: Object, k: string): Value
    requires k in top || k in middle || k in bottom
  {
    if k in top then top[k] else if k in middle then middle[k] else bottom[k]
  }

  /** `{...core, ...defaults, ...conf}`: each key from the last layer
      that has it. */
  function Spreads(conf: Object, defaults: Object, core: Object): (r: Object)
    ensures r.Keys == conf.Keys + defaults.Keys + core.Keys
    ensures forall k :: k in r ==> r[k] == Layered(conf, defaults, core, k)
  {
    Assign(Assign(core, defaults), conf)
  }

  /** The merged linter setting: `false` when the user wrote exactly
      `false`, otherwise the user's switches over the defaults' over the
      core's. */
  function MergedLint(conf: Object, defaults: Object, core: Object): (r: Value)
    ensures Get(conf, "lint") == Bool(false) <==> r == Bool(false)
    ensures Get(conf, "lint") != Bool(false) ==>
      && r.Obj?
      && var user, own, base := Spread(Get(conf, "lint")), Spread(Get(defaults, "lint")), Spread(Get(core, "lint"));
         forall k :: (k in r.fields <==> k in user || k in own || k in base)
                     && (k in r.fields ==> r.fields[k] == Layered(user, own, base, k))
  {
    if Get(conf, "lint") == Bool(false) then Bool(false)
    else Obj(Spread(Get(core, "lint")) + Spread(Get(defaults, "lint")) + Spread(Get(conf, "lint")))
  }

  /** The configuration after the plugin, for a given layer of profile
      defaults: `Object.assign(conf, {...core, ...defaults, ...conf,
      lint})`, then `Object.assign(conf, {definitionMap})`. */
  function Merge(conf: Object, defaults: Object, core: Object, definitionMap: Value): Object {
    var merged := Spreads(conf, defaults, core) + map["lint" := MergedLint(conf, defaults, core)];
    var written := conf + merged;
    written + map["definitionMap" := definitionMap]
  }

  /** The merge keeps the keys of every layer and adds the two it writes
      last. */
  lemma MergeKeys(conf: Object, defaults: Object, core: Object, definitionMap: Value)
    ensures Merge(conf, defaults, core, definitionMap).Keys
      == conf.Keys + defaults.Keys + core.Keys + {"lint", "definitionMap"}
  {
    var merged := Spreads(conf, defaults, core) + map["lint" := MergedLint(conf, defaults, core)];
    assert merged.Keys == conf.Keys + defaults.Keys + core.Keys + {"lint"};
  }

  /** `lint` holds the merged linter setting. */
  lemma MergeWritesLint(conf: Object, defaults: Object, core: Object, definitionMap: Value)
    ensures var r := Merge(conf, defaults, core, definitionMap);
      "lint" in r && r["lint"] == MergedLint(conf, defaults, core)
  {
    var lint := MergedLint(conf, defaults, core);
    var merged := Spreads(conf, defaults, core) + map["lint" := lint];
    assert merged["lint"] == lint;
    var written := conf + merged;
    assert written["lint"] == lint;
    assert "lint" != "definitionMap";
  }

  /** `definitionMap` holds the host's map. */
  lemma MergeWritesDefinitionMap(conf: Object, defaults: Object, core: Object, definitionMap: Value)
    ensures var r := Merge(conf, defaults, core, definitionMap);
      "definitionMap" in r && r["definitionMap"] == definitionMap
  {
  }

  /** Every other key takes the user's value when the user set it, the
      profile's default otherwise, and the core default last. */
  lemma MergePrecedence(conf: Object, defaults: Object, core: Object, definitionMap: Value, k: string)
    requires k in conf || k in defaults || k in core
    requires k != "lint" && k != "definitionMap"
    ensures var r := Merge(conf, defaults, core, definitionMap);
      k in r && r[k] == Layered(conf, defaults, core, k)
  {
    var spread := Spreads(conf, defaults, core);
    var merged := spread + map["lint" := MergedLint(conf, defaults, core)];
    assert merged[k] == spread[k];
    var written := conf + merged;
    assert written[k] == merged[k];
  }

  /** The plugin: the merge with this profile's defaults. */
  function Run(conf: Object, core: Object, definitionMap: Value): (r: Object)
    ensures r.Keys == conf.Keys + OdczDefaults.Keys + core.Keys + {"lint", "definitionMap"}
    ensures r["lint"] == MergedLint(conf, OdczDefaults, core)
    ensures r["definitionMap"] == definitionMap
  {
    MergeKeys(conf, OdczDefaults, core, definitionMap);
    MergeWritesLint(conf, OdczDefaults, core, definitionMap);
    MergeWritesDefinitionMap(conf, OdczDefaults, core, definitionMap);
    Merge(conf, OdczDefaults, core, definitionMap)
  }

  /** No key the user set is dropped, and a user value survives unchanged
      unless it is the linter setting or the definition map. */
  lemma UserValuesKept(conf: Object, core: Object, definitionMap: Value, k: string)
    requires k in conf
    ensures var r := Run(conf, core, definitionMap);
      && k in r
      && (k != "lint" && k != "definitionMap" ==> r[k] == conf[k])
  {
    if k != "lint" && k != "definitionMap" {
      MergePrecedence(conf, OdczDefaults, core, definitionMap, k);
    }
  }

  /** A key the user did not set takes the profile's default when there
      is one, whatever the core defaults say. */
  lemma DefaultFillsGap(conf: Object, core: Object, definitionMap: Value, k: string)
    requires k !in conf && k in OdczDefaults
    requires k != "lint" && k != "definitionMap"
    ensures Run(conf, core, definitionMap)[k] == OdczDefaults[k]
  {
    MergePrecedence(conf, OdczDefaults, core, definitionMap, k);
  }

  /** The profile's default values, key by key. */
  lemma OdczDefaultValues()
    ensures "specStatus" in OdczDefaults && OdczDefaults["specStatus"] == Str("base")
    ensures "license" in OdczDefaults && OdczDefaults["license"] == Str("cc-by")
    ensures "doJsonLd" in OdczDefaults && OdczDefaults["doJsonLd"] == Bool(false)
    ensures "pluralize" in OdczDefaults && OdczDefaults["pluralize"] == Bool(false)
    ensures "highlightVars" in OdczDefaults && OdczDefaults["highlightVars"] == Bool(true)
    ensures "addSectionLinks" in OdczDefaults && OdczDefaults["addSectionLinks"] == Bool(true)
    ensures "xref" in OdczDefaults && OdczDefaults["xref"] == Bool(true)
    ensures "logos" in OdczDefaults && OdczDefaults["logos"] == Logos
  {
  }

  /** Keys absent from the user's configuration receive the profile's
      defaults: a "base" document under the cc-by licence, without
      JSON-LD, with highlighted variables, section links and
      cross-references, and with the two logos. */
  lemma DefaultsFillGaps(conf: Object, core: Object, definitionMap: Value)
    ensures var r := Run(conf, core, definitionMap);
      && ("specStatus" !in conf ==> r["specStatus"] == Str("base"))
      && ("license" !in conf ==> r["license"] == Str("cc-by"))
      && ("doJsonLd" !in conf ==> r["doJsonLd"] == Bool(false))
      && ("pluralize" !in conf ==> r["pluralize"] == Bool(false))
      && ("highlightVars" !in conf ==> r["highlightVars"] == Bool(true))
      && ("addSectionLinks" !in conf ==> r["addSectionLinks"] == Bool(true))
      && ("xref" !in conf ==> r["xref"] == Bool(true))
      && ("logos" !in conf ==> r["logos"] == Logos)
  {
    OdczDefaultValues();
    if "specStatus" !in conf { DefaultFillsGap(conf, core, definitionMap, "specStatus"); }
    if "license" !in conf { DefaultFillsGap(conf, core, definitionMap, "license"); }
    if "doJsonLd" !in conf { DefaultFillsGap(conf, core, definitionMap, "doJsonLd"); }
    if "pluralize" !in conf { DefaultFillsGap(conf, core, definitionMap, "pluralize"); }
    if "highlightVars" !in conf { DefaultFillsGap(conf, core, definitionMap, "highlightVars"); }
    if "addSectionLinks" !in conf { DefaultFillsGap(conf, core, definitionMap, "addSectionLinks"); }
    if "xref" !in conf { DefaultFillsGap(conf, core, definitionMap, "xref"); }
    if "logos" !in conf { DefaultFillsGap(conf, core, definitionMap, "logos"); }
  }

  /** The user's `lint: false` turns the linter off whatever the
      defaults say; any other setting merges the user's switches over the
      profile's over the core's. */
  lemma LintSetting(conf: Object, core: Object, definitionMap: Value)
    ensures var lint := Run(conf, core, definitionMap)["lint"];
      && (Get(conf, "lint") == Bool(false) <==> lint == Bool(false))
      && (Get(conf, "lint") != Bool(false) ==>
            && lint.Obj?
            && var user, base := Spread(Get(conf, "lint")), Spread(Get(core, "lint"));
               forall k :: (k in lint.fields <==> k in user || k in OdczLint || k in base)
                           && (k in lint.fields ==> lint.fields[k] == Layered(user, OdczLint, base, k)))
  {
    assert Get(OdczDefaults, "lint") == Obj(OdczLint);
  }

  /** Without any linter setting of the user's, every one of the
      profile's switches is in force, overriding the core's. */
  lemma ProfileLintSwitches(conf: Object, core: Object, definitionMap: Value)
    requires "lint" !in conf
    ensures var lint := Run(conf, core, definitionMap)["lint"];
      && lint.Obj?
      && forall k :: k in OdczLint ==> k in lint.fields && lint.fields[k] == OdczLint[k]
  {
    LintSetting(conf, core, definitionMap);
  }

  /** Merging again over a merged configuration changes nothing: every
      default is already in place and the merged linter switches already
      contain every layer. */
  lemma MergeIdempotent(conf: Object, defaults: Object, core: Object, definitionMap: Value)
    ensures var r := Merge(conf, defaults, core, definitionMap);
      Merge(r, defaults, core, definitionMap) == r
  {
    var r := Merge(conf, defaults, core, definitionMap);
    var rr := Merge(r, defaults, core, definitionMap);
    MergeKeys(conf, defaults, core, definitionMap);
    MergeKeys(r, defaults, core, definitionMap);
    MergeWritesLint(conf, defaults, core, definitionMap);
    MergeWritesLint(r, defaults, core, definitionMap);
    MergeWritesDefinitionMap(conf, defaults, core, definitionMap);
    MergeWritesDefinitionMap(r, defaults, core, definitionMap);
    MergedLintIdempotent(conf, defaults, core, r);
    forall k | k in r
      ensures rr[k] == r[k]
    {
      if k != "lint" && k != "definitionMap" {
        MergePrecedence(r, defaults, core, definitionMap, k);
      }
    }
  }

  /** Merging the linter switches again, over the merged ones, gives the
      merged ones back. */
  lemma MergedLintIdempotent(conf: Object, defaults: Object, core: Object, merged: Object)
    requires Get(merged, "lint") == MergedLint(conf, defaults, core)
    ensures MergedLint(merged, defaults, core) == MergedLint(conf, defaults, core)
  {
    var lint := MergedLint(conf, defaults, core);
    var again := MergedLint(merged, defaults, core);
    if lint != Bool(false) {
      assert again.fields.Keys == lint.fields.Keys;
    }
  }

  /** The plugin is idempotent. */
  lemma RunIdempotent(conf: Object, core: Object, definitionMap: Value)
    ensures var r := Run(conf, core, definitionMap);
      Run(r, core, definitionMap) == r
  {
    MergeIdempotent(conf, OdczDefaults, core, definitionMap);
  }

  /** A document whose user configuration leaves out the status is a
      "base" document for the header normaliser: basic, not regular, and
      so not required to have a short name. */
  lemma DefaultStatusIsBasic(conf: Object, core: Object, definitionMap: Value, noRecTrack: Value, recNotExpected: Value)
    requires "specStatus" !in conf
    ensures var f := Status.Classify(Run(conf, core, definitionMap)["specStatus"], noRecTrack, recNotExpected);
      f.isBasic && !f.isRegular && !f.isRecTrack
  {
    OdczDefaultValues();
    DefaultFillsGap(conf, core, definitionMap, "specStatus");
    Status.BaseFlags(noRecTrack, recNotExpected);
  }
}
