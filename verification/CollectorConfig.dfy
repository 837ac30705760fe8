/** Layered collector configuration and the generated extras layer
    (labs/otel/newrelic_export.py). */
module CollectorConfig {
  import opened Common

  /** A YAML value. */
  datatype Config =
    | Map(entries: map<string, Config>)
    | List(items: seq<Config>)
    | Text(text: string)
    | Number(number: real)
    | Flag(flag: bool)
    | Null

  const EXPORTER: string := "otlphttp/newrelic"
  const DELTA: string := "cumulativetodelta"
  const ENDPOINT: string := "https://otlp.nr-data.net"

  /** Maps merge recursively; anything else is replaced by the later layer. */
  function Merge(base: Config, over: Config): Config
    decreases over
  {
    if base.Map? && over.Map? then
      Map(map k | k in base.entries.Keys + over.entries.Keys ::
        if k !in over.entries then base.entries[k]
        else if k in base.entries then Merge(base.entries[k], over.entries[k])
        else over.entries[k])
    else over
  }

  /** The source's merge: a copied dictionary, filled key by key. */
  method MergeInto(base: Config, over: Config) returns (out: Config)
    ensures out == Merge(base, over)
    decreases over
  {
    if !(base.Map? && over.Map?) { return over; }
    var entries := base.entries;
    var todo := over.entries.Keys;
    while todo != {}
      invariant todo <= over.entries.Keys
      invariant entries.Keys == base.entries.Keys + (over.entries.Keys - todo)
      invariant forall k :: k in entries ==>
        entries[k] == if k in over.entries && k !in todo then Merge(base, over).entries[k] else base.entries[k]
      decreases todo
    {
      var k :| k in todo;
      todo := todo - {k};
      if k in entries {
        var merged := MergeInto(entries[k], over.entries[k]);
        entries := entries[k := merged];
      } else {
        entries := entries[k := over.entries[k]];
      }
    }
    assert entries == Merge(base, over).entries;
    out := Map(entries);
  }

  method MergeConfigs(layers: seq<Config>) returns (merged: Config)
    ensures merged == MergeAll(layers)
  {
    merged := Map(map[]);
    for i := 0 to |layers|
      invariant merged == MergeAll(layers[..i])
    {
      assert layers[..i + 1][..i] == layers[..i];
      merged := MergeInto(merged, layers[i]);
    }
    assert layers[..|layers|] == layers;
  }

  function MergeAll(layers: seq<Config>): Config {
    if layers == [] then Map(map[])
    else Merge(MergeAll(layers[..|layers| - 1]), layers[|layers| - 1])
  }

  // ----- what a merged configuration says at each path ----------------------------------------------

  function Lookup(c: Config, path: seq<string>): Option<Config> {
    if path == [] then Some(c)
    else if c.Map? && path[0] in c.entries then Lookup(c.entries[path[0]], path[1..])
    else None
  }

  /** On the way down the path, c has something other than a map. */
  predicate Settles(c: Config, path: seq<string>) {
    exists n :: 0 <= n <= |path| && Lookup(c, path[..n]).Some? && !Lookup(c, path[..n]).value.Map?
  }

  lemma {:induction false} SettlesBelow(c: Config, path: seq<string>)
    requires path != []
    ensures Settles(c, path) <==> !c.Map? || (path[0] in c.entries && Settles(c.entries[path[0]], path[1..]))
  {
    if !c.Map? { assert Lookup(c, path[..0]) == Some(c); }
    if c.Map? && path[0] in c.entries {
      forall n | 1 <= n <= |path| ensures Lookup(c, path[..n]) == Lookup(c.entries[path[0]], path[1..][..n - 1]) {
        assert path[..n][1..] == path[1..][..n - 1];
      }
      if Settles(c.entries[path[0]], path[1..]) {
        var n :| 0 <= n <= |path| - 1 && Lookup(c.entries[path[0]], path[1..][..n]).Some?
          && !Lookup(c.entries[path[0]], path[1..][..n]).value.Map?;
        assert Lookup(c, path[..n + 1]) == Lookup(c.entries[path[0]], path[1..][..n]);
      }
    }
  }

  /** Where the later layer has a value or a list, that stands; where it has nothing, the earlier
      layer's stands; where it has a map, so has the result. */
  lemma {:induction false} MergedAt(base: Config, over: Config, path: seq<string>)
    ensures Settles(over, path) ==> Lookup(Merge(base, over), path) == Lookup(over, path)
    ensures !Settles(over, path) && Lookup(over, path).None? ==> Lookup(Merge(base, over), path) == Lookup(base, path)
    ensures !Settles(over, path) && Lookup(over, path).Some? ==>
              Lookup(Merge(base, over), path).Some? && Lookup(Merge(base, over), path).value.Map?
    decreases |path|
  {
    if path == [] {
      assert Settles(over, path) <==> !over.Map? by { assert Lookup(over, path[..0]) == Some(over); }
    } else {
      SettlesBelow(over, path);
      if base.Map? && over.Map? && path[0] in base.entries && path[0] in over.entries {
        MergedAt(base.entries[path[0]], over.entries[path[0]], path[1..]);
      } else if over.Map? && path[0] in over.entries {
        OwnMapAt(over.entries[path[0]], path[1..]);
      }
    }
  }

  lemma {:induction false} OwnMapAt(c: Config, path: seq<string>)
    ensures !Settles(c, path) && Lookup(c, path).Some? ==> Lookup(c, path).value.Map?
  {
    assert path[..|path|] == path;
  }

  /** A layer without anything to say at this path. */
  predicate Silent(c: Config, path: seq<string>) {
    !Settles(c, path) && Lookup(c, path).None?
  }

  /** Of several layers the last to settle a path prevails. */
  lemma {:induction false} LastLayerPrevails(layers: seq<Config>, path: seq<string>, i: nat)
    requires i < |layers| && Settles(layers[i], path) && forall j :: i < j < |layers| ==> Silent(layers[j], path)
    ensures Lookup(MergeAll(layers), path) == Lookup(layers[i], path)
  {
    var n := |layers| - 1;
    MergedAt(MergeAll(layers[..n]), layers[n], path);
    if i < n { LastLayerPrevails(layers[..n], path, i); }
  }

  /** Merging a configuration with itself changes nothing. */
  lemma {:induction false} MergeSelf(x: Config)
    ensures Merge(x, x) == x
    decreases x
  {
    if x.Map? {
      forall k | k in x.entries ensures Merge(x.entries[k], x.entries[k]) == x.entries[k] {
        MergeSelf(x.entries[k]);
      }
      assert Merge(x, x).entries == x.entries;
    }
  }

  /** A layer already merged in is absorbed. */
  lemma {:induction false} MergeAbsorbs(base: Config, over: Config)
    ensures Merge(Merge(base, over), over) == Merge(base, over)
    decreases over
  {
    var once := Merge(base, over);
    if base.Map? && over.Map? {
      forall k | k in over.entries ensures Merge(once.entries[k], over.entries[k]) == once.entries[k] {
        if k in base.entries { MergeAbsorbs(base.entries[k], over.entries[k]); }
        else { MergeSelf(over.entries[k]); }
      }
      assert Merge(once, over).entries == once.entries;
    } else {
      MergeSelf(over);
    }
  }

  // ----- the extras layer ------------------------------------------------------------------------

  predicate HasPrefix(s: string, prefix: string) {
    |prefix| <= |s| && s[..|prefix|] == prefix
  }

  /** Pipelines whose signal New Relic accepts. */
  predicate Accepted(name: string) {
    HasPrefix(name, "traces") || HasPrefix(name, "metrics") || HasPrefix(name, "logs")
  }

  /** A pipeline of a signal New Relic takes. */
  predicate Taken(name: string) {
    || (|name| >= 6 && name[..6] == "traces")
    || (|name| >= 7 && name[..7] == "metrics")
    || (|name| >= 4 && name[..4] == "logs")
  }

  lemma {:induction false} AcceptedIff(name: string)
    ensures Accepted(name) <==> Taken(name)
  {}

  /** list(x), of a list or a string. */
  function AsList(x: Config): Result<seq<Config>, string> {
    match x
    case List(items) => Ok(items)
    case Text(text) => Ok(seq(|text|, i requires 0 <= i < |text| => Text([text[i]])))
    case _ => Err("TypeError")
  }

  function AppendOnce(items: seq<Config>, name: string): seq<Config> {
    if Text(name) in items then items else items + [Text(name)]
  }

  /** The list under key with name appended unless present; a missing key counts as empty. */
  function WithAppended(entries: map<string, Config>, key: string, name: string): Result<map<string, Config>, string> {
    var items := AsList(if key in entries then entries[key] else List([]));
    if items.Err? then Err(items.error)
    else Ok(entries[key := List(AppendOnce(items.value, name))])
  }

  function Restate(name: string, pipeline: Config): Result<Config, string> {
    if !pipeline.Map? then Err("AttributeError")
    else
      var exported := WithAppended(pipeline.entries, "exporters", EXPORTER);
      if exported.Err? then Err(exported.error)
      else if !HasPrefix(name, "metrics") then Ok(Map(exported.value))
      else
        var processed := WithAppended(exported.value, "processors", DELTA);
        if processed.Err? then Err(processed.error) else Ok(Map(processed.value))
  }

  /** config["service"]["pipelines"], as a map. */
  function Pipelines(config: Config): Result<map<string, Config>, string> {
    if !config.Map? then Err("TypeError")
    else if "service" !in config.entries then Err("KeyError")
    else
      var service := config.entries["service"];
      if !service.Map? then Err("TypeError")
      else if "pipelines" !in service.entries then Err("KeyError")
      else if !service.entries["pipelines"].Map? then Err("AttributeError")
      else Ok(service.entries["pipelines"].entries)
  }

  predicate Restatable(pipelines: map<string, Config>) {
    forall name :: name in pipelines && Accepted(name) ==> Restate(name, pipelines[name]).Ok?
  }

  function Restated(pipelines: map<string, Config>): map<string, Config>
    requires Restatable(pipelines)
  {
    map name | name in pipelines && Accepted(name) :: Restate(name, pipelines[name]).value
  }

  function ExtrasOver(pipelines: map<string, Config>, licenseKey: string): Config {
    Map(map[
      "exporters" := Map(map[EXPORTER := Map(map[
        "endpoint" := Text(ENDPOINT),
        "headers" := Map(map["api-key" := Text(licenseKey)])])]),
      "processors" := Map(map[DELTA := Map(map[])]),
      "service" := Map(map["pipelines" := Map(pipelines)])])
  }

  function BuildExtras(config: Config, licenseKey: string): Result<Config, string> {
    var pipelines := Pipelines(config);
    if pipelines.Err? then Err(pipelines.error)
    else if !Restatable(pipelines.value) then Err("TypeError")
    else Ok(ExtrasOver(Restated(pipelines.value), licenseKey))
  }

  // ----- one pipeline -----------------------------------------------------------------------------

  function CountOf(items: seq<Config>, x: Config): nat {
    multiset(items)[x]
  }

  /** Every original entry stays, in order; the name is there exactly once unless the original
      list already repeated it. */
  lemma {:induction false} AppendOnceCounts(items: seq<Config>, name: string)
    ensures items <= AppendOnce(items, name) && |AppendOnce(items, name)| <= |items| + 1
    ensures CountOf(AppendOnce(items, name), Text(name)) == 1 <==> CountOf(items, Text(name)) <= 1
    ensures AppendOnce(AppendOnce(items, name), name) == AppendOnce(items, name)
  {
    assert Text(name) in items <==> Text(name) in multiset(items);
  }

  /** A list that already repeats the exporter keeps repeating it. */
  lemma {:induction false} RepeatedExporterStaysRepeated()
    ensures CountOf(AppendOnce([Text(EXPORTER), Text(EXPORTER)], EXPORTER), Text(EXPORTER)) == 2
  {
    assert [Text(EXPORTER), Text(EXPORTER)][0] == Text(EXPORTER);
  }

  lemma {:induction false} WithAppendedTwice(entries: map<string, Config>, key: string, name: string)
    requires WithAppended(entries, key, name).Ok?
    ensures var once := WithAppended(entries, key, name).value;
            WithAppended(once, key, name) == Ok(once)
  {
    var once := WithAppended(entries, key, name).value;
    AppendOnceCounts(AsList(if key in entries then entries[key] else List([])).value, name);
    assert once[key := once[key]] == once;
  }

  lemma {:induction false} RestateTwice(name: string, pipeline: Config)
    requires Restate(name, pipeline).Ok?
    ensures Restate(name, Restate(name, pipeline).value) == Restate(name, pipeline)
  {
    var exported := WithAppended(pipeline.entries, "exporters", EXPORTER).value;
    WithAppendedTwice(pipeline.entries, "exporters", EXPORTER);
    if HasPrefix(name, "metrics") {
      WithAppendedTwice(exported, "processors", DELTA);
      var processed := WithAppended(exported, "processors", DELTA).value;
      assert processed["exporters" := processed["exporters"]] == processed;
      assert processed["exporters"] == exported["exporters"];
    }
  }

  /** A restated pipeline keeps every other key, and its lists keep all their entries in order. */
  lemma {:induction false} RestateKeepsTheRest(name: string, pipeline: Config)
    requires Restate(name, pipeline).Ok?
    ensures var r := Restate(name, pipeline).value;
            && r.Map? && pipeline.Map? && pipeline.entries.Keys <= r.entries.Keys
            && (forall k :: k in pipeline.entries && k != "exporters" && k != "processors" ==>
                  r.entries[k] == pipeline.entries[k])
            && (!(|name| >= 7 && name[..7] == "metrics") && "processors" in pipeline.entries ==>
                  r.entries["processors"] == pipeline.entries["processors"])
            && "exporters" in r.entries && r.entries["exporters"].List?
            && (forall k :: k in {"exporters", "processors"} && k in pipeline.entries && pipeline.entries[k].List? ==>
                  r.entries[k].List? && pipeline.entries[k].items <= r.entries[k].items)
  {}

  /** The entries listed under a key: those of a list, the letters of a string, none if missing. */
  function Listed(pipeline: Config, key: string): seq<Config> {
    if !pipeline.Map? || key !in pipeline.entries then []
    else
      var items := AsList(pipeline.entries[key]);
      if items.Ok? then items.value else []
  }

  /** after is before with the name added at the end at most, there once unless repeated before. */
  predicate NamesOnce(before: seq<Config>, after: seq<Config>, name: string) {
    && before <= after <= before + [Text(name)]
    && CountOf(after, Text(name)) >= 1
    && (CountOf(after, Text(name)) == 1 <==> CountOf(before, Text(name)) <= 1)
  }

  /** Appending to the list under one key changes the list under no other. */
  lemma {:induction false} AppendedLists(entries: map<string, Config>, key: string, name: string, other: string)
    requires WithAppended(entries, key, name).Ok? && other != key
    ensures var after := Map(WithAppended(entries, key, name).value);
            && NamesOnce(Listed(Map(entries), key), Listed(after, key), name)
            && Listed(after, other) == Listed(Map(entries), other)
  {
    AppendOnceCounts(Listed(Map(entries), key), name);
    assert Listed(Map(WithAppended(entries, key, name).value), key) == AppendOnce(Listed(Map(entries), key), name);
  }

  /** Every restated pipeline exports to New Relic, and a metrics pipeline converts to deltas. */
  lemma {:induction false} RestatedListsName(name: string, pipeline: Config)
    requires Restate(name, pipeline).Ok?
    ensures var r := Restate(name, pipeline).value;
            && NamesOnce(Listed(pipeline, "exporters"), Listed(r, "exporters"), "otlphttp/newrelic")
            && (|name| >= 7 && name[..7] == "metrics" ==>
                  NamesOnce(Listed(pipeline, "processors"), Listed(r, "processors"), "cumulativetodelta"))
  {
    AppendedLists(pipeline.entries, "exporters", EXPORTER, "processors");
    var exported := WithAppended(pipeline.entries, "exporters", EXPORTER).value;
    if HasPrefix(name, "metrics") { AppendedLists(exported, "processors", DELTA, "exporters"); }
  }

  /** Merged over the original pipeline, the restated one wins outright. */
  lemma {:induction false} MergeRestated(name: string, pipeline: Config)
    requires Restate(name, pipeline).Ok?
    ensures Merge(pipeline, Restate(name, pipeline).value) == Restate(name, pipeline).value
  {
    var r := Restate(name, pipeline).value;
    RestateKeepsTheRest(name, pipeline);
    forall k | k in r.entries && k in pipeline.entries ensures Merge(pipeline.entries[k], r.entries[k]) == r.entries[k] {
      MergeSelf(pipeline.entries[k]);
    }
    assert Merge(pipeline, r).entries == r.entries;
  }

  // ----- the whole configuration --------------------------------------------------------------------

  function Apply(config: Config, licenseKey: string): Config
    requires BuildExtras(config, licenseKey).Ok?
  {
    Merge(config, BuildExtras(config, licenseKey).value)
  }

  lemma {:induction false} ApplyPipelines(config: Config, licenseKey: string)
    requires BuildExtras(config, licenseKey).Ok?
    ensures var before := Pipelines(config).value;
            var after := Pipelines(Apply(config, licenseKey));
            && after.Ok? && after.value.Keys == before.Keys
            && forall name :: name in before ==>
                 after.value[name] == if Accepted(name) then Restate(name, before[name]).value else before[name]
  {
    var before := Pipelines(config).value;
    var extras := BuildExtras(config, licenseKey).value;
    var service := config.entries["service"];
    var restated := Restated(before);
    assert Apply(config, licenseKey).entries["service"] == Merge(service, extras.entries["service"]);
    var merged := Merge(service.entries["pipelines"], Map(restated));
    assert Merge(service, extras.entries["service"]).entries["pipelines"] == merged;
    forall name | name in before && Accepted(name) ensures merged.entries[name] == Restate(name, before[name]).value {
      MergeRestated(name, before[name]);
    }
  }

  /** So every taken pipeline is restated and no other is touched. */
  lemma {:induction false} TakenAreRestated(config: Config, licenseKey: string, name: string)
    requires BuildExtras(config, licenseKey).Ok? && name in Pipelines(config).value
    ensures var was, after := Pipelines(config).value[name], Pipelines(Apply(config, licenseKey));
            && after.Ok? && name in after.value
            && after.value[name] == if Taken(name) then Restate(name, was).value else was
  {
    ApplyPipelines(config, licenseKey);
    AcceptedIff(name);
  }

  predicate Listable(pipeline: Config, key: string) {
    pipeline.Map? && (key in pipeline.entries ==> pipeline.entries[key].List? || pipeline.entries[key].Text?)
  }

  /** What a taken pipeline needs: lists, and for metrics a list of processors too. */
  predicate WellFormed(name: string, pipeline: Config) {
    Listable(pipeline, "exporters") && (|name| >= 7 && name[..7] == "metrics" ==> Listable(pipeline, "processors"))
  }

  lemma {:induction false} RestateOkIff(name: string, pipeline: Config)
    ensures Restate(name, pipeline).Ok? <==> WellFormed(name, pipeline)
  {}

  /** The extras can be built exactly for configurations that hold a map of pipelines of which all
      that New Relic takes are well formed. */
  lemma {:induction false} BuildsIff(config: Config, licenseKey: string)
    ensures BuildExtras(config, licenseKey).Ok? <==>
      match Lookup(config, ["service", "pipelines"])
      case Some(Map(pipelines)) => forall name :: name in pipelines && Taken(name) ==> WellFormed(name, pipelines[name])
      case _ => false
  {
    LookupTwo(config, "service", "pipelines");
    var found := Lookup(config, ["service", "pipelines"]);
    assert Pipelines(config).Ok? <==> found.Some? && found.value.Map?;
    if Pipelines(config).Ok? {
      var pipelines := Pipelines(config).value;
      assert found == Some(Map(pipelines));
      forall name | name in pipelines
        ensures Restate(name, pipelines[name]).Ok? <==> WellFormed(name, pipelines[name])
        ensures Accepted(name) <==> Taken(name)
      {
        RestateOkIff(name, pipelines[name]);
      }
    }
  }

  /** A missing key, a value that is no mapping where one is needed, and pipelines that are no mapping
      are told apart. */
  lemma {:induction false} BuildErrors(config: Config, licenseKey: string)
    ensures var r := BuildExtras(config, licenseKey);
            && (r == Err("KeyError") <==>
                  && config.Map?
                  && ("service" !in config.entries
                      || (config.entries["service"].Map? && "pipelines" !in config.entries["service"].entries)))
            && (r == Err("AttributeError") <==>
                  && Lookup(config, ["service", "pipelines"]).Some?
                  && !Lookup(config, ["service", "pipelines"]).value.Map?)
            && (r.Err? ==> r.error == "KeyError" || r.error == "AttributeError" || r.error == "TypeError")
  {
    LookupTwo(config, "service", "pipelines");
  }

  lemma {:induction false} LookupTwo(c: Config, a: string, b: string)
    ensures Lookup(c, [a, b]) ==
      if c.Map? && a in c.entries && c.entries[a].Map? && b in c.entries[a].entries then Some(c.entries[a].entries[b]) else None
  {
    assert [a, b] == [a] + ([b] + []);
    LookupStep(c, a, [b] + []);
    if c.Map? && a in c.entries { LookupStep(c.entries[a], b, []); }
  }

  /** Once applied, the configuration defines the exporter, with its endpoint and the key, and the
      delta processor. */
  lemma {:induction false} ApplyDefines(config: Config, licenseKey: string)
    requires BuildExtras(config, licenseKey).Ok?
    ensures var after := Apply(config, licenseKey);
            && Lookup(after, ["exporters", "otlphttp/newrelic", "endpoint"]) == Some(Text("https://otlp.nr-data.net"))
            && Lookup(after, ["exporters", "otlphttp/newrelic", "headers", "api-key"]) == Some(Text(licenseKey))
            && Lookup(after, ["processors", "cumulativetodelta"]).Some?
            && Lookup(after, ["processors", "cumulativetodelta"]).value.Map?
  {
    var extras := BuildExtras(config, licenseKey).value;
    var endpoint, key, delta := ["exporters", EXPORTER, "endpoint"], ["exporters", EXPORTER, "headers", "api-key"], ["processors", DELTA];
    ExtrasAt(extras, licenseKey, endpoint, key, delta);
    LeafSettles(extras, endpoint);
    LeafSettles(extras, key);
    MergedAt(config, extras, endpoint);
    MergedAt(config, extras, key);
    MergedAt(config, extras, delta);
    MapDoesNotSettle(extras, delta);
  }

  lemma {:induction false} LeafSettles(c: Config, path: seq<string>)
    requires Lookup(c, path).Some? && !Lookup(c, path).value.Map?
    ensures Settles(c, path)
  {
    assert path[..|path|] == path;
  }

  lemma {:induction false} MapDoesNotSettle(c: Config, path: seq<string>)
    requires Lookup(c, path).Some? && Lookup(c, path).value.Map?
    ensures !Settles(c, path)
  {
    if path == [] {
      assert forall n :: 0 <= n <= |path| ==> path[..n] == [];
    } else {
      SettlesBelow(c, path);
      MapDoesNotSettle(c.entries[path[0]], path[1..]);
    }
  }

  lemma {:induction false} LookupStep(c: Config, key: string, rest: seq<string>)
    ensures Lookup(c, [key] + rest) == if c.Map? && key in c.entries then Lookup(c.entries[key], rest) else None
  {
    assert ([key] + rest)[1..] == rest;
  }

  lemma {:induction false} ExtrasAt(extras: Config, licenseKey: string, endpoint: seq<string>, key: seq<string>, delta: seq<string>)
    requires exists pipelines :: extras == ExtrasOver(pipelines, licenseKey)
    requires endpoint == ["exporters", EXPORTER, "endpoint"] && key == ["exporters", EXPORTER, "headers", "api-key"]
    requires delta == ["processors", DELTA]
    ensures Lookup(extras, endpoint) == Some(Text(ENDPOINT)) && Lookup(extras, key) == Some(Text(licenseKey))
    ensures Lookup(extras, delta) == Some(Map(map[]))
  {
    var exporters, processors := extras.entries["exporters"], extras.entries["processors"];
    var ours := exporters.entries[EXPORTER];
    assert endpoint == ["exporters"] + ([EXPORTER] + (["endpoint"] + []));
    assert key == ["exporters"] + ([EXPORTER] + (["headers"] + (["api-key"] + [])));
    assert delta == ["processors"] + ([DELTA] + []);
    LookupStep(extras, "exporters", [EXPORTER] + (["endpoint"] + []));
    LookupStep(exporters, EXPORTER, ["endpoint"] + []);
    LookupStep(ours, "endpoint", []);
    LookupStep(extras, "exporters", [EXPORTER] + (["headers"] + (["api-key"] + [])));
    LookupStep(exporters, EXPORTER, ["headers"] + (["api-key"] + []));
    LookupStep(ours, "headers", ["api-key"] + []);
    LookupStep(ours.entries["headers"], "api-key", []);
    LookupStep(extras, "processors", [DELTA] + []);
    LookupStep(processors, DELTA, []);
  }

  /** after still holds every entry of before whose key is not excepted. */
  predicate Keeps(before: Config, after: Config, except: set<string>) {
    before.Map? ==>
    && after.Map?
    && forall k :: k in before.entries && k !in except ==> k in after.entries && after.entries[k] == before.entries[k]
  }

  lemma {:induction false} MergeKeeps(base: Config, over: Config)
    requires over.Map?
    ensures Keeps(base, Merge(base, over), over.entries.Keys)
  {}

  /** Nothing else changes: other top-level keys, other service keys, other exporters and
      processors are as they were. */
  lemma {:induction false} ApplyLeavesTheRest(config: Config, licenseKey: string)
    requires BuildExtras(config, licenseKey).Ok?
    ensures var after := Apply(config, licenseKey);
            && after.Map? && Keeps(config, after, {"exporters", "processors", "service"})
            && "service" in after.entries && Keeps(config.entries["service"], after.entries["service"], {"pipelines"})
            && ("exporters" in config.entries ==>
                  Keeps(config.entries["exporters"], after.entries["exporters"], {EXPORTER}))
            && ("processors" in config.entries ==>
                  Keeps(config.entries["processors"], after.entries["processors"], {DELTA}))
  {
    var extras := BuildExtras(config, licenseKey).value;
    MergeKeeps(config, extras);
    forall k | k in config.entries && k in extras.entries
      ensures Keeps(config.entries[k], Merge(config.entries[k], extras.entries[k]), extras.entries[k].entries.Keys)
    {
      MergeKeeps(config.entries[k], extras.entries[k]);
    }
    assert extras.entries["service"].entries.Keys == {"pipelines"};
    assert extras.entries["exporters"].entries.Keys == {EXPORTER};
    assert extras.entries["processors"].entries.Keys == {DELTA};
  }

  /** Generating and applying the extras a second time changes nothing. */
  lemma {:induction false} ApplyIsIdempotent(config: Config, licenseKey: string)
    requires BuildExtras(config, licenseKey).Ok?
    ensures var after := Apply(config, licenseKey);
            && BuildExtras(after, licenseKey) == BuildExtras(config, licenseKey)
            && Apply(after, licenseKey) == after
  {
    var before := Pipelines(config).value;
    var after := Apply(config, licenseKey);
    ApplyPipelines(config, licenseKey);
    var pipelines := Pipelines(after).value;
    forall name | name in pipelines && Accepted(name)
      ensures Restate(name, pipelines[name]) == Restate(name, before[name])
    {
      RestateTwice(name, before[name]);
    }
    assert Restated(pipelines) == Restated(before);
    MergeAbsorbs(config, BuildExtras(config, licenseKey).value);
  }
}
