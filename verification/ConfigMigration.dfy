/** The Amazon Bedrock configuration migration
    (extensions/amazon-bedrock/config-compat.ts).

    `JsonMerge` is the simple functional view: values without identity and the merge that the
    migration is meant to compute.  `ConfigMigration` is the program: records on the heap, changed
    in place, with subtrees shared between the result and the caller's configuration. */
module JsonMerge {
  import opened ObjectPrototype

  /** A configuration value.  `Undefined` is an own property holding `undefined`; every value
      that `isRecord` rejects (numbers, strings, arrays, null) is an `Atom`. */
  datatype Json = Undefined | Atom(value: int) | Record(fields: Fields)
  type Fields = map<string, Json>

  const BLOCKED_OBJECT_KEYS := {"__proto__", "prototype", "constructor"}

  /** `existing === undefined` for `existing = target[key]`, given the own fields. */
  predicate Missing(target: Fields, key: string) {
    if key in target then target[key].Undefined? else !Inherited(key)
  }

  /** The entries of a source record that the merge looks at. */
  predicate Offers(source: Fields, key: string) {
    key in source && !source[key].Undefined? && key !in BLOCKED_OBJECT_KEYS
  }

  /** The left-biased merge: own fields of `target` stay, `source` fills what is missing, and two
      records under one key are merged in turn. */
  function Merge(target: Fields, source: Fields): Fields
    decreases Record(target)
  {
    map key |
      key in target.Keys + source.Keys && (key in target || (Offers(source, key) && Missing(target, key))) ::
      if !Offers(source, key) then target[key]
      else if Missing(target, key) then source[key]
      else if target[key].Record? && source[key].Record? then
        Record(Merge(target[key].fields, source[key].fields))
      else target[key]
  }

  /** The value found by following a path of own properties. */
  function Get(value: Json, path: seq<string>): (r: Json)
    decreases |path|
  {
    if path == [] then value
    else if value.Record? && path[0] in value.fields then Get(value.fields[path[0]], path[1..])
    else Undefined
  }

  /** How far down a path the records lead: the length of the longest way through records only. */
  function Depth(fields: Fields, path: seq<string>): (n: nat)
    ensures n <= |path|
    decreases |path|
  {
    if path != [] && path[0] in fields && fields[path[0]].Record? then
      1 + Depth(fields[path[0]].fields, path[1..])
    else 0
  }

  /** Nothing explicit stands at a path or in its way. */
  predicate IsFree(target: Fields, path: seq<string>) {
    && (forall i :: 0 <= i < |path| ==>
                      Get(Record(target), path[..i]).Record? || Get(Record(target), path[..i]).Undefined?)
    && Get(Record(target), path) == Undefined
  }

  /** Whether the merge finds its way to a free path: as far as the target's own records lead, and
      where they end, no name is blocked, and there it is not taken for an inherited property. */
  predicate NamesPass(target: Fields, path: seq<string>) {
    var n := Depth(target, path);
    && n < |path|
    && (forall j :: 0 <= j <= n ==> path[j] !in BLOCKED_OBJECT_KEYS)
    && (OwnAt(target, path[..n], path[n]) || !Inherited(path[n]))
  }

  /** An own property of the record at the end of a path. */
  predicate OwnAt(fields: Fields, path: seq<string>, key: string) {
    var parent := Get(Record(fields), path);
    parent.Record? && key in parent.fields
  }

  /** Explicit values win at every path, records stay records. */
  lemma {:induction false} ExplicitWins(target: Fields, source: Fields, path: seq<string>)
    requires Get(Record(target), path) != Undefined
    ensures var merged := Get(Record(Merge(target, source)), path);
            var explicit := Get(Record(target), path);
            if explicit.Record? then merged.Record? else merged == explicit
    decreases |path|
  {
    if path != [] {
      var key := path[0];
      if Offers(source, key) && target[key].Record? && source[key].Record? {
        assert Merge(target, source)[key] == Record(Merge(target[key].fields, source[key].fields));
        ExplicitWins(target[key].fields, source[key].fields, path[1..]);
      }
    }
  }

  lemma {:induction false} FreeEndsEarly(target: Fields, path: seq<string>)
    requires path != [] && IsFree(target, path)
    ensures Depth(target, path) < |path|
    decreases |path|
  {
    var key, rest := path[0], path[1..];
    if key in target && target[key].Record? {
      assert Get(Record(target), path) == Get(target[key], rest);
      FreeBelow(target, path);
      FreeEndsEarly(target[key].fields, rest);
    }
  }

  lemma FreeBelow(target: Fields, path: seq<string>)
    requires path != [] && IsFree(target, path) && path[0] in target && target[path[0]].Record?
    ensures IsFree(target[path[0]].fields, path[1..])
  {
    var key, rest := path[0], path[1..];
    forall i | 0 <= i < |rest|
      ensures Get(target[key], rest[..i]).Record? || Get(target[key], rest[..i]).Undefined?
    {
      assert path[..i + 1] == [key] + rest[..i];
      assert path[..i + 1][1..] == rest[..i];
    }
  }

  lemma NamesPassBelow(target: Fields, path: seq<string>)
    requires path != [] && path[0] in target && target[path[0]].Record? && Depth(target, path) < |path|
    ensures Depth(target[path[0]].fields, path[1..]) < |path[1..]|
    ensures NamesPass(target, path) <==> path[0] !in BLOCKED_OBJECT_KEYS && NamesPass(target[path[0]].fields, path[1..])
  {
    var n := Depth(target, path);
    OwnAtBelow(target, path, n, path[n]);
    BlockedBelow(path, n);
  }

  lemma OwnAtBelow(target: Fields, path: seq<string>, n: nat, key: string)
    requires 1 <= n <= |path| && path[0] in target && target[path[0]].Record?
    ensures OwnAt(target, path[..n], key) <==> OwnAt(target[path[0]].fields, path[1..][..n - 1], key)
  {
    assert path[..n][1..] == path[1..][..n - 1];
  }

  lemma BlockedBelow(path: seq<string>, n: nat)
    requires 1 <= n < |path|
    ensures (forall j :: 0 <= j <= n ==> path[j] !in BLOCKED_OBJECT_KEYS) <==>
            path[0] !in BLOCKED_OBJECT_KEYS && forall j :: 0 <= j <= n - 1 ==> path[1..][j] !in BLOCKED_OBJECT_KEYS
  {
    assert forall j :: 1 <= j <= n ==> path[j] == path[1..][j - 1];
  }

  /** What the legacy record has at a free path is found in the merge exactly when the names on the
      way pass; otherwise nothing is found there. */
  lemma {:induction false} LegacyFills(target: Fields, source: Fields, path: seq<string>)
    requires path != [] && IsFree(target, path) && Get(Record(source), path) != Undefined
    ensures Get(Record(Merge(target, source)), path) == if NamesPass(target, path) then Get(Record(source), path)
                                                        else Undefined
    decreases |path|
  {
    FreeEndsEarly(target, path);
    var key, rest := path[0], path[1..];
    if key in target && target[key].Record? {
      FreeBelow(target, path);
      NamesPassBelow(target, path);
      assert rest != [] && source[key].Record?;
      LegacyFills(target[key].fields, source[key].fields, rest);
    } else {
      assert path[..1] == [key] && path[..0] == [] && Get(Record(target), [key]) == if key in target then target[key]
                                                                                    else Undefined;
      assert OwnAt(target, path[..0], key) <==> key in target;
      assert key in target ==> target[key].Undefined?;
    }
  }

  /** Nothing is made up: every plain value of the merge is one of the two inputs' value at the
      same path. */
  lemma {:induction false} MergeInventsNothing(target: Fields, source: Fields, path: seq<string>)
    requires Get(Record(Merge(target, source)), path).Atom?
    ensures Get(Record(Merge(target, source)), path) == Get(Record(target), path) ||
            (Get(Record(Merge(target, source)), path) == Get(Record(source), path) && path[0] !in BLOCKED_OBJECT_KEYS)
    decreases |path|
  {
    var key := path[0];
    if Offers(source, key) && !Missing(target, key) && target[key].Record? && source[key].Record? {
      MergeInventsNothing(target[key].fields, source[key].fields, path[1..]);
    }
  }

  /** Merging a record into itself changes nothing. */
  lemma {:induction false} MergeSelf(fields: Fields)
    ensures Merge(fields, fields) == fields
    decreases Record(fields)
  {
    forall key | key in fields && fields[key].Record?
      ensures Merge(fields[key].fields, fields[key].fields) == fields[key].fields
    {
      MergeSelf(fields[key].fields);
    }
  }

  /** Merging the same source twice is merging it once. */
  lemma {:induction false} MergeTwice(target: Fields, source: Fields)
    ensures Merge(Merge(target, source), source) == Merge(target, source)
    decreases Record(target)
  {
    var once := Merge(target, source);
    forall key | key in once
      ensures key in Merge(once, source) && Merge(once, source)[key] == once[key]
    {
      if Offers(source, key) && source[key].Record? {
        if Missing(target, key) {
          MergeSelf(source[key].fields);
        } else if target[key].Record? {
          MergeTwice(target[key].fields, source[key].fields);
        }
      }
    }
  }

  /** So a legacy field with an inherited name is lost although nothing explicit replaces it. */
  lemma InheritedNameIsLost(target: Fields, source: Fields, key: string)
    requires key in source && !source[key].Undefined? && key !in target && Inherited(key)
    ensures Get(Record(Merge(target, source)), [key]) == Undefined
  {
    assert [key][..0] == [] && [key][1..] == [];
    assert Get(Record(source), [key]) == source[key];
    LegacyFills(target, source, [key]);
    assert !OwnAt(target, [], key);
  }

  // ----- the migration on values

  function FieldRecord(fields: Fields, key: string): Json {
    if key in fields && fields[key].Record? then fields[key] else Undefined
  }

  function RecordAt(fields: Fields, key: string): Fields {
    if key in fields && fields[key].Record? then fields[key].fields else map[]
  }

  predicate HasLegacy(raw: Json) {
    raw.Record? && "models" in raw.fields && raw.fields["models"].Record? &&
    "bedrockDiscovery" in raw.fields["models"].fields && raw.fields["models"].fields["bedrockDiscovery"].Record?
  }

  function Legacy(raw: Json): Fields
    requires HasLegacy(raw)
  {
    raw.fields["models"].fields["bedrockDiscovery"].fields
  }

  function WithoutLegacy(raw: Json): Fields
    requires HasLegacy(raw)
  {
    Pruned(raw.fields["models" := Record(raw.fields["models"].fields - {"bedrockDiscovery"})])
  }

  function Pruned(root: Fields): Fields {
    if "models" in root && root["models"] == Record(map[]) then root - {"models"} else root
  }

  /** plugins.entries.amazon-bedrock.config of a configuration, with every missing record empty. */
  function PluginConfig(root: Fields): Fields {
    RecordAt(RecordAt(RecordAt(RecordAt(root, "plugins"), "entries"), "amazon-bedrock"), "config")
  }

  function WithPluginConfig(root: Fields, config: Fields): Fields {
    var plugins := RecordAt(root, "plugins");
    var entries := RecordAt(plugins, "entries");
    var entry := RecordAt(entries, "amazon-bedrock");
    var entries' := entries["amazon-bedrock" := Record(entry["config" := Record(config)])];
    root["plugins" := Record(plugins["entries" := Record(entries')])]
  }

  function Discovery(config: Fields, legacy: Fields): Fields {
    if FieldRecord(config, "discovery").Record? then Merge(config["discovery"].fields, legacy) else legacy
  }

  function Migrated(raw: Json): Json {
    if !HasLegacy(raw) then raw
    else
      var root := WithoutLegacy(raw);
      if Legacy(raw) == map[] then Record(root)
      else
        var config := PluginConfig(root);
        Record(WithPluginConfig(root, config["discovery" := Record(Discovery(config, Legacy(raw)))]))
  }

  /** `discovery` filled in the record at the end of a path, creating the records on the way. */
  function FilledAt(fields: Fields, path: seq<string>, legacy: Fields): Fields
    decreases |path|
  {
    if path == [] then fields["discovery" := Record(Discovery(fields, legacy))]
    else fields[path[0] := Record(FilledAt(RecordAt(fields, path[0]), path[1..], legacy))]
  }

  const CONFIG_PATH := ["plugins", "entries", "amazon-bedrock", "config"]

  lemma FilledAtConfigPath(root: Fields, legacy: Fields)
    ensures FilledAt(root, CONFIG_PATH, legacy) ==
            WithPluginConfig(root, PluginConfig(root)["discovery" := Record(Discovery(PluginConfig(root), legacy))])
  {
    var plugins := RecordAt(root, "plugins");
    var entries := RecordAt(plugins, "entries");
    var entry := RecordAt(entries, "amazon-bedrock");
    assert CONFIG_PATH[1..] == ["entries", "amazon-bedrock", "config"];
    assert CONFIG_PATH[2..] == CONFIG_PATH[1..][1..] == ["amazon-bedrock", "config"];
    assert CONFIG_PATH[3..] == CONFIG_PATH[2..][1..] == ["config"];
    assert CONFIG_PATH[3..][1..] == [];
    assert FilledAt(entry, CONFIG_PATH[3..], legacy) ==
           entry["config" := Record(FilledAt(RecordAt(entry, "config"), [], legacy))];
    assert FilledAt(entries, CONFIG_PATH[2..], legacy) ==
           entries["amazon-bedrock" := Record(FilledAt(entry, CONFIG_PATH[3..], legacy))];
    assert FilledAt(plugins, CONFIG_PATH[1..], legacy) ==
           plugins["entries" := Record(FilledAt(entries, CONFIG_PATH[2..], legacy))];
  }

  /** The migrated configuration has nothing left to migrate, so a second run is the identity. */
  lemma SecondRunIsIdentity(raw: Json)
    ensures !HasLegacy(Migrated(raw))
    ensures Migrated(Migrated(raw)) == Migrated(raw)
  {
    if HasLegacy(raw) {
      var root := WithoutLegacy(raw);
      assert "models" in root ==> root["models"].Record? && "bedrockDiscovery" !in root["models"].fields;
      assert "models" in Migrated(raw).fields ==> "models" in root && Migrated(raw).fields["models"] == root["models"];
    }
  }

  const DISCOVERY_PATH := ["plugins", "entries", "amazon-bedrock", "config", "discovery"]

  lemma {:induction false} PluginConfigAt(root: Fields, key: string)
    ensures Get(Record(root), ["plugins", "entries", "amazon-bedrock", "config", key]) ==
            if key in PluginConfig(root) then PluginConfig(root)[key] else Undefined
  {
    var path := ["plugins", "entries", "amazon-bedrock", "config", key];
    assert path[1..] == ["entries", "amazon-bedrock", "config", key];
    assert path[1..][1..] == ["amazon-bedrock", "config", key];
    assert path[1..][1..][1..] == ["config", key];
    assert path[1..][1..][1..][1..] == [key];
    assert path[1..][1..][1..][1..][1..] == [];
    var plugins := RecordAt(root, "plugins");
    var entries := RecordAt(plugins, "entries");
    var entry := RecordAt(entries, "amazon-bedrock");
    var config := RecordAt(entry, "config");
    assert config == PluginConfig(root);
    assert Get(Record(config), [key]) == if key in config then config[key] else Undefined;
    assert Get(Record(entry), path[1..][1..][1..]) == Get(Record(config), [key]);
    assert Get(Record(entries), path[1..][1..]) == Get(Record(entry), path[1..][1..][1..]);
    assert Get(Record(plugins), path[1..]) == Get(Record(entries), path[1..][1..]);
  }

  /** What the migration does to the plugin's configuration: only its discovery record changes. */
  lemma MigratedPluginConfig(raw: Json)
    requires HasLegacy(raw)
    ensures Migrated(raw).Record?
    ensures PluginConfig(Migrated(raw).fields) ==
            if Legacy(raw) == map[] then PluginConfig(raw.fields)
            else PluginConfig(raw.fields)["discovery" := Record(Discovery(PluginConfig(raw.fields), Legacy(raw)))]
  {
    assert RecordAt(WithoutLegacy(raw), "plugins") == RecordAt(raw.fields, "plugins");
  }

  /** Every value given explicitly under the plugin's discovery record is still there after the
      migration, unchanged. */
  lemma MigrationKeepsExplicit(raw: Json, path: seq<string>)
    requires HasLegacy(raw)
    requires FieldRecord(PluginConfig(raw.fields), "discovery").Record?
    requires Get(PluginConfig(raw.fields)["discovery"], path).Atom?
    ensures Migrated(raw).Record? && "discovery" in PluginConfig(Migrated(raw).fields)
    ensures Get(PluginConfig(Migrated(raw).fields)["discovery"], path) ==
            Get(PluginConfig(raw.fields)["discovery"], path)
  {
    var config := PluginConfig(raw.fields);
    MigratedPluginConfig(raw);
    ExplicitWins(config["discovery"].fields, Legacy(raw), path);
  }

  /** The place of a legacy value under the explicit discovery record, if there is one, is free. */
  predicate Free(config: Fields, path: seq<string>) {
    FieldRecord(config, "discovery").Record? ==> IsFree(FieldRecord(config, "discovery").fields, path)
  }

  /** Without an explicit discovery record the legacy one is taken as a whole; otherwise the names on
      the way must pass. */
  predicate Reaches(config: Fields, path: seq<string>) {
    FieldRecord(config, "discovery").Record? ==> NamesPass(FieldRecord(config, "discovery").fields, path)
  }

  lemma DiscoveryMovesLegacy(config: Fields, legacy: Fields, path: seq<string>)
    requires path != [] && Get(Record(legacy), path) != Undefined && Free(config, path)
    ensures Get(Record(Discovery(config, legacy)), path) == if Reaches(config, path) then Get(Record(legacy), path)
                                                            else Undefined
  {
    var discovery := FieldRecord(config, "discovery");
    if discovery.Record? {
      assert Discovery(config, legacy) == Merge(discovery.fields, legacy);
      LegacyFills(discovery.fields, legacy, path);
    }
  }

  /** Every legacy value whose place is free is found under the plugin's discovery record exactly when
      it reaches it; otherwise it is lost. */
  lemma MigrationMovesLegacy(raw: Json, path: seq<string>)
    requires HasLegacy(raw) && path != [] && Free(PluginConfig(raw.fields), path)
    requires Get(Record(Legacy(raw)), path) != Undefined
    ensures Migrated(raw).Record? && "discovery" in PluginConfig(Migrated(raw).fields)
    ensures Get(PluginConfig(Migrated(raw).fields)["discovery"], path) ==
            if Reaches(PluginConfig(raw.fields), path) then Get(Record(Legacy(raw)), path) else Undefined
  {
    MigratedPluginConfig(raw);
    assert Legacy(raw) != map[];
    DiscoveryMovesLegacy(PluginConfig(raw.fields), Legacy(raw), path);
  }

  /** A value under the target key that is not a record is not kept: it is replaced as a whole. */
  lemma NonRecordDiscoveryIsReplaced(raw: Json)
    requires HasLegacy(raw) && Legacy(raw) != map[]
    requires !FieldRecord(PluginConfig(raw.fields), "discovery").Record?
    ensures Get(Migrated(raw), DISCOVERY_PATH) == Record(Legacy(raw))
  {
    assert RecordAt(WithoutLegacy(raw), "plugins") == RecordAt(raw.fields, "plugins");
    PluginConfigAt(Migrated(raw).fields, "discovery");
  }

  /** What is migrated: a record under models.bedrockDiscovery. */
  lemma {:induction false} HasLegacyExactly(raw: Json)
    ensures HasLegacy(raw) <==> Get(raw, ["models", "bedrockDiscovery"]).Record?
  {
    assert ["models", "bedrockDiscovery"][1..] == ["bedrockDiscovery"] && ["bedrockDiscovery"][1..] == [];
  }

  /** The models record loses the legacy key and nothing else, and goes exactly when nothing else was
      in it. */
  lemma ModelsExactly(raw: Json)
    requires HasLegacy(raw)
    ensures var models, root := raw.fields["models"].fields, Migrated(raw).fields;
            && ("models" in root <==> exists key :: key in models && key != "bedrockDiscovery")
            && ("models" in root ==> root["models"] == Record(models - {"bedrockDiscovery"}))
  {
    var models := raw.fields["models"].fields;
    var rest := models - {"bedrockDiscovery"};
    assert forall key :: key in rest <==> key in models && key != "bedrockDiscovery";
    assert rest == map[] <==> forall key :: key !in rest;
  }

  /** The paths part ways. */
  predicate Diverge(p: seq<string>, q: seq<string>)
    decreases |p|
  {
    p != [] && q != [] && (p[0] != q[0] || Diverge(p[1..], q[1..]))
  }

  lemma {:induction false} FilledElsewhere(fields: Fields, path: seq<string>, legacy: Fields, other: seq<string>)
    requires Diverge(path + ["discovery"], other)
    ensures Get(Record(FilledAt(fields, path, legacy)), other) == Get(Record(fields), other)
    decreases |path|
  {
    if path != [] {
      assert (path + ["discovery"])[0] == path[0] && (path + ["discovery"])[1..] == path[1..] + ["discovery"];
      if other[0] == path[0] {
        FilledElsewhere(RecordAt(fields, path[0]), path[1..], legacy, other[1..]);
      }
    }
  }

  /** At every path outside models that does not lead to the plugin's discovery record the migrated
      configuration is as it was. */
  lemma {:induction false} OnlyDiscoveryChanges(raw: Json, path: seq<string>)
    requires HasLegacy(raw) && path != [] && path[0] != "models" && Diverge(DISCOVERY_PATH, path)
    ensures Get(Migrated(raw), path) == Get(raw, path)
  {
    var root := WithoutLegacy(raw);
    assert Get(Record(root), path) == Get(raw, path);
    FilledAtConfigPath(root, Legacy(raw));
    assert CONFIG_PATH + ["discovery"] == DISCOVERY_PATH;
    FilledElsewhere(root, CONFIG_PATH, Legacy(raw), path);
  }

  /** Nothing comes of a field with one of the three blocked names. */
  lemma {:induction false} BlockedNamesAreSkipped(target: Fields, source: Fields, key: string)
    requires key in ["__proto__", "prototype", "constructor"]
    ensures key in Merge(target, source) <==> key in target
    ensures key in target ==> Merge(target, source)[key] == target[key]
  {
  }

  /** Nothing outside models and plugins changes, nor any other key of models. */
  lemma MigrationLeavesTheRest(raw: Json, key: string)
    requires HasLegacy(raw)
    ensures key != "models" && key != "plugins" ==>
              (key in Migrated(raw).fields <==> key in raw.fields) &&
              (key in raw.fields ==> Migrated(raw).fields[key] == raw.fields[key])
    ensures key != "bedrockDiscovery" ==>
              Get(Migrated(raw), ["models", key]) == Get(raw, ["models", key])
  {
    assert ["models", key][1..] == [key];
    assert [key][1..] == [];
    var models := raw.fields["models"].fields - {"bedrockDiscovery"};
    assert key != "bedrockDiscovery" ==> (key in models <==> key in raw.fields["models"].fields);
    assert models == map[] ==> key !in models;
    var root := WithoutLegacy(raw);
    assert "models" in Migrated(raw).fields <==> "models" in root;
    assert "models" in root ==> Migrated(raw).fields["models"] == root["models"];
  }
}

module ConfigMigration {
  import opened JsonMerge
  import opened ObjectPrototype

  datatype Value = Undef | Plain(value: int) | Object(rec: Rec)

  /** A JavaScript object: own properties that any holder of a reference may change. */
  class Rec {
    var fields: map<string, Value>

    constructor (fields: map<string, Value>)
      ensures this.fields == fields
    {
      this.fields := fields;
    }
  }

  /** The layout of a value on the heap: which record stands at which place, and a set `refs` that
      bounds the records at and below it. */
  datatype Shape = AtUndef | AtPlain(value: int) | At(rec: Rec, refs: set<Rec>, kids: map<string, Shape>)

  function Refs(s: Shape): set<Rec> {
    if s.At? then s.refs else {}
  }

  function ValueOf(s: Shape): Value {
    match s
    case AtUndef => Undef
    case AtPlain(value) => Plain(value)
    case At(rec, _, _) => Object(rec)
  }

  /** No record stands at two places. */
  ghost predicate IsTree(s: Shape) {
    s.At? ==>
      && s.rec in s.refs
      && (forall key | key in s.kids :: IsTree(s.kids[key]))
      && (forall key | key in s.kids :: Refs(s.kids[key]) <= s.refs - {s.rec})
      && (forall key, key' | key in s.kids && key' in s.kids && key != key' ::
            Refs(s.kids[key]) !! Refs(s.kids[key']))
  }

  /** The heap agrees with the layout. */
  ghost predicate Holds(s: Shape)
    reads Refs(s)
  {
    s.At? ==>
      && s.rec in s.refs
      && s.rec.fields.Keys == s.kids.Keys
      && (forall key | key in s.kids :: s.rec.fields[key] == ValueOf(s.kids[key]))
      && (forall key | key in s.kids :: Refs(s.kids[key]) <= s.refs && Holds(s.kids[key]))
  }

  /** The value a layout stands for, without identities. */
  ghost function Erase(s: Shape): Json {
    match s
    case AtUndef => Undefined
    case AtPlain(value) => Atom(value)
    case At(_, _, kids) => Record(map key | key in kids :: Erase(kids[key]))
  }

  ghost function FieldsOf(s: Shape): Fields
    requires s.At?
  {
    Erase(s).fields
  }

  ghost predicate IsRecordTree(rec: Rec, s: Shape)
    reads Refs(s)
  {
    s.At? && s.rec == rec && Holds(s) && IsTree(s)
  }

  function Put(s: Shape, key: string, kid: Shape): Shape
    requires s.At?
  {
    At(s.rec, s.refs + Refs(kid), s.kids[key := kid])
  }

  /** The heap agrees with the layout everywhere but at and below one field. */
  ghost predicate HoldsBeside(s: Shape, key: string)
    requires s.At? && IsTree(s)
    reads Refs(s)
  {
    && s.rec.fields.Keys + {key} == s.kids.Keys + {key}
    && forall other | other in s.kids && other != key ::
         s.rec.fields[other] == ValueOf(s.kids[other]) && Holds(s.kids[other])
  }

  /** `rec[key] = value`, where the value's records stand nowhere else under `rec`. */
  method PutField(rec: Rec, key: string, value: Value, ghost s: Shape, ghost kid: Shape)
    requires s.At? && s.rec == rec && IsTree(s) && HoldsBeside(s, key)
    requires ValueOf(kid) == value && Holds(kid) && IsTree(kid) && rec !in Refs(kid)
    requires forall key' | key' in s.kids && key' != key :: Refs(s.kids[key']) !! Refs(kid)
    modifies rec
    ensures IsRecordTree(rec, Put(s, key, kid))
  {
    PutIsTree(s, key, kid);
    rec.fields := rec.fields[key := value];
    assert HoldsBeside(s, key) by {
      forall key' | key' in s.kids && key' != key
        ensures Holds(s.kids[key'])
      {
        assert rec !in Refs(s.kids[key']);
      }
    }
    PutHolds(s, key, kid);
  }

  lemma PutHolds(s: Shape, key: string, kid: Shape)
    requires s.At? && IsTree(s) && HoldsBeside(s, key)
    requires key in s.rec.fields && s.rec.fields[key] == ValueOf(kid) && Holds(kid)
    ensures Holds(Put(s, key, kid))
  {
  }

  lemma PutIsTree(s: Shape, key: string, kid: Shape)
    requires s.At? && IsTree(s) && IsTree(kid) && s.rec !in Refs(kid)
    requires forall key' | key' in s.kids && key' != key :: Refs(s.kids[key']) !! Refs(kid)
    ensures IsTree(Put(s, key, kid))
  {
  }

  /** `{ ...record }`: a new record whose nested records are the same objects as before. */
  method CloneRecord(rec: Rec, ghost s: Shape) returns (copy: Rec, ghost c: Shape)
    requires IsRecordTree(rec, s)
    ensures fresh(copy) && c == At(copy, {copy} + (s.refs - {rec}), s.kids)
    ensures IsRecordTree(copy, c) && FieldsOf(c) == FieldsOf(s)
  {
    copy := new Rec(rec.fields);
    c := At(copy, {copy} + (s.refs - {rec}), s.kids);
  }

  /** `structuredClone` of a configuration tree: a copy that shares no record with it. */
  method StructuredClone(value: Value, ghost s: Shape) returns (copy: Value, ghost c: Shape)
    requires ValueOf(s) == value && Holds(s) && IsTree(s)
    ensures ValueOf(c) == copy && Holds(c) && IsTree(c) && fresh(Refs(c))
    ensures Erase(c) == Erase(s)
    decreases s, 2
  {
    if value.Object? {
      var rec;
      rec, c := CloneFields(value.rec, s);
      copy := Object(rec);
    } else {
      copy, c := value, s;
    }
  }

  method CloneFields(rec: Rec, ghost s: Shape) returns (copy: Rec, ghost c: Shape)
    requires IsRecordTree(rec, s)
    ensures IsRecordTree(copy, c) && fresh(Refs(c))
    ensures Erase(c) == Erase(s)
    decreases s, 1
  {
    copy := new Rec(map[]);
    c := At(copy, {copy}, map[]);
    var todo := rec.fields.Keys;
    while todo != {}
      invariant todo <= rec.fields.Keys && fresh(copy) && copy !in Refs(s)
      invariant fresh(Refs(c)) && CloneInvariant(rec, copy, s, c, todo)
      decreases todo
    {
      var key :| key in todo;
      c := CloneField(rec, key, copy, s, c, todo);
      todo := todo - {key};
    }
    SameFields(c, s);
  }

  ghost predicate CloneInvariant(rec: Rec, copy: Rec, s: Shape, c: Shape, todo: set<string>)
    reads Refs(s), Refs(c)
  {
    IsRecordTree(rec, s) && IsRecordTree(copy, c) && c.kids.Keys == s.kids.Keys - todo &&
    forall key | key in c.kids :: SameValue(c.kids[key], s.kids[key])
  }

  method CloneField(rec: Rec, key: string, copy: Rec, ghost s: Shape, ghost c: Shape, ghost todo: set<string>)
    returns (ghost c': Shape)
    requires CloneInvariant(rec, copy, s, c, todo) && copy !in Refs(s) && key in todo && key in rec.fields
    modifies copy
    ensures CloneInvariant(rec, copy, s, c', todo - {key}) && fresh(Refs(c') - Refs(c)) &&
            copy.fields.Keys == old(copy.fields.Keys) + {key}
    decreases s, 0
  {
    var value, kid := StructuredClone(rec.fields[key], s.kids[key]);
    PutField(copy, key, value, c, kid);
    c' := Put(c, key, kid);
    assert IsRecordTree(rec, s);
    NextField(c, kid, s, key, todo);
  }

  lemma NextField(c: Shape, kid: Shape, s: Shape, key: string, todo: set<string>)
    requires c.At? && s.At? && c.kids.Keys == s.kids.Keys - todo && key in todo && key in s.kids
    requires Erase(kid) == Erase(s.kids[key])
    requires forall other | other in c.kids :: SameValue(c.kids[other], s.kids[other])
    ensures Put(c, key, kid).kids.Keys == s.kids.Keys - (todo - {key})
    ensures forall other | other in Put(c, key, kid).kids :: SameValue(Put(c, key, kid).kids[other], s.kids[other])
  {
  }

  lemma SameFields(c: Shape, s: Shape)
    requires c.At? && s.At? && c.kids.Keys == s.kids.Keys
    requires forall key | key in c.kids :: SameValue(c.kids[key], s.kids[key])
    ensures Erase(c) == Erase(s)
  {
    forall key | key in c.kids
      ensures Erase(c.kids[key]) == Erase(s.kids[key])
    {
      assert SameValue(c.kids[key], s.kids[key]);
    }
    assert (map key | key in c.kids :: Erase(c.kids[key])) == map key | key in s.kids :: Erase(s.kids[key]);
  }

  ghost predicate SameValue(c: Shape, s: Shape) {
    Erase(c) == Erase(s)
  }

  lemma FieldAt(s: Shape, key: string)
    requires s.At?
    ensures key in FieldsOf(s) <==> key in s.kids
    ensures key in s.kids ==> FieldsOf(s)[key] == Erase(s.kids[key])
    ensures FieldRecord(FieldsOf(s), key) == if key in s.kids && s.kids[key].At? then Erase(s.kids[key]) else Undefined
    ensures RecordAt(FieldsOf(s), key) == if key in s.kids && s.kids[key].At? then FieldsOf(s.kids[key]) else map[]
  {
    if key in s.kids {
      assert FieldsOf(s)[key] == Erase(s.kids[key]);
    }
  }

  /** `root[key]` if that is a record, and a new empty record put there otherwise. */
  method EnsureRecord(root: Rec, key: string, ghost s: Shape) returns (child: Rec, ghost s': Shape)
    requires IsRecordTree(root, s)
    modifies root
    ensures IsRecordTree(root, s') && key in s'.kids && IsRecordTree(child, s'.kids[key])
    ensures FieldsOf(s'.kids[key]) == RecordAt(FieldsOf(s), key)
    ensures FieldsOf(s') == FieldsOf(s)[key := Record(RecordAt(FieldsOf(s), key))]
    ensures fresh(Refs(s') - Refs(s))
  {
    FieldAt(s, key);
    if key in root.fields && root.fields[key].Object? {
      child := root.fields[key].rec;
      s' := s;
      assert FieldsOf(s')[key] == Erase(s.kids[key]) == Record(RecordAt(FieldsOf(s), key));
      assert FieldsOf(s') == FieldsOf(s)[key := FieldsOf(s')[key]];
    } else {
      child := new Rec(map[]);
      ghost var kid := At(child, {child}, map[]);
      assert Erase(kid) == Record(RecordAt(FieldsOf(s), key));
      PutField(root, key, Object(child), s, kid);
      s' := Put(s, key, kid);
      ErasePut(s, key, kid);
    }
  }

  /** `existing === undefined` on the heap. */
  predicate Absent(fields: map<string, Value>, key: string) {
    if key in fields then fields[key].Undef? else !Inherited(key)
  }

  /** The loop invariant of `MergeMissing` for one key: only merged records stand there, and the
      place is untouched while the key is to do. */
  ghost predicate KidPlaced(t: Shape, s: Shape, kids: map<string, Shape>, todo: set<string>, key: string)
    requires t.At? && s.At? && key in kids
  {
    && Refs(kids[key]) <= (if key in t.kids then Refs(t.kids[key]) else {}) +
                          (if key in s.kids then Refs(s.kids[key]) else {})
    && (key in todo ==> key in t.kids && kids[key] == t.kids[key])
  }

  /** The merge of `s` into `t` with the keys in `todo` left out. */
  ghost function MergedSoFar(t: Fields, s: Fields, todo: set<string>): Fields {
    Merge(t, s - todo)
  }

  /** The layout part of the loop invariant: `t'` is `t` with all of `s` outside `todo` merged in. */
  ghost predicate MergedLayout(t: Shape, s: Shape, t': Shape, todo: set<string>) {
    && t.At? && s.At? && t'.At?
    && Refs(t') <= Refs(t) + Refs(s)
    && (forall key | key in t'.kids :: KidPlaced(t, s, t'.kids, todo, key))
    && FieldsOf(t') == MergedSoFar(FieldsOf(t), FieldsOf(s), todo)
  }

  ghost predicate MergeInvariant(target: Rec, source: Rec, t: Shape, s: Shape, t': Shape, todo: set<string>)
    reads Refs(t'), Refs(s)
  {
    IsRecordTree(target, t') && IsRecordTree(source, s) && MergedLayout(t, s, t', todo)
  }

  /** The merge in place.  Entries of `source` are visited in any order; values that are filled in
      are shared with `source`, whose records are never written. */
  method MergeMissing(target: Rec, source: Rec, ghost t: Shape, ghost s: Shape) returns (ghost t': Shape)
    requires IsRecordTree(target, t) && IsRecordTree(source, s) && Refs(t) !! Refs(s)
    modifies Refs(t)
    ensures IsRecordTree(target, t') && Refs(t') <= Refs(t) + Refs(s)
    ensures Erase(t') == Record(Merge(FieldsOf(t), FieldsOf(s)))
    decreases s, 2
  {
    t' := t;
    var todo := source.fields.Keys;
    MergeNothing(FieldsOf(t), FieldsOf(s), todo);
    assert MergeInvariant(target, source, t, s, t', todo);
    while todo != {}
      invariant todo <= source.fields.Keys && MergeInvariant(target, source, t, s, t', todo)
      decreases todo
    {
      var key :| key in todo;
      t' := MergeEntry(target, source, key, t, s, t', todo);
      todo := todo - {key};
    }
    assert FieldsOf(s) - todo == FieldsOf(s);
  }

  /** `target[key] = value` where the target has nothing under the key. */
  method FillEntry(target: Rec, source: Rec, key: string, ghost t: Shape, ghost s: Shape, ghost before: Shape,
                   ghost todo: set<string>)
    returns (ghost after: Shape)
    requires t.At? && s.At? && t.rec == target && IsTree(t) && Refs(t) !! Refs(s)
    requires MergeInvariant(target, source, t, s, before, todo) && key in todo && key in source.fields
    requires Absent(target.fields, key) && !source.fields[key].Undef? && key !in BLOCKED_OBJECT_KEYS
    modifies Refs(t)
    ensures MergeInvariant(target, source, t, s, after, todo - {key})
  {
    KidsApart(t, s, before.kids, todo, key);
    PutField(target, key, source.fields[key], before, s.kids[key]);
    assert IsRecordTree(source, s);
    EntryFilled(t, s, before, todo, key);
    after := Put(before, key, s.kids[key]);
  }

  /** One turn of the loop in `MergeMissing`. */
  method MergeEntry(target: Rec, source: Rec, key: string, ghost t: Shape, ghost s: Shape, ghost before: Shape,
                    ghost todo: set<string>)
    returns (ghost after: Shape)
    requires t.At? && s.At? && t.rec == target && IsTree(t) && Refs(t) !! Refs(s)
    requires MergeInvariant(target, source, t, s, before, todo) && key in todo && key in source.fields
    modifies Refs(t)
    ensures MergeInvariant(target, source, t, s, after, todo - {key})
    decreases s, 1
  {
    var value := source.fields[key];
    after := before;
    if value.Undef? || key in BLOCKED_OBJECT_KEYS {
      EntrySkipped(t, s, before, todo, key);
    } else if Absent(target.fields, key) {
      after := FillEntry(target, source, key, t, s, before, todo);
    } else if key in target.fields && target.fields[key].Object? && value.Object? {
      ghost var kid := MergeInto(target, source, key, t, s, before, todo);
      after := Put(before, key, kid);
    } else {
      EntrySkipped(t, s, before, todo, key);
    }
  }

  lemma EntryLookup(t: Shape, s: Shape, before: Shape, todo: set<string>, key: string)
    requires MergedLayout(t, s, before, todo) && key in todo && key in s.kids
    ensures key in before.kids <==> key in FieldsOf(t)
    ensures key in before.kids ==>
              key in t.kids && before.kids[key] == t.kids[key] && FieldsOf(t)[key] == Erase(before.kids[key])
    ensures FieldsOf(s)[key] == Erase(s.kids[key])
  {
    MergeStep(FieldsOf(t), FieldsOf(s), todo, key);
    assert key in before.kids <==> key in FieldsOf(before);
    assert key in before.kids ==> KidPlaced(t, s, before.kids, todo, key);
  }

  lemma EntrySkipped(t: Shape, s: Shape, before: Shape, todo: set<string>, key: string)
    requires MergedLayout(t, s, before, todo) && key in todo && key in s.kids
    requires var value := s.kids[key];
             || value.AtUndef? || key in BLOCKED_OBJECT_KEYS
             || (key in before.kids && !before.kids[key].AtUndef? && !(before.kids[key].At? && value.At?))
             || (key !in before.kids && Inherited(key))
    ensures MergedLayout(t, s, before, todo - {key})
  {
    EntryLookup(t, s, before, todo, key);
    MergeStep(FieldsOf(t), FieldsOf(s), todo, key);
    StillPlaced(t, s, before.kids, todo, key);
  }

  lemma EntryFilled(t: Shape, s: Shape, before: Shape, todo: set<string>, key: string)
    requires MergedLayout(t, s, before, todo) && key in todo && key in s.kids && IsTree(s)
    requires !s.kids[key].AtUndef? && key !in BLOCKED_OBJECT_KEYS
    requires if key in before.kids then before.kids[key].AtUndef? else !Inherited(key)
    ensures MergedLayout(t, s, Put(before, key, s.kids[key]), todo - {key})
  {
    EntryLookup(t, s, before, todo, key);
    MergeStep(FieldsOf(t), FieldsOf(s), todo, key);
    StillPlaced(t, s, before.kids, todo, key);
    ErasePut(before, key, s.kids[key]);
  }

  lemma EntryMerged(t: Shape, s: Shape, before: Shape, todo: set<string>, key: string, kid: Shape)
    requires MergedLayout(t, s, before, todo) && key in todo && key in s.kids && IsTree(s)
    requires key !in BLOCKED_OBJECT_KEYS && key in before.kids && before.kids[key].At? && s.kids[key].At?
    requires Refs(kid) <= Refs(before.kids[key]) + Refs(s.kids[key])
    requires IsTree(before) && Erase(kid) == Record(Merge(FieldsOf(before.kids[key]), FieldsOf(s.kids[key])))
    ensures MergedLayout(t, s, Put(before, key, kid), todo - {key})
  {
    EntryLookup(t, s, before, todo, key);
    MergeStep(FieldsOf(t), FieldsOf(s), todo, key);
    StillPlaced(t, s, before.kids, todo, key);
    ErasePut(before, key, kid);
  }

  method MergeInto(target: Rec, source: Rec, key: string, ghost t: Shape, ghost s: Shape, ghost before: Shape,
                   ghost todo: set<string>)
    returns (ghost kid: Shape)
    requires t.At? && s.At? && t.rec == target && IsTree(t) && Refs(t) !! Refs(s)
    requires MergeInvariant(target, source, t, s, before, todo) && key in todo && key !in BLOCKED_OBJECT_KEYS
    requires key in target.fields && target.fields[key].Object? && key in source.fields && source.fields[key].Object?
    modifies Refs(t)
    ensures MergeInvariant(target, source, t, s, Put(before, key, kid), todo - {key})
    decreases s, 0
  {
    KidsApart(t, s, before.kids, todo, key);
    kid := MergeField(target, source.fields[key].rec, key, before, s.kids[key]);
    EntryMerged(t, s, before, todo, key, kid);
    assert IsRecordTree(source, s);
  }

  /** Merging into the record under one key leaves the records under the other keys alone. */
  method MergeField(target: Rec, source: Rec, key: string, ghost t: Shape, ghost s: Shape) returns (ghost kid: Shape)
    requires IsRecordTree(target, t) && IsRecordTree(source, s)
    requires key in t.kids && t.kids[key].At? && target !in Refs(s) && Refs(t.kids[key]) !! Refs(s)
    requires forall key' | key' in t.kids && key' != key :: Refs(t.kids[key']) !! Refs(s)
    modifies Refs(t.kids[key])
    ensures IsRecordTree(target, Put(t, key, kid)) && Refs(kid) <= Refs(t.kids[key]) + Refs(s)
    ensures Erase(kid) == Record(Merge(FieldsOf(t.kids[key]), FieldsOf(s)))
    decreases s, 3
  {
    kid := MergeMissing(target.fields[key].rec, source, t.kids[key], s);
    PutIsTree(t, key, kid);
    forall key' | key' in t.kids && key' != key
      ensures Holds(t.kids[key'])
    {
      assert Refs(t.kids[key']) !! Refs(t.kids[key]);
    }
  }

  lemma KidsApart(t: Shape, s: Shape, kids: map<string, Shape>, todo: set<string>, key: string)
    requires t.At? && s.At? && IsTree(t) && IsTree(s) && Refs(t) !! Refs(s)
    requires forall key | key in kids :: KidPlaced(t, s, kids, todo, key)
    requires key in todo && key in s.kids
    ensures t.rec !in Refs(s.kids[key]) && (key in kids ==> Refs(kids[key]) !! Refs(s) && Refs(kids[key]) <= Refs(t))
    ensures forall key' | key' in kids && key' != key :: Refs(kids[key']) !! Refs(s.kids[key])
  {
    forall key' | key' in kids && key' != key
      ensures Refs(kids[key']) !! Refs(s.kids[key])
    {
      assert KidPlaced(t, s, kids, todo, key');
    }
  }

  lemma StillPlaced(t: Shape, s: Shape, kids: map<string, Shape>, todo: set<string>, key: string)
    requires t.At? && s.At?
    requires forall key | key in kids :: KidPlaced(t, s, kids, todo, key)
    ensures forall key' | key' in kids :: KidPlaced(t, s, kids, todo - {key}, key')
  {
    forall key' | key' in kids
      ensures KidPlaced(t, s, kids, todo - {key}, key')
    {
      assert KidPlaced(t, s, kids, todo, key');
    }
  }

  lemma ErasePut(s: Shape, key: string, kid: Shape)
    requires s.At?
    ensures FieldsOf(Put(s, key, kid)) == FieldsOf(s)[key := Erase(kid)]
  {
  }

  lemma MergeNothing(t: Fields, s: Fields, todo: set<string>)
    requires s.Keys <= todo
    ensures MergedSoFar(t, s, todo) == t
  {
  }

  /** What handling one more key does to the merge so far. */
  lemma MergeStep(t: Fields, s: Fields, todo: set<string>, key: string)
    requires key in todo && key in s
    ensures var before, after := MergedSoFar(t, s, todo), MergedSoFar(t, s, todo - {key});
            && (key in before <==> key in t) && (key in t ==> before[key] == t[key])
            && after == if !Offers(s, key) then before
                        else if Missing(t, key) then before[key := s[key]]
                        else if key in t && t[key].Record? && s[key].Record? then
                          before[key := Record(Merge(t[key].fields, s[key].fields))]
                        else before
  {
    var rest := todo - {key};
    forall other | other != key
      ensures other in MergedSoFar(t, s, todo) <==> other in MergedSoFar(t, s, rest)
      ensures other in MergedSoFar(t, s, todo) ==> MergedSoFar(t, s, todo)[other] == MergedSoFar(t, s, rest)[other]
    {
      assert other in s - todo <==> other in s - rest;
    }
  }

  // ----- the migration

  /** A copy of the explicit discovery record with the legacy record merged in.  The records below
      it are still those of `config`, so they change here. */
  method MergedDiscovery(config: Rec, key: string, legacy: Rec, ghost s: Shape, ghost l: Shape)
    returns (merged: Rec, ghost m: Shape)
    requires IsRecordTree(config, s) && IsRecordTree(legacy, l) && Refs(s) !! Refs(l)
    requires key in s.kids && s.kids[key].At?
    modifies Refs(s) - {config}
    ensures IsRecordTree(merged, m) && HoldsBeside(s, key) && config !in Refs(m)
    ensures fresh(merged) && Refs(m) <= {merged} + Refs(s.kids[key]) + Refs(l)
    ensures FieldsOf(m) == Merge(FieldsOf(s.kids[key]), FieldsOf(l))
  {
    ghost var c;
    merged, c := CloneBeside(config, key, legacy, s, l);
    m := MergeMissing(merged, legacy, c, l);
  }

  /** `CloneRecord` of the record under a key. */
  method CloneBeside(config: Rec, key: string, legacy: Rec, ghost s: Shape, ghost l: Shape)
    returns (copy: Rec, ghost c: Shape)
    requires IsRecordTree(config, s) && IsRecordTree(legacy, l) && Refs(s) !! Refs(l)
    requires key in s.kids && s.kids[key].At?
    ensures fresh(copy) && IsRecordTree(copy, c) && FieldsOf(c) == FieldsOf(s.kids[key])
    ensures Refs(c) <= {copy} + Refs(s.kids[key]) && config !in Refs(c) && Refs(c) !! Refs(l)
    ensures forall other | other in s.kids && other != key :: Refs(s.kids[other]) !! Refs(c)
  {
    copy, c := CloneRecord(config.fields[key].rec, s.kids[key]);
  }

  /** `config.discovery` set to the legacy record, merged under the explicit one if there is one. */
  method MoveDiscovery(config: Rec, legacy: Rec, ghost s: Shape, ghost l: Shape) returns (ghost s': Shape)
    requires IsRecordTree(config, s) && IsRecordTree(legacy, l) && Refs(s) !! Refs(l)
    modifies Refs(s)
    ensures IsRecordTree(config, s') && fresh(Refs(s') - Refs(s) - Refs(l))
    ensures FieldsOf(s') == FieldsOf(s)["discovery" := Record(Discovery(FieldsOf(s), FieldsOf(l)))]
  {
    var discovery, d := NewDiscovery(config, legacy, s, l);
    PutField(config, "discovery", Object(discovery), s, d);
    s' := Put(s, "discovery", d);
    ErasePut(s, "discovery", d);
  }

  /** The record that becomes `config.discovery`; it stands nowhere else under `config`. */
  method NewDiscovery(config: Rec, legacy: Rec, ghost s: Shape, ghost l: Shape) returns (discovery: Rec, ghost d: Shape)
    requires IsRecordTree(config, s) && IsRecordTree(legacy, l) && Refs(s) !! Refs(l)
    modifies Refs(s) - {config}
    ensures IsRecordTree(discovery, d) && HoldsBeside(s, "discovery") && config !in Refs(d)
    ensures fresh(Refs(d) - Refs(s) - Refs(l))
    ensures forall other | other in s.kids && other != "discovery" :: Refs(s.kids[other]) !! Refs(d)
    ensures FieldsOf(d) == Discovery(FieldsOf(s), FieldsOf(l))
  {
    FieldAt(s, "discovery");
    if "discovery" in config.fields && config.fields["discovery"].Object? {
      discovery, d := MergedDiscovery(config, "discovery", legacy, s, l);
    } else {
      discovery, d := CloneRecord(legacy, l);
    }
  }

  /** `EnsureRecord` while the legacy record stands elsewhere. */
  method EnsureBeside(root: Rec, key: string, legacy: Rec, ghost s: Shape, ghost l: Shape)
    returns (child: Rec, ghost s': Shape)
    requires IsRecordTree(root, s) && IsRecordTree(legacy, l) && Refs(s) !! Refs(l)
    modifies root
    ensures IsRecordTree(root, s') && key in s'.kids && IsRecordTree(child, s'.kids[key])
    ensures FieldsOf(s'.kids[key]) == RecordAt(FieldsOf(s), key)
    ensures FieldsOf(s') == FieldsOf(s)[key := Record(RecordAt(FieldsOf(s), key))]
    ensures fresh(Refs(s') - Refs(s)) && IsRecordTree(legacy, l) && Refs(s') !! Refs(l)
  {
    child, s' := EnsureRecord(root, key, s);
  }

  /** The four `ensureRecord` calls that lead to the plugin's configuration, followed by
      `MoveDiscovery` there. */
  method MoveAt(root: Rec, path: seq<string>, legacy: Rec, ghost s: Shape, ghost l: Shape) returns (ghost s': Shape)
    requires IsRecordTree(root, s) && IsRecordTree(legacy, l) && Refs(s) !! Refs(l)
    modifies Refs(s)
    ensures IsRecordTree(root, s') && fresh(Refs(s') - Refs(s) - Refs(l))
    ensures FieldsOf(s') == FilledAt(FieldsOf(s), path, FieldsOf(l))
    decreases |path|, 1
  {
    if path == [] {
      s' := MoveDiscovery(root, legacy, s, l);
    } else {
      var child, s1 := EnsureBeside(root, path[0], legacy, s, l);
      s' := MoveBelow(root, child, path, legacy, s1, l);
      FilledAtStep(FieldsOf(s), path, FieldsOf(l));
    }
  }

  lemma FilledAtStep(fields: Fields, path: seq<string>, legacy: Fields)
    requires path != []
    ensures FilledAt(fields, path, legacy) ==
            var nested := RecordAt(fields, path[0]);
            fields[path[0] := Record(nested)][path[0] := Record(FilledAt(nested, path[1..], legacy))]
  {
  }

  method MoveBelow(root: Rec, child: Rec, path: seq<string>, legacy: Rec, ghost s: Shape, ghost l: Shape)
    returns (ghost s': Shape)
    requires path != [] && IsRecordTree(root, s) && IsRecordTree(legacy, l) && Refs(s) !! Refs(l)
    requires path[0] in s.kids && s.kids[path[0]].At? && s.kids[path[0]].rec == child
    modifies Refs(s.kids[path[0]])
    ensures IsRecordTree(root, s') && fresh(Refs(s') - Refs(s) - Refs(l))
    ensures FieldsOf(s') == FieldsOf(s)[path[0] := Record(FilledAt(FieldsOf(s.kids[path[0]]), path[1..], FieldsOf(l)))]
    decreases |path|, 0
  {
    ghost var key := path[0];
    ghost var kid := MoveAt(child, path[1..], legacy, s.kids[key], l);
    forall other | other in s.kids && other != key
      ensures Holds(s.kids[other])
    {
      assert Refs(s.kids[other]) !! Refs(s.kids[key]);
    }
    s' := Put(s, key, kid);
    KidChanged(root, key, s, kid);
  }

  /** `delete rec[key]`. */
  method DeleteField(rec: Rec, key: string, ghost s: Shape) returns (ghost s': Shape)
    requires IsRecordTree(rec, s)
    modifies rec
    ensures IsRecordTree(rec, s') && Refs(s') == Refs(s)
    ensures s'.kids == s.kids - {key} && FieldsOf(s') == FieldsOf(s) - {key}
  {
    rec.fields := rec.fields - {key};
    s' := At(rec, s.refs, s.kids - {key});
    DeleteIsTree(s, key);
    assert FieldsOf(s') == FieldsOf(s) - {key};
  }

  lemma DeleteIsTree(s: Shape, key: string)
    requires s.At? && IsTree(s)
    ensures IsTree(At(s.rec, s.refs, s.kids - {key}))
  {
  }

  /** `delete root[key][nested]` for a record under `key`. */
  method DeleteBelow(root: Rec, key: string, nested: string, ghost s: Shape) returns (ghost s': Shape)
    requires IsRecordTree(root, s) && key in s.kids && s.kids[key].At?
    modifies Refs(s.kids[key])
    ensures IsRecordTree(root, s') && Refs(s') == Refs(s)
    ensures FieldsOf(s') == FieldsOf(s)[key := Record(FieldsOf(s.kids[key]) - {nested})]
    ensures root.fields[key].rec.fields.Keys == s.kids[key].kids.Keys - {nested}
  {
    var child := root.fields[key].rec;
    assert IsRecordTree(child, s.kids[key]);
    ghost var kid := DeleteField(child, nested, s.kids[key]);
    forall other | other in s.kids && other != key
      ensures Holds(s.kids[other])
    {
      assert Refs(s.kids[other]) !! Refs(s.kids[key]);
    }
    s' := Put(s, key, kid);
    KidChanged(root, key, s, kid);
  }

  /** The layout of a record after the record under one key has changed in place. */
  lemma KidChanged(root: Rec, key: string, s: Shape, kid: Shape)
    requires s.At? && s.rec == root && IsTree(s) && key in s.kids && HoldsBeside(s, key)
    requires key in root.fields && root.fields[key] == ValueOf(kid) && Holds(kid) && IsTree(kid) && kid.At?
    requires root !in Refs(kid) && forall other | other in s.kids && other != key :: Refs(s.kids[other]) !! Refs(kid)
    ensures IsRecordTree(root, Put(s, key, kid))
    ensures FieldsOf(Put(s, key, kid)) == FieldsOf(s)[key := Record(FieldsOf(kid))]
  {
    PutIsTree(s, key, kid);
    PutHolds(s, key, kid);
    ErasePut(s, key, kid);
  }

  /** The legacy key removed from the cloned root, and its models record with it when that leaves
      it empty. */
  method RemoveLegacy(root: Rec, ghost s: Shape) returns (ghost s': Shape)
    requires IsRecordTree(root, s) && HasLegacy(Erase(s))
    modifies Refs(s)
    ensures IsRecordTree(root, s') && Refs(s') == Refs(s)
    ensures FieldsOf(s') == WithoutLegacy(Erase(s))
  {
    FieldAt(s, "models");
    s' := DeleteBelow(root, "models", "bedrockDiscovery", s);
    s' := PruneEmptyModelsRoot(root, s');
  }

  method PruneEmptyModelsRoot(root: Rec, ghost s: Shape) returns (ghost s': Shape)
    requires IsRecordTree(root, s)
    modifies root
    ensures IsRecordTree(root, s') && Refs(s') == Refs(s)
    ensures FieldsOf(s') == Pruned(FieldsOf(s))
  {
    FieldAt(s, "models");
    s' := s;
    if "models" in root.fields && root.fields["models"].Object? {
      EmptyFields(s.kids["models"]);
      assert IsRecordTree(root.fields["models"].rec, s.kids["models"]);
      if root.fields["models"].rec.fields.Keys == {} {
        s' := DeleteField(root, "models", s);
      }
    }
  }

  lemma EmptyFields(s: Shape)
    requires s.At?
    ensures s.kids.Keys == {} <==> FieldsOf(s) == map[]
  {
    assert FieldsOf(s).Keys == s.kids.Keys;
  }

  /** `raw.models.bedrockDiscovery`, if every step is a record. */
  method FindLegacy(raw: Rec, ghost s: Shape) returns (legacy: Rec?, ghost l: Shape)
    requires IsRecordTree(raw, s)
    ensures legacy != null <==> HasLegacy(Erase(s))
    ensures legacy != null ==> IsRecordTree(legacy, l) && FieldsOf(l) == Legacy(Erase(s)) && Refs(l) <= Refs(s)
  {
    legacy, l := null, s;
    FieldAt(s, "models");
    if "models" in raw.fields && raw.fields["models"].Object? {
      var models := raw.fields["models"].rec;
      ghost var m := s.kids["models"];
      assert IsRecordTree(models, m);
      FieldAt(m, "bedrockDiscovery");
      if "bedrockDiscovery" in models.fields && models.fields["bedrockDiscovery"].Object? {
        legacy, l := models.fields["bedrockDiscovery"].rec, m.kids["bedrockDiscovery"];
      }
    }
  }

  /** The migration of a configuration that has a legacy record. */
  method MigrateFound(raw: Rec, legacy: Rec, ghost s: Shape, ghost l: Shape) returns (nextRoot: Rec, ghost c: Shape)
    requires IsRecordTree(raw, s) && IsRecordTree(legacy, l) && HasLegacy(Erase(s)) && FieldsOf(l) == Legacy(Erase(s))
    ensures IsRecordTree(nextRoot, c) && fresh(nextRoot)
    ensures FieldsOf(c) == Migrated(Erase(s)).fields
  {
    nextRoot, c := CloneFields(raw, s);
    c := RemoveLegacy(nextRoot, c);
    EmptyFields(l);
    if legacy.fields.Keys != {} {
      assert Refs(c) !! Refs(l) && IsRecordTree(legacy, l);
      c := MoveAt(nextRoot, CONFIG_PATH, legacy, c, l);
      FilledAtConfigPath(WithoutLegacy(Erase(s)), FieldsOf(l));
    }
  }

  /** The whole migration.  It has no `modifies` clause: no record that existed before the call is
      written, so the caller's configuration is left as it was, even though the result may share
      the records of the legacy subtree with it. */
  method MigrateAmazonBedrockLegacyConfig(raw: Value, ghost s: Shape)
    returns (config: Value, changed: bool, ghost c: Shape)
    requires ValueOf(s) == raw && Holds(s) && IsTree(s)
    ensures ValueOf(c) == config && Holds(c) && Erase(c) == Migrated(Erase(s))
    ensures changed <==> HasLegacy(Erase(s))
    ensures if changed then config.Object? && fresh(config.rec) else config == raw
    ensures Holds(s)
  {
    config, changed, c := raw, false, s;
    if raw.Object? {
      var legacy, l := FindLegacy(raw.rec, s);
      if legacy != null {
        var nextRoot;
        nextRoot, c := MigrateFound(raw.rec, legacy, s, l);
        config, changed := Object(nextRoot), true;
      }
    }
  }
}
