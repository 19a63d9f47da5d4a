/** Translation maps: nested objects and their dotted keys (`flattenTranslations`,
    `setNestedValue` in scripts/control-ui-i18n.ts). */
module TranslationTree {
  import opened ObjectPrototype
  import opened Wrappers

  /** A translation map with its entries in insertion order. */
  datatype Node = Leaf(text: string) | Branch(entries: Entries)
  datatype Entry = Entry(key: string, node: Node)
  type Entries = seq<Entry>
  type Path = seq<string>

  // ----- the program

  function FullKey(prefix: string, key: string): string {
    if prefix == "" then key else prefix + "." + key
  }

  /** The `out.set` calls of `flattenTranslations`, in order. */
  function Flatten(entries: Entries, prefix: string): seq<(string, string)>
    decreases entries
  {
    if entries == [] then []
    else
      var key := FullKey(prefix, entries[0].key);
      match entries[0].node
      case Leaf(text) => [(key, text)] + Flatten(entries[1..], prefix)
      case Branch(nested) => Flatten(nested, key) + Flatten(entries[1..], prefix)
  }

  /** The map those calls leave behind. */
  function FlatMap(list: seq<(string, string)>): map<string, string> {
    if list == [] then map[] else FlatMap(list[..|list| - 1])[list[|list| - 1].0 := list[|list| - 1].1]
  }

  function Find(entries: Entries, key: string): Option<Node> {
    if entries == [] then None
    else if entries[0].key == key then Some(entries[0].node)
    else Find(entries[1..], key)
  }

  /** `object[key] = node`: a known key keeps its place, a new one goes to the end. */
  function Put(entries: Entries, key: string, node: Node): Entries {
    if entries == [] then [Entry(key, node)]
    else if entries[0].key == key then [Entry(key, node)] + entries[1..]
    else [entries[0]] + Put(entries[1..], key, node)
  }

  function IndexOfDot(text: string): (i: nat)
    ensures i <= |text| && '.' !in text[..i] && (i < |text| ==> text[i] == '.')
  {
    if text == "" || text[0] == '.' then 0 else 1 + IndexOfDot(text[1..])
  }

  /** `text.split(".")`. */
  function Split(text: string): (path: Path)
    ensures path != []
    decreases |text|
  {
    var i := IndexOfDot(text);
    if i == |text| then [text] else [text[..i]] + Split(text[i + 1..])
  }

  /** `object[key] = text`: without an own property of that name, setting `__proto__` to a string
      does nothing. */
  function Assign(entries: Entries, key: string, text: string): Entries {
    if key == PROTO && Find(entries, key).None? then entries else Put(entries, key, Leaf(text))
  }

  /** The walk of `setNestedValue` along the parts of a key.  A string or a missing property is
      replaced by a nested map.  An inherited property is neither, so the walk goes on in the object
      found there and writes nothing below this one. */
  function SetPath(entries: Entries, path: Path, text: string): Entries
    requires path != []
    decreases |path|
  {
    var next := Find(entries, path[0]);
    if |path| == 1 then Assign(entries, path[0], text)
    else if next.None? && Inherited(path[0]) then entries
    else
      var nested := if next.Some? && next.value.Branch? then next.value.entries else [];
      Put(entries, path[0], Branch(SetPath(nested, path[1..], text)))
  }

  /** What is left of a path where its walk leaves the map, beginning with the inherited name. */
  function Outside(entries: Entries, path: Path): Option<Path>
    requires path != []
    decreases |path|
  {
    var next := Find(entries, path[0]);
    if |path| == 1 then None
    else if next.None? && Inherited(path[0]) then Some(path)
    else Outside(if next.Some? && next.value.Branch? then next.value.entries else [], path[1..])
  }

  /** Whether the runtime refuses to set the rest of a path in its own objects, as it does for
      `constructor.name`.  Then `setNestedValue` throws a TypeError. */
  type Runtime = Path -> bool

  predicate Refused(root: Entries, dottedKey: string, refuses: Runtime) {
    var outside := Outside(root, Split(dottedKey));
    outside.Some? && refuses(outside.value)
  }

  /** A walk that stays among the map's own properties, whatever the map. */
  predicate Walkable(path: Path) {
    path != [] && path[|path| - 1] != PROTO && forall i :: 0 <= i < |path| - 1 ==> !Inherited(path[i])
  }

  function SetNestedValue(root: Entries, dottedKey: string, text: string): Entries {
    SetPath(root, Split(dottedKey), text)
  }

  function Rebuild(list: seq<(string, string)>, root: Entries): Entries
    decreases |list|
  {
    if list == [] then root else Rebuild(list[1..], SetNestedValue(root, list[0].0, list[0].1))
  }

  /** Whether one of those assignments throws. */
  predicate RebuildThrows(list: seq<(string, string)>, root: Entries, refuses: Runtime)
    decreases |list|
  {
    list != [] &&
    (Refused(root, list[0].0, refuses) || RebuildThrows(list[1..], SetNestedValue(root, list[0].0, list[0].1), refuses))
  }

  // ----- dotted keys are paths

  predicate DotFree(key: string) {
    '.' !in key
  }

  /** Keys are distinct and free of dots, at every level. */
  predicate WellKeyed(entries: Entries)
    decreases entries
  {
    entries != [] ==>
      && DotFree(entries[0].key)
      && Find(entries[1..], entries[0].key).None?
      && (entries[0].node.Branch? ==> WellKeyed(entries[0].node.entries))
      && WellKeyed(entries[1..])
  }

  /** No map stands under the empty key at the top, where flattening would take its keys for keys
      of the top. */
  predicate NoNamelessMap(entries: Entries) {
    forall i :: 0 <= i < |entries| && entries[i].node.Branch? ==> entries[i].key != ""
  }

  /** No nested map stands under an inherited name, and nothing under `__proto__`. */
  predicate NoInheritedMap(entries: Entries)
    decreases entries
  {
    entries != [] ==>
      && entries[0].key != PROTO
      && (entries[0].node.Branch? ==> !Inherited(entries[0].key) && NoInheritedMap(entries[0].node.entries))
      && NoInheritedMap(entries[1..])
  }

  predicate NoEmptyMaps(entries: Entries)
    decreases entries
  {
    entries != [] ==>
      && (entries[0].node.Branch? ==> entries[0].node.entries != [] && NoEmptyMaps(entries[0].node.entries))
      && NoEmptyMaps(entries[1..])
  }

  function Join(path: Path): string {
    if path == [] then "" else if |path| == 1 then path[0] else path[0] + "." + Join(path[1..])
  }

  predicate IsKeyPath(path: Path) {
    forall i :: 0 <= i < |path| ==> DotFree(path[i])
  }

  lemma IndexOfDotIs(text: string, i: nat)
    requires i <= |text| && '.' !in text[..i] && (i < |text| ==> text[i] == '.')
    ensures IndexOfDot(text) == i
  {
    var j := IndexOfDot(text);
    assert forall k :: 0 <= k < i ==> text[k] == text[..i][k];
    assert forall k :: 0 <= k < j ==> text[k] == text[..j][k];
  }

  lemma {:induction false} SplitJoin(path: Path)
    requires path != [] && IsKeyPath(path)
    ensures Split(Join(path)) == path
    decreases |path|
  {
    var text, i := Join(path), |path[0]|;
    assert text[..i] == path[0];
    IndexOfDotIs(text, i);
    if |path| > 1 {
      assert text[i + 1..] == Join(path[1..]);
      SplitJoin(path[1..]);
    }
  }

  lemma {:induction false} JoinAppend(path: Path, key: string)
    requires path != []
    ensures Join(path + [key]) == Join(path) + "." + key
    decreases |path|
  {
    if |path| > 1 {
      assert (path + [key])[1..] == path[1..] + [key];
      JoinAppend(path[1..], key);
    }
  }

  lemma FullKeyIsJoin(prefix: Path, key: string)
    requires prefix != [] ==> prefix[0] != ""
    ensures FullKey(Join(prefix), key) == Join(prefix + [key])
  {
    if prefix == [] {
      assert prefix + [key] == [key];
    } else {
      JoinAppend(prefix, key);
    }
  }

  function Under(key: string, list: seq<(Path, string)>): (r: seq<(Path, string)>)
    ensures |r| == |list| && forall i :: 0 <= i < |r| ==> r[i] == ([key] + list[i].0, list[i].1)
  {
    seq(|list|, i requires 0 <= i < |list| => ([key] + list[i].0, list[i].1))
  }

  /** The leaves of a map with the path of keys that leads to each. */
  function Leaves(entries: Entries): seq<(Path, string)>
    decreases entries
  {
    if entries == [] then []
    else
      match entries[0].node
      case Leaf(text) => [([entries[0].key], text)] + Leaves(entries[1..])
      case Branch(nested) => Under(entries[0].key, Leaves(nested)) + Leaves(entries[1..])
  }

  function Dotted(prefix: Path, list: seq<(Path, string)>): (r: seq<(string, string)>)
    ensures |r| == |list| && forall i :: 0 <= i < |r| ==> r[i] == (Join(prefix + list[i].0), list[i].1)
  {
    seq(|list|, i requires 0 <= i < |list| => (Join(prefix + list[i].0), list[i].1))
  }

  lemma DottedUnder(prefix: Path, key: string, list: seq<(Path, string)>)
    ensures Dotted(prefix + [key], list) == Dotted(prefix, Under(key, list))
  {
    forall i | 0 <= i < |list|
      ensures Dotted(prefix + [key], list)[i] == Dotted(prefix, Under(key, list))[i]
    {
      assert prefix + [key] + list[i].0 == prefix + ([key] + list[i].0);
    }
  }

  lemma DottedConcat(prefix: Path, a: seq<(Path, string)>, b: seq<(Path, string)>)
    ensures Dotted(prefix, a + b) == Dotted(prefix, a) + Dotted(prefix, b)
  {
  }

  lemma {:induction false} FlattenIsDotted(entries: Entries, prefix: Path)
    requires WellKeyed(entries) && if prefix == [] then NoNamelessMap(entries) else prefix[0] != ""
    ensures Flatten(entries, Join(prefix)) == Dotted(prefix, Leaves(entries))
    decreases entries
  {
    if entries != [] {
      var key, rest := entries[0].key, entries[1..];
      FullKeyIsJoin(prefix, key);
      FlattenIsDotted(rest, prefix);
      match entries[0].node
      case Leaf(text) =>
        DottedConcat(prefix, [([key], text)], Leaves(rest));
      case Branch(nested) =>
        FlattenIsDotted(nested, prefix + [key]);
        DottedUnder(prefix, key, Leaves(nested));
        DottedConcat(prefix, Under(key, Leaves(nested)), Leaves(rest));
    }
  }

  lemma {:induction false} LeavesAreKeyPaths(entries: Entries)
    requires WellKeyed(entries)
    ensures forall i :: 0 <= i < |Leaves(entries)| ==> Leaves(entries)[i].0 != [] && IsKeyPath(Leaves(entries)[i].0)
    decreases entries
  {
    if entries != [] {
      LeavesAreKeyPaths(entries[1..]);
      if entries[0].node.Branch? {
        LeavesAreKeyPaths(entries[0].node.entries);
      }
    }
  }

  lemma {:induction false} LeavesAreWalkable(entries: Entries)
    requires NoInheritedMap(entries)
    ensures forall i :: 0 <= i < |Leaves(entries)| ==> Walkable(Leaves(entries)[i].0)
    decreases entries
  {
    if entries != [] {
      LeavesAreWalkable(entries[1..]);
      if entries[0].node.Branch? {
        LeavesAreWalkable(entries[0].node.entries);
        forall i | 0 <= i < |Leaves(entries[0].node.entries)|
          ensures Walkable([entries[0].key] + Leaves(entries[0].node.entries)[i].0)
        {
          WalkableBelow(entries[0].key, Leaves(entries[0].node.entries)[i].0);
        }
      }
    }
  }

  lemma WalkableBelow(key: string, path: Path)
    requires path != []
    ensures Walkable([key] + path) <==> !Inherited(key) && Walkable(path)
  {
    var longer := [key] + path;
    assert longer[0] == key && longer[|longer| - 1] == path[|path| - 1];
    assert forall i :: 0 <= i < |path| ==> path[i] == longer[i + 1];
    assert forall i :: 1 <= i < |longer| ==> longer[i] == path[i - 1];
  }

  function SetAll(list: seq<(Path, string)>, root: Entries): Entries
    requires forall i :: 0 <= i < |list| ==> list[i].0 != []
    decreases |list|
  {
    if list == [] then root else SetAll(list[1..], SetPath(root, list[0].0, list[0].1))
  }

  lemma {:induction false} RebuildIsSetAll(list: seq<(Path, string)>, root: Entries)
    requires forall i :: 0 <= i < |list| ==> list[i].0 != [] && IsKeyPath(list[i].0)
    ensures Rebuild(Dotted([], list), root) == SetAll(list, root)
    decreases |list|
  {
    if list != [] {
      assert [] + list[0].0 == list[0].0;
      SplitJoin(list[0].0);
      assert Dotted([], list)[1..] == Dotted([], list[1..]);
      RebuildIsSetAll(list[1..], SetPath(root, list[0].0, list[0].1));
    }
  }

  // ----- rebuilding in order gives the very same map

  lemma {:induction false} PutNew(base: Entries, key: string, node: Node)
    requires Find(base, key).None?
    ensures Put(base, key, node) == base + [Entry(key, node)]
    ensures Find(base + [Entry(key, node)], key) == Some(node)
    decreases |base|
  {
    if base != [] {
      PutNew(base[1..], key, node);
      assert (base + [Entry(key, node)])[1..] == base[1..] + [Entry(key, node)];
    }
  }

  lemma {:induction false} PutLast(base: Entries, key: string, was: Node, node: Node)
    requires Find(base, key).None?
    ensures Put(base + [Entry(key, was)], key, node) == base + [Entry(key, node)]
    decreases |base|
  {
    if base != [] {
      assert (base + [Entry(key, was)])[1..] == base[1..] + [Entry(key, was)];
      PutLast(base[1..], key, was, node);
    }
  }

  lemma {:induction false} FindAppend(base: Entries, rest: Entries, key: string)
    ensures Find(base + rest, key) == if Find(base, key).Some? then Find(base, key) else Find(rest, key)
    decreases |base|
  {
    if base == [] {
      assert base + rest == rest;
    } else {
      assert (base + rest)[1..] == base[1..] + rest;
      FindAppend(base[1..], rest, key);
    }
  }

  /** Values set under one new key all end up in one nested map at the end. */
  lemma {:induction false} SetAllUnder(list: seq<(Path, string)>, base: Entries, key: string, nested: Entries)
    requires Find(base, key).None?
    requires forall i :: 0 <= i < |list| ==> list[i].0 != []
    ensures SetAll(Under(key, list), base + [Entry(key, Branch(nested))]) ==
            base + [Entry(key, Branch(SetAll(list, nested)))]
    decreases |list|
  {
    if list != [] {
      PutNew(base, key, Branch(nested));
      var nested' := SetPath(nested, list[0].0, list[0].1);
      PutLast(base, key, Branch(nested), Branch(nested'));
      assert ([key] + list[0].0)[1..] == list[0].0;
      assert Under(key, list)[1..] == Under(key, list[1..]);
      SetAllUnder(list[1..], base, key, nested');
    }
  }

  lemma SetAllUnderNew(list: seq<(Path, string)>, base: Entries, key: string)
    requires Find(base, key).None? && list != [] && !Inherited(key)
    requires forall i :: 0 <= i < |list| ==> list[i].0 != []
    ensures SetAll(Under(key, list), base) == base + [Entry(key, Branch(SetAll(list, [])))]
  {
    var nested := SetPath([], list[0].0, list[0].1);
    assert ([key] + list[0].0)[1..] == list[0].0;
    assert Under(key, list)[1..] == Under(key, list[1..]);
    PutNew(base, key, Branch(nested));
    SetAllUnder(list[1..], base, key, nested);
  }

  lemma {:induction false} SetAllConcat(a: seq<(Path, string)>, b: seq<(Path, string)>, root: Entries)
    requires forall i :: 0 <= i < |a| ==> a[i].0 != []
    requires forall i :: 0 <= i < |b| ==> b[i].0 != []
    ensures SetAll(a + b, root) == SetAll(b, SetAll(a, root))
    decreases |a|
  {
    if a == [] {
      assert a + b == b;
    } else {
      assert (a + b)[1..] == a[1..] + b;
      SetAllConcat(a[1..], b, SetPath(root, a[0].0, a[0].1));
    }
  }

  /** The leaves of one entry. */
  function EntryLeaves(entry: Entry): seq<(Path, string)> {
    if entry.node.Leaf? then [([entry.key], entry.node.text)] else Under(entry.key, Leaves(entry.node.entries))
  }

  lemma {:induction false} SetAllLeaves(entries: Entries, base: Entries)
    requires WellKeyed(entries) && NoEmptyMaps(entries) && NoInheritedMap(entries)
    requires forall i :: 0 <= i < |entries| ==> Find(base, entries[i].key).None?
    requires forall i :: 0 <= i < |Leaves(entries)| ==> Leaves(entries)[i].0 != []
    ensures SetAll(Leaves(entries), base) == base + entries
    ensures entries != [] ==> Leaves(entries) != []
    decreases entries, 1
  {
    if entries == [] {
      assert base + entries == base;
    } else {
      var first, rest := entries[0], entries[1..];
      LeavesAreKeyPaths(rest);
      SetEntryLeaves(entries, base);
      SetAllConcat(EntryLeaves(first), Leaves(rest), base);
      StillNew(entries, base);
      SetAllLeaves(rest, base + [first]);
      FirstAndRest(base, entries);
    }
  }

  lemma FirstAndRest(base: Entries, entries: Entries)
    requires entries != []
    ensures base + [entries[0]] + entries[1..] == base + entries
    ensures Leaves(entries) == EntryLeaves(entries[0]) + Leaves(entries[1..])
  {
  }

  lemma {:induction false} SetEntryLeaves(entries: Entries, base: Entries)
    requires entries != [] && WellKeyed(entries) && NoEmptyMaps(entries) && NoInheritedMap(entries)
    requires Find(base, entries[0].key).None?
    ensures EntryLeaves(entries[0]) != [] && forall i :: 0 <= i < |EntryLeaves(entries[0])| ==>
                                                           EntryLeaves(entries[0])[i].0 != []
    ensures SetAll(EntryLeaves(entries[0]), base) == base + [entries[0]]
    decreases entries, 0
  {
    var first := entries[0];
    var head := EntryLeaves(first);
    if first.node.Branch? {
      LeavesAreKeyPaths(first.node.entries);
      SetAllLeaves(first.node.entries, []);
      assert [] + first.node.entries == first.node.entries;
      SetAllUnderNew(Leaves(first.node.entries), base, first.key);
    } else {
      PutNew(base, first.key, first.node);
      assert head[1..] == [];
      assert SetAll(head, base) == SetAll([], SetPath(base, [first.key], first.node.text));
    }
  }

  lemma StillNew(entries: Entries, base: Entries)
    requires entries != [] && WellKeyed(entries)
    requires forall i :: 0 <= i < |entries| ==> Find(base, entries[i].key).None?
    ensures forall i :: 0 <= i < |entries| - 1 ==> Find(base + [entries[0]], entries[1..][i].key).None?
  {
    var rest := entries[1..];
    forall i | 0 <= i < |rest|
      ensures Find(base + [entries[0]], rest[i].key).None?
    {
      FindAppend(base, [entries[0]], rest[i].key);
      FoundAmong(rest, i);
      assert rest[i] == entries[i + 1];
    }
  }

  lemma {:induction false} FoundAmong(entries: Entries, i: nat)
    requires i < |entries|
    ensures Find(entries, entries[i].key).Some?
    decreases |entries|
  {
    if i > 0 {
      FoundAmong(entries[1..], i - 1);
    }
  }

  /** Setting the flattened entries of a map, in order, in an empty one rebuilds it exactly. */
  lemma FlattenRebuilds(entries: Entries)
    requires WellKeyed(entries) && NoEmptyMaps(entries) && NoNamelessMap(entries) && NoInheritedMap(entries)
    ensures Rebuild(Flatten(entries, ""), []) == entries
  {
    FlattenIsDotted(entries, []);
    LeavesAreKeyPaths(entries);
    RebuildIsSetAll(Leaves(entries), []);
    SetAllLeaves(entries, []);
    assert [] + entries == entries;
  }

  // ----- rebuilding in any order gives the same map up to the order of its keys

  /** The text at the end of a path. */
  function Get(entries: Entries, path: Path): Option<string>
    decreases |path|
  {
    if path == [] then None
    else
      match Find(entries, path[0])
      case None => None
      case Some(Leaf(text)) => if |path| == 1 then Some(text) else None
      case Some(Branch(nested)) => Get(nested, path[1..])
  }

  predicate Comparable(p: Path, q: Path) {
    p <= q || q <= p
  }

  lemma {:induction false} FindPut(entries: Entries, key: string, node: Node, other: string)
    ensures Find(Put(entries, key, node), other) == if other == key then Some(node) else Find(entries, other)
    decreases |entries|
  {
    if entries != [] {
      FindPut(entries[1..], key, node, other);
    }
  }

  /** What setting one path does to every other: nothing, unless one leads through the other. */
  lemma {:induction false} GetSet(entries: Entries, path: Path, text: string, other: Path)
    requires Walkable(path)
    ensures Get(SetPath(entries, path, text), other) ==
            if other == path then Some(text) else if Comparable(path, other) then None else Get(entries, other)
    decreases |path|
  {
    if other != [] {
      var next := Find(entries, path[0]);
      var nested := if next.Some? && next.value.Branch? then next.value.entries else [];
      var node := if |path| == 1 then Leaf(text) else Branch(SetPath(nested, path[1..], text));
      FindPut(entries, path[0], node, other[0]);
      if other[0] == path[0] {
        ComparableTails(path, other);
        if |path| > 1 {
          GetSet(nested, path[1..], text, other[1..]);
          assert |other| > 1 && next.Some? && next.value.Leaf? ==> Get(nested, other[1..]).None?;
        }
      }
    }
  }

  lemma ComparableTails(p: Path, q: Path)
    requires p != [] && q != [] && p[0] == q[0]
    ensures Comparable(p, q) <==> Comparable(p[1..], q[1..])
    ensures p == q <==> p[1..] == q[1..]
  {
    assert p == [p[0]] + p[1..] && q == [q[0]] + q[1..];
  }

  /** No listed path leads through another one. */
  ghost predicate Independent(list: seq<(Path, string)>) {
    forall x, y :: x in list && y in list && Comparable(x.0, y.0) ==> x == y
  }

  lemma {:induction false} GetSetAll(list: seq<(Path, string)>, root: Entries, path: Path)
    requires Independent(list) && forall i :: 0 <= i < |list| ==> list[i].0 != [] && Walkable(list[i].0)
    ensures (exists x :: x in list && Comparable(x.0, path)) ==>
              (forall text :: Get(SetAll(list, root), path) == Some(text) <==> (path, text) in list)
    ensures !(exists x :: x in list && Comparable(x.0, path)) ==> Get(SetAll(list, root), path) == Get(root, path)
    decreases |list|
  {
    if list != [] {
      var (p, t) := list[0];
      var root' := SetPath(root, p, t);
      GetSet(root, p, t, path);
      GetSetAll(list[1..], root', path);
      assert forall x :: x in list <==> x == list[0] || x in list[1..];
      if exists x :: x in list[1..] && Comparable(x.0, path) {
        var x :| x in list[1..] && Comparable(x.0, path);
        assert (path, t) == list[0] ==> list[0] == x;
      }
    }
  }

  lemma {:induction false} LeavesAreGot(entries: Entries, path: Path, text: string)
    requires WellKeyed(entries)
    ensures (path, text) in Leaves(entries) <==> Get(entries, path) == Some(text)
    decreases entries
  {
    if entries != [] {
      var first, rest := entries[0], entries[1..];
      LeavesAreGot(rest, path, text);
      if first.node.Branch? {
        var nested := first.node.entries;
        InUnder(first.key, Leaves(nested), path, text);
        if path != [] {
          LeavesAreGot(nested, path[1..], text);
        }
      } else {
        assert |path| == 1 && path[0] == first.key ==> path == [first.key];
      }
    }
  }

  lemma InUnder(key: string, list: seq<(Path, string)>, path: Path, text: string)
    ensures (path, text) in Under(key, list) <==> path != [] && path[0] == key && (path[1..], text) in list
  {
    if path != [] && path[0] == key && (path[1..], text) in list {
      var i :| 0 <= i < |list| && list[i] == (path[1..], text);
      assert path == [key] + path[1..];
      assert Under(key, list)[i] == (path, text);
    }
    if (path, text) in Under(key, list) {
      var i :| 0 <= i < |list| && Under(key, list)[i] == (path, text);
      assert path[1..] == list[i].0;
    }
  }

  lemma {:induction false} GotPathsAreIndependent(entries: Entries, p: Path, q: Path)
    requires Get(entries, p).Some? && Get(entries, q).Some? && p <= q
    ensures p == q
    decreases |p|
  {
    var next := Find(entries, p[0]);
    if next.value.Branch? {
      GotPathsAreIndependent(next.value.entries, p[1..], q[1..]);
    }
  }

  lemma LeavesAreIndependent(entries: Entries)
    requires WellKeyed(entries)
    ensures Independent(Leaves(entries))
  {
    var list := Leaves(entries);
    forall x, y | x in list && y in list && Comparable(x.0, y.0)
      ensures x == y
    {
      LeavesAreGot(entries, x.0, x.1);
      LeavesAreGot(entries, y.0, y.1);
      if x.0 <= y.0 {
        GotPathsAreIndependent(entries, x.0, y.0);
      } else {
        GotPathsAreIndependent(entries, y.0, x.0);
      }
    }
  }

  /** No key occurs twice at any level and no nested map is empty. */
  predicate Proper(entries: Entries)
    decreases entries
  {
    entries != [] ==>
      && Find(entries[1..], entries[0].key).None?
      && (entries[0].node.Branch? ==> entries[0].node.entries != [] && Proper(entries[0].node.entries))
      && Proper(entries[1..])
  }

  /** Equal up to the order of the keys. */
  ghost predicate Same(a: Entries, b: Entries)
    decreases a
  {
    && (forall i :: 0 <= i < |a| ==> SameNode(a[i].node, Find(b, a[i].key)))
    && (forall i :: 0 <= i < |b| ==> Find(a, b[i].key).Some?)
  }

  ghost predicate SameNode(a: Node, b: Option<Node>)
    decreases a
  {
    b.Some? && match a
               case Leaf(text) => b.value == Leaf(text)
               case Branch(nested) => b.value.Branch? && Same(nested, b.value.entries)
  }

  lemma {:induction false} PutKeepsProper(entries: Entries, key: string, node: Node)
    requires Proper(entries) && (node.Branch? ==> node.entries != [] && Proper(node.entries))
    ensures Proper(Put(entries, key, node)) && Put(entries, key, node) != []
    decreases |entries|
  {
    if entries != [] && entries[0].key != key {
      PutKeepsProper(entries[1..], key, node);
      FindPut(entries[1..], key, node, entries[0].key);
    }
  }

  lemma {:induction false} FindProper(entries: Entries, key: string)
    requires Proper(entries) && Find(entries, key).Some? && Find(entries, key).value.Branch?
    ensures Find(entries, key).value.entries != [] && Proper(Find(entries, key).value.entries)
    decreases |entries|
  {
    if entries[0].key != key {
      FindProper(entries[1..], key);
    }
  }

  lemma {:induction false} SetPathKeepsProper(entries: Entries, path: Path, text: string)
    requires Proper(entries) && Walkable(path)
    ensures Proper(SetPath(entries, path, text)) && SetPath(entries, path, text) != []
    decreases |path|
  {
    if |path| == 1 {
      PutKeepsProper(entries, path[0], Leaf(text));
    } else {
      var next := Find(entries, path[0]);
      var nested := if next.Some? && next.value.Branch? then next.value.entries else [];
      if next.Some? && next.value.Branch? {
        FindProper(entries, path[0]);
      }
      SetPathKeepsProper(nested, path[1..], text);
      PutKeepsProper(entries, path[0], Branch(SetPath(nested, path[1..], text)));
    }
  }

  lemma {:induction false} SetAllKeepsProper(list: seq<(Path, string)>, root: Entries)
    requires Proper(root) && forall i :: 0 <= i < |list| ==> list[i].0 != [] && Walkable(list[i].0)
    ensures Proper(SetAll(list, root))
    decreases |list|
  {
    if list != [] {
      SetPathKeepsProper(root, list[0].0, list[0].1);
      SetAllKeepsProper(list[1..], SetPath(root, list[0].0, list[0].1));
    }
  }

  lemma {:induction false} ProperHasLeaf(entries: Entries) returns (path: Path)
    requires Proper(entries) && entries != []
    ensures path != [] && Get(entries, path).Some?
    decreases entries
  {
    path := [entries[0].key];
    if entries[0].node.Branch? {
      var rest := ProperHasLeaf(entries[0].node.entries);
      path := path + rest;
      assert path[1..] == rest;
    }
  }

  lemma {:induction false} ProperFind(entries: Entries, i: nat)
    requires Proper(entries) && i < |entries|
    ensures Find(entries, entries[i].key) == Some(entries[i].node)
    decreases |entries|
  {
    if i > 0 {
      ProperFind(entries[1..], i - 1);
    }
  }

  /** Two proper maps with the same texts at the same paths are the same map. */
  lemma {:induction false} SameTextsSameMap(a: Entries, b: Entries)
    requires Proper(a) && Proper(b)
    requires forall path :: Get(a, path) == Get(b, path)
    ensures Same(a, b)
    decreases a
  {
    forall i | 0 <= i < |a|
      ensures SameNode(a[i].node, Find(b, a[i].key))
    {
      ProperFind(a, i);
      SameTextsSameNode(a, b, a[i].key, a[i].node);
    }
    forall i | 0 <= i < |b|
      ensures Find(a, b[i].key).Some?
    {
      ProperFind(b, i);
      var path := [b[i].key];
      if b[i].node.Branch? {
        FindProper(b, b[i].key);
        var rest := ProperHasLeaf(b[i].node.entries);
        path := path + rest;
        assert path[1..] == rest;
      }
      assert Get(b, path).Some?;
      assert Get(a, path).Some?;
    }
  }

  lemma {:induction false} SameTextsSameNode(a: Entries, b: Entries, key: string, node: Node)
    requires Proper(a) && Proper(b) && Find(a, key) == Some(node)
    requires forall path :: Get(a, path) == Get(b, path)
    ensures SameNode(node, Find(b, key))
    decreases node
  {
    if node.Leaf? {
      assert Get(a, [key]) == Some(node.text);
      assert [key][1..] == [];
      assert Get(b, [key]) == Some(node.text);
      assert Find(b, key).value.Branch? ==> Get(b, [key]) == Get(Find(b, key).value.entries, []);
    } else {
      FindProper(a, key);
      var rest := ProperHasLeaf(node.entries);
      assert ([key] + rest)[1..] == rest;
      assert Get(b, [key] + rest) == Get(a, [key] + rest) == Get(node.entries, rest);
      FindProper(b, key);
      var other := Find(b, key).value.entries;
      forall path
        ensures Get(node.entries, path) == Get(other, path)
      {
        assert ([key] + path)[1..] == path;
        assert Get(a, [key] + path) == Get(b, [key] + path);
      }
      SameTextsSameMap(node.entries, other);
    }
  }

  lemma {:induction false} WellKeyedIsProper(entries: Entries)
    requires WellKeyed(entries) && NoEmptyMaps(entries)
    ensures Proper(entries)
    decreases entries
  {
    if entries != [] {
      WellKeyedIsProper(entries[1..]);
      if entries[0].node.Branch? {
        WellKeyedIsProper(entries[0].node.entries);
      }
    }
  }

  lemma AnyLeafOrderRebuilds(entries: Entries, order: seq<(Path, string)>)
    requires WellKeyed(entries) && NoEmptyMaps(entries) && NoInheritedMap(entries)
    requires forall x :: x in order <==> x in Leaves(entries)
    ensures Same(Rebuild(Dotted([], order), []), entries)
  {
    var list := Leaves(entries);
    LeavesAreKeyPaths(entries);
    LeavesAreWalkable(entries);
    forall i | 0 <= i < |order|
      ensures order[i].0 != [] && IsKeyPath(order[i].0) && Walkable(order[i].0)
    {
      assert order[i] in order;
      assert order[i] in list;
    }
    RebuildIsSetAll(order, []);
    LeavesAreIndependent(entries);
    SetAllKeepsProper(order, []);
    WellKeyedIsProper(entries);
    var built := SetAll(order, []);
    forall path
      ensures Get(built, path) == Get(entries, path)
    {
      GetSetAll(order, [], path);
      if Get(entries, path).Some? {
        LeavesAreGot(entries, path, Get(entries, path).value);
        assert (path, Get(entries, path).value) in order;
      }
      if Get(built, path).Some? {
        assert path != [] ==> Get([], path).None?;
        assert (path, Get(built, path).value) in order;
        LeavesAreGot(entries, path, Get(built, path).value);
      }
    }
    SameTextsSameMap(built, entries);
  }

  function ToPaths(list: seq<(string, string)>): (r: seq<(Path, string)>)
    ensures |r| == |list| && forall i :: 0 <= i < |r| ==> r[i] == (Split(list[i].0), list[i].1)
  {
    seq(|list|, i requires 0 <= i < |list| => (Split(list[i].0), list[i].1))
  }

  lemma ToPathsOfFlatten(entries: Entries)
    requires WellKeyed(entries) && NoNamelessMap(entries)
    ensures ToPaths(Flatten(entries, "")) == Leaves(entries)
    ensures forall i :: 0 <= i < |Flatten(entries, "")| ==> Flatten(entries, "")[i].0 == Join(Leaves(entries)[i].0)
  {
    var list := Leaves(entries);
    FlattenIsDotted(entries, []);
    LeavesAreKeyPaths(entries);
    forall i | 0 <= i < |list|
      ensures ToPaths(Flatten(entries, ""))[i] == list[i] && Flatten(entries, "")[i].0 == Join(list[i].0)
    {
      assert [] + list[i].0 == list[i].0;
      SplitJoin(list[i].0);
    }
  }

  /** Setting the flattened entries in any order, even some of them repeatedly, rebuilds the map up
      to the order of its keys. */
  lemma AnyOrderRebuilds(entries: Entries, order: seq<(string, string)>)
    requires WellKeyed(entries) && NoEmptyMaps(entries) && NoNamelessMap(entries) && NoInheritedMap(entries)
    requires forall x :: x in order <==> x in Flatten(entries, "")
    ensures Same(Rebuild(order, []), entries)
  {
    var flat, list, paths := Flatten(entries, ""), Leaves(entries), ToPaths(order);
    ToPathsOfFlatten(entries);
    forall i | 0 <= i < |order|
      ensures paths[i] in list && Dotted([], paths)[i] == order[i]
    {
      assert order[i] in flat;
      var j :| 0 <= j < |flat| && flat[j] == order[i];
      assert paths[i] == ToPaths(flat)[j] == list[j];
      assert [] + paths[i].0 == paths[i].0;
    }
    forall x | x in list
      ensures x in paths
    {
      var j :| 0 <= j < |list| && list[j] == x;
      assert flat[j] in order;
      var i :| 0 <= i < |order| && order[i] == flat[j];
      assert paths[i] == ToPaths(flat)[j];
    }
    assert Dotted([], paths) == order;
    AnyLeafOrderRebuilds(entries, paths);
  }

  // ----- dotted keys are distinct

  lemma {:induction false} LeavesAreDistinct(entries: Entries)
    requires WellKeyed(entries)
    ensures forall i, j :: 0 <= i < j < |Leaves(entries)| ==> Leaves(entries)[i].0 != Leaves(entries)[j].0
    decreases entries
  {
    if entries != [] {
      var first, rest := entries[0], entries[1..];
      var head := EntryLeaves(first);
      assert Leaves(entries) == head + Leaves(rest);
      LeavesAreDistinct(rest);
      if first.node.Branch? {
        LeavesAreDistinct(first.node.entries);
        forall i, j | 0 <= i < j < |head|
          ensures head[i].0 != head[j].0
        {
          assert head[i].0[1..] == Leaves(first.node.entries)[i].0 && head[j].0[1..] == Leaves(first.node.entries)[j].0;
        }
      }
      forall i | 0 <= i < |Leaves(rest)|
        ensures Leaves(rest)[i].0 == [] || Leaves(rest)[i].0[0] != first.key
      {
        LeavesAreGot(rest, Leaves(rest)[i].0, Leaves(rest)[i].1);
      }
      assert forall i :: 0 <= i < |head| ==> head[i].0 != [] && head[i].0[0] == first.key;
    }
  }

  /** Flattening gives every key once. */
  lemma FlattenKeysAreDistinct(entries: Entries)
    requires WellKeyed(entries) && NoNamelessMap(entries)
    ensures forall i, j :: 0 <= i < j < |Flatten(entries, "")| ==>
                             Flatten(entries, "")[i].0 != Flatten(entries, "")[j].0
  {
    var flat := Flatten(entries, "");
    ToPathsOfFlatten(entries);
    LeavesAreDistinct(entries);
    forall i, j | 0 <= i < j < |flat|
      ensures flat[i].0 != flat[j].0
    {
      assert ToPaths(flat)[i].0 != ToPaths(flat)[j].0;
    }
  }

  // ----- the same map with other texts

  function NewText(key: string, text: string, texts: map<string, string>): string {
    if key in texts then texts[key] else text
  }

  /** The map with the text of every dotted key replaced, and without the nested maps that hold no
      text at all. */
  function Relabel(entries: Entries, prefix: string, texts: map<string, string>): Entries
    decreases entries
  {
    if entries == [] then []
    else
      var key, rest := FullKey(prefix, entries[0].key), Relabel(entries[1..], prefix, texts);
      match entries[0].node
      case Leaf(text) => [Entry(entries[0].key, Leaf(NewText(key, text, texts)))] + rest
      case Branch(nested) =>
        var nested' := Relabel(nested, key, texts);
        if nested' == [] then rest else [Entry(entries[0].key, Branch(nested'))] + rest
  }

  function RelabelList(list: seq<(string, string)>, texts: map<string, string>): (r: seq<(string, string)>)
    ensures |r| == |list| && forall i :: 0 <= i < |r| ==> r[i] == (list[i].0, NewText(list[i].0, list[i].1, texts))
  {
    seq(|list|, i requires 0 <= i < |list| => (list[i].0, NewText(list[i].0, list[i].1, texts)))
  }

  lemma RelabelConcat(a: seq<(string, string)>, b: seq<(string, string)>, texts: map<string, string>)
    ensures RelabelList(a + b, texts) == RelabelList(a, texts) + RelabelList(b, texts)
  {
  }

  lemma {:induction false} RelabelFind(entries: Entries, prefix: string, texts: map<string, string>, key: string)
    requires Find(entries, key).None?
    ensures Find(Relabel(entries, prefix, texts), key).None?
    decreases |entries|
  {
    if entries != [] {
      RelabelFind(entries[1..], prefix, texts, key);
    }
  }

  lemma {:induction false} RelabelFlatten(entries: Entries, prefix: string, texts: map<string, string>)
    requires WellKeyed(entries)
    ensures WellKeyed(Relabel(entries, prefix, texts)) && NoEmptyMaps(Relabel(entries, prefix, texts))
    ensures Flatten(Relabel(entries, prefix, texts), prefix) == RelabelList(Flatten(entries, prefix), texts)
    decreases entries
  {
    if entries != [] {
      var key := FullKey(prefix, entries[0].key);
      var rest := Relabel(entries[1..], prefix, texts);
      RelabelFind(entries[1..], prefix, texts, entries[0].key);
      RelabelFlatten(entries[1..], prefix, texts);
      match entries[0].node
      case Leaf(text) =>
        RelabelConcat([(key, text)], Flatten(entries[1..], prefix), texts);
        assert Relabel(entries, prefix, texts)[1..] == rest;
      case Branch(nested) =>
        RelabelFlatten(nested, key, texts);
        RelabelNested(entries, prefix, texts);
    }
  }

  lemma RelabelNested(entries: Entries, prefix: string, texts: map<string, string>)
    requires WellKeyed(entries) && entries != [] && entries[0].node.Branch?
    requires var (nested, key) := (entries[0].node.entries, FullKey(prefix, entries[0].key));
             && WellKeyed(Relabel(nested, key, texts)) && NoEmptyMaps(Relabel(nested, key, texts))
             && Flatten(Relabel(nested, key, texts), key) == RelabelList(Flatten(nested, key), texts)
    requires var rest := Relabel(entries[1..], prefix, texts);
             && WellKeyed(rest) && NoEmptyMaps(rest) && Find(rest, entries[0].key).None?
             && Flatten(rest, prefix) == RelabelList(Flatten(entries[1..], prefix), texts)
    ensures WellKeyed(Relabel(entries, prefix, texts)) && NoEmptyMaps(Relabel(entries, prefix, texts))
    ensures Flatten(Relabel(entries, prefix, texts), prefix) == RelabelList(Flatten(entries, prefix), texts)
  {
    var key, nested := FullKey(prefix, entries[0].key), entries[0].node.entries;
    var rest, nested' := Relabel(entries[1..], prefix, texts), Relabel(nested, key, texts);
    RelabelConcat(Flatten(nested, key), Flatten(entries[1..], prefix), texts);
    if nested' != [] {
      assert Relabel(entries, prefix, texts) == [Entry(entries[0].key, Branch(nested'))] + rest;
      assert Relabel(entries, prefix, texts)[1..] == rest;
    } else {
      assert RelabelList(Flatten(nested, key), texts) == [];
    }
  }

  lemma {:induction false} RelabelNames(entries: Entries, prefix: string, texts: map<string, string>)
    requires NoNamelessMap(entries)
    ensures NoNamelessMap(Relabel(entries, prefix, texts))
    decreases |entries|
  {
    if entries != [] {
      RelabelNames(entries[1..], prefix, texts);
    }
  }

  lemma {:induction false} RelabelInherited(entries: Entries, prefix: string, texts: map<string, string>)
    requires NoInheritedMap(entries)
    ensures NoInheritedMap(Relabel(entries, prefix, texts))
    decreases entries
  {
    if entries != [] {
      RelabelInherited(entries[1..], prefix, texts);
      if entries[0].node.Branch? {
        RelabelInherited(entries[0].node.entries, FullKey(prefix, entries[0].key), texts);
      }
    }
  }

  /** Setting new texts for the flattened keys of a map, in order, gives a map whose flattened keys
      are exactly the same, in the same order, with the new texts. */
  lemma RebuildRelabelled(entries: Entries, texts: map<string, string>)
    requires WellKeyed(entries) && NoNamelessMap(entries) && NoInheritedMap(entries)
    ensures Flatten(Rebuild(RelabelList(Flatten(entries, ""), texts), []), "") ==
            RelabelList(Flatten(entries, ""), texts)
  {
    RelabelFlatten(entries, "", texts);
    RelabelNames(entries, "", texts);
    RelabelInherited(entries, "", texts);
    FlattenRebuilds(Relabel(entries, "", texts));
  }
}
