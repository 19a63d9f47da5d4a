/** Which dotted keys survive being set one after the other (`flattenTranslations`,
    `setNestedValue` in scripts/control-ui-i18n.ts): exactly those that keep out of each other's way
    and out of Object.prototype. */
module TranslationKeys {
  import opened ObjectPrototype
  import opened TranslationTree
  import opened Wrappers

  predicate NoLeadingDot(key: string) {
    key != "" ==> key[0] != '.'
  }

  predicate DistinctPairs(list: seq<(string, string)>) {
    forall i, j :: 0 <= i < j < |list| ==> list[i].0 != list[j].0
  }

  /** No key begins with a dot or leads through an inherited property, and none leads through
      another. */
  predicate Separate(list: seq<(string, string)>) {
    && (forall i :: 0 <= i < |list| ==> NoLeadingDot(list[i].0) && Walkable(Split(list[i].0)))
    && (forall i, j :: 0 <= i < |list| && 0 <= j < |list| && list[i].0 != list[j].0 ==>
                         !(Split(list[i].0) <= Split(list[j].0)))
  }

  lemma {:induction false} JoinSplit(key: string)
    ensures Join(Split(key)) == key
    decreases |key|
  {
    var i := IndexOfDot(key);
    if i < |key| {
      JoinSplit(key[i + 1..]);
      JoinFirst(key[..i], Split(key[i + 1..]));
      CutAtDot(key, i);
    }
  }

  lemma JoinFirst(first: string, rest: Path)
    requires rest != []
    ensures Join([first] + rest) == first + "." + Join(rest)
  {
    assert ([first] + rest)[1..] == rest;
  }

  lemma CutAtDot(key: string, i: nat)
    requires i < |key| && key[i] == '.'
    ensures key == key[..i] + "." + key[i + 1..]
  {
  }

  lemma {:induction false} SplitIsKeyPath(text: string)
    ensures IsKeyPath(Split(text))
    ensures Split(text)[0] == "" && |Split(text)| > 1 ==> text != "" && text[0] == '.'
    decreases |text|
  {
    var i := IndexOfDot(text);
    if i < |text| {
      SplitIsKeyPath(text[i + 1..]);
    } else {
      assert text[..i] == text;
    }
  }

  // ----- what every rebuilt map is like

  lemma {:induction false} PutKeepsWellKeyed(entries: Entries, key: string, node: Node)
    requires WellKeyed(entries) && DotFree(key) && (node.Branch? ==> WellKeyed(node.entries))
    ensures WellKeyed(Put(entries, key, node))
    decreases |entries|
  {
    if entries != [] && entries[0].key != key {
      PutKeepsWellKeyed(entries[1..], key, node);
      FindPut(entries[1..], key, node, entries[0].key);
    }
  }

  lemma {:induction false} FindWellKeyed(entries: Entries, key: string)
    requires WellKeyed(entries) && Find(entries, key).Some? && Find(entries, key).value.Branch?
    ensures WellKeyed(Find(entries, key).value.entries)
    decreases |entries|
  {
    if entries[0].key != key {
      FindWellKeyed(entries[1..], key);
    }
  }

  lemma {:induction false} SetPathKeepsWellKeyed(entries: Entries, path: Path, text: string)
    requires WellKeyed(entries) && path != [] && IsKeyPath(path)
    ensures WellKeyed(SetPath(entries, path, text))
    decreases |path|
  {
    if |path| == 1 {
      PutKeepsWellKeyed(entries, path[0], Leaf(text));
    } else {
      var next := Find(entries, path[0]);
      var nested := if next.Some? && next.value.Branch? then next.value.entries else [];
      if next.Some? && next.value.Branch? {
        FindWellKeyed(entries, path[0]);
      }
      SetPathKeepsWellKeyed(nested, path[1..], text);
      PutKeepsWellKeyed(entries, path[0], Branch(SetPath(nested, path[1..], text)));
    }
  }

  lemma {:induction false} PutKeepsNames(entries: Entries, key: string, node: Node)
    requires NoNamelessMap(entries) && (node.Branch? ==> key != "")
    ensures NoNamelessMap(Put(entries, key, node))
    decreases |entries|
  {
    if entries != [] && entries[0].key != key {
      PutKeepsNames(entries[1..], key, node);
    }
  }

  lemma SetPathKeepsNames(entries: Entries, path: Path, text: string)
    requires NoNamelessMap(entries) && path != [] && (|path| > 1 ==> path[0] != "")
    ensures NoNamelessMap(SetPath(entries, path, text))
  {
    var next := Find(entries, path[0]);
    var nested := if next.Some? && next.value.Branch? then next.value.entries else [];
    PutKeepsNames(entries, path[0], if |path| == 1 then Leaf(text) else Branch(SetPath(nested, path[1..], text)));
  }

  lemma {:induction false} RebuiltIsWellKeyed(list: seq<(string, string)>, root: Entries)
    requires WellKeyed(root)
    ensures WellKeyed(Rebuild(list, root))
    decreases |list|
  {
    if list != [] {
      var (key, text) := list[0];
      SplitIsKeyPath(key);
      SetPathKeepsWellKeyed(root, Split(key), text);
      RebuiltIsWellKeyed(list[1..], SetNestedValue(root, key, text));
    }
  }

  lemma {:induction false} RebuiltHasNames(list: seq<(string, string)>, root: Entries)
    requires NoNamelessMap(root) && forall i :: 0 <= i < |list| ==> NoLeadingDot(list[i].0)
    ensures NoNamelessMap(Rebuild(list, root))
    decreases |list|
  {
    if list != [] {
      var (key, text) := list[0];
      SplitIsKeyPath(key);
      assert NoLeadingDot(list[0].0);
      SetPathKeepsNames(root, Split(key), text);
      RebuiltHasNames(list[1..], SetNestedValue(root, key, text));
    }
  }

  lemma {:induction false} RebuildIsSetPaths(list: seq<(string, string)>, root: Entries)
    ensures forall i :: 0 <= i < |list| ==> ToPaths(list)[i].0 != []
    ensures Rebuild(list, root) == SetAll(ToPaths(list), root)
    decreases |list|
  {
    if list != [] {
      assert ToPaths(list)[1..] == ToPaths(list[1..]);
      RebuildIsSetPaths(list[1..], SetNestedValue(root, list[0].0, list[0].1));
    }
  }

  lemma {:induction false} FlattenHasNoLeadingDot(entries: Entries, prefix: string)
    requires WellKeyed(entries) && NoLeadingDot(prefix)
    ensures forall i :: 0 <= i < |Flatten(entries, prefix)| ==> NoLeadingDot(Flatten(entries, prefix)[i].0)
    decreases entries
  {
    if entries != [] {
      var key := FullKey(prefix, entries[0].key);
      assert entries[0].key != "" ==> entries[0].key[0] in entries[0].key;
      FlattenHasNoLeadingDot(entries[1..], prefix);
      if entries[0].node.Branch? {
        FlattenHasNoLeadingDot(entries[0].node.entries, key);
      }
    }
  }

  // ----- separate keys all survive

  lemma SeparateIsIndependent(list: seq<(string, string)>)
    requires Separate(list) && DistinctPairs(list)
    ensures Independent(ToPaths(list))
  {
    var paths := ToPaths(list);
    forall x, y | x in paths && y in paths && Comparable(x.0, y.0)
      ensures x == y
    {
      var i :| 0 <= i < |paths| && paths[i] == x;
      var j :| 0 <= j < |paths| && paths[j] == y;
      assert list[i].0 == list[j].0;
      assert i == j;
    }
  }

  /** A pair is in the flattened map exactly when its text is found at the key's path. */
  lemma InFlatten(entries: Entries, key: string, text: string)
    requires WellKeyed(entries) && NoNamelessMap(entries)
    ensures (key, text) in Flatten(entries, "") <==> Get(entries, Split(key)) == Some(text)
  {
    var flat, leaves, path := Flatten(entries, ""), Leaves(entries), Split(key);
    ToPathsOfFlatten(entries);
    LeavesAreGot(entries, path, text);
    JoinSplit(key);
    if (key, text) in flat {
      var i :| 0 <= i < |flat| && flat[i] == (key, text);
      assert ToPaths(flat)[i] == (path, text) == leaves[i];
    }
    if (path, text) in leaves {
      var i :| 0 <= i < |leaves| && leaves[i] == (path, text);
      assert flat[i].0 == Join(path) && ToPaths(flat)[i] == leaves[i];
    }
  }

  /** Setting separate keys in any order gives a map that flattens to just those keys and texts. */
  lemma SeparateSurvives(list: seq<(string, string)>)
    requires Separate(list) && DistinctPairs(list)
    ensures forall x :: x in Flatten(Rebuild(list, []), "") <==> x in list
  {
    var paths, built := ToPaths(list), Rebuild(list, []);
    RebuildIsSetPaths(list, []);
    RebuiltIsWellKeyed(list, []);
    RebuiltHasNames(list, []);
    SeparateIsIndependent(list);
    forall x
      ensures x in Flatten(built, "") <==> x in list
    {
      InFlatten(built, x.0, x.1);
      GotAfterSetting(list, x.0, x.1);
    }
  }

  /** Walkable paths stay in the map. */
  lemma {:induction false} WalkableStaysInside(entries: Entries, path: Path)
    requires Walkable(path)
    ensures Outside(entries, path).None?
    decreases |path|
  {
    if |path| > 1 {
      var next := Find(entries, path[0]);
      WalkableStaysInside(if next.Some? && next.value.Branch? then next.value.entries else [], path[1..]);
    }
  }

  /** Setting separate keys never throws. */
  lemma {:induction false} SeparateNeverThrows(list: seq<(string, string)>, root: Entries, refuses: Runtime)
    requires forall i :: 0 <= i < |list| ==> Walkable(Split(list[i].0))
    ensures !RebuildThrows(list, root, refuses)
    decreases |list|
  {
    if list != [] {
      WalkableStaysInside(root, Split(list[0].0));
      SeparateNeverThrows(list[1..], SetNestedValue(root, list[0].0, list[0].1), refuses);
    }
  }

  lemma GotAfterSetting(list: seq<(string, string)>, key: string, text: string)
    requires Separate(list) && Independent(ToPaths(list))
    ensures Get(Rebuild(list, []), Split(key)) == Some(text) <==> (key, text) in list
  {
    var paths, path := ToPaths(list), Split(key);
    RebuildIsSetPaths(list, []);
    GetSetAll(paths, [], path);
    JoinSplit(key);
    if (path, text) in paths {
      var i :| 0 <= i < |paths| && paths[i] == (path, text);
      JoinSplit(list[i].0);
      assert list[i] == (key, text);
    }
    if (key, text) in list {
      var i :| 0 <= i < |list| && list[i] == (key, text);
      assert paths[i] == (path, text) && Comparable(paths[i].0, path);
    }
  }

  // ----- and only separate keys do

  /** The node at the end of a path of own properties. */
  function NodeAt(entries: Entries, path: Path): Option<Node>
    decreases |path|
  {
    if path == [] then None
    else
      var next := Find(entries, path[0]);
      if |path| == 1 then next
      else if next.Some? && next.value.Branch? then NodeAt(next.value.entries, path[1..])
      else None
  }

  /** An own property with an inherited name comes about only by setting a text just there. */
  lemma {:induction false} NodeAtSet(entries: Entries, path: Path, text: string, p: Path)
    requires path != [] && p != [] && Inherited(p[|p| - 1])
    requires NodeAt(SetPath(entries, path, text), p).Some?
    ensures NodeAt(entries, p).Some? || (p == path && p[|p| - 1] != PROTO)
    decreases |path|
  {
    var next := Find(entries, path[0]);
    if |path| == 1 {
      FindPut(entries, path[0], Leaf(text), p[0]);
    } else if next.Some? || !Inherited(path[0]) {
      var nested := if next.Some? && next.value.Branch? then next.value.entries else [];
      FindPut(entries, path[0], Branch(SetPath(nested, path[1..], text)), p[0]);
      if p[0] == path[0] && |p| > 1 {
        NodeAtSet(nested, path[1..], text, p[1..]);
        assert p == [p[0]] + p[1..] && path == [path[0]] + path[1..];
      }
    }
  }

  lemma {:induction false} NodeAtRebuilt(list: seq<(string, string)>, root: Entries, p: Path)
    requires p != [] && Inherited(p[|p| - 1]) && NodeAt(root, p).None?
    ensures NodeAt(Rebuild(list, root), p).Some? ==>
              p[|p| - 1] != PROTO && exists i :: 0 <= i < |list| && Split(list[i].0) == p
    decreases |list|
  {
    if list != [] {
      var root' := SetNestedValue(root, list[0].0, list[0].1);
      if NodeAt(root', p).Some? {
        NodeAtSet(root, Split(list[0].0), list[0].1, p);
        assert Split(list[0].0) == p;
      } else {
        NodeAtRebuilt(list[1..], root', p);
        assert forall i :: 0 <= i < |list| - 1 ==> list[1..][i] == list[i + 1];
      }
    }
  }

  lemma {:induction false} NodesOnTheWay(entries: Entries, path: Path, n: nat)
    requires Get(entries, path).Some? && 1 <= n <= |path|
    ensures NodeAt(entries, path[..n]).Some?
    decreases |path|
  {
    if n > 1 {
      assert path[..n][1..] == path[1..][..n - 1];
      NodesOnTheWay(Find(entries, path[0]).value.entries, path[1..], n - 1);
    }
  }

  /** The keys of a flattened map. */
  predicate Keeps(entries: Entries, key: string) {
    exists i :: 0 <= i < |Flatten(entries, "")| && Flatten(entries, "")[i].0 == key
  }

  lemma KeptIsGot(entries: Entries, key: string)
    requires WellKeyed(entries) && NoNamelessMap(entries) && Keeps(entries, key)
    ensures Get(entries, Split(key)).Some?
  {
    var flat := Flatten(entries, "");
    var j :| 0 <= j < |flat| && flat[j].0 == key;
    assert flat[j] in flat && flat[j] == (key, flat[j].1);
    InFlatten(entries, key, flat[j].1);
  }

  predicate AllKept(built: Entries, list: seq<(string, string)>) {
    forall i :: 0 <= i < |list| ==> Keeps(built, list[i].0)
  }

  predicate AllGot(built: Entries, list: seq<(string, string)>) {
    forall i :: 0 <= i < |list| ==> Get(built, Split(list[i].0)).Some?
  }

  predicate NoLeadingDots(list: seq<(string, string)>) {
    forall i :: 0 <= i < |list| ==> NoLeadingDot(list[i].0)
  }

  /** If every key of a list is still there after setting them all, the keys are separate. */
  lemma KeptIsSeparate(list: seq<(string, string)>)
    requires AllKept(Rebuild(list, []), list)
    ensures Separate(list)
  {
    var built := Rebuild(list, []);
    RebuiltIsWellKeyed(list, []);
    AllKeptAreUndotted(built, list);
    RebuiltHasNames(list, []);
    AllKeptAreGot(built, list);
    GotIsSeparate(built, list);
  }

  lemma AllKeptAreUndotted(built: Entries, list: seq<(string, string)>)
    requires WellKeyed(built) && AllKept(built, list)
    ensures NoLeadingDots(list)
  {
    FlattenHasNoLeadingDot(built, "");
    forall i | 0 <= i < |list|
      ensures NoLeadingDot(list[i].0)
    {
      assert Keeps(built, list[i].0);
    }
  }

  lemma AllKeptAreGot(built: Entries, list: seq<(string, string)>)
    requires WellKeyed(built) && NoNamelessMap(built) && AllKept(built, list)
    ensures AllGot(built, list)
  {
    forall i | 0 <= i < |list|
      ensures Get(built, Split(list[i].0)).Some?
    {
      KeptIsGot(built, list[i].0);
    }
  }

  lemma GotIsSeparate(built: Entries, list: seq<(string, string)>)
    requires built == Rebuild(list, []) && NoLeadingDots(list) && AllGot(built, list)
    ensures Separate(list)
  {
    forall i | 0 <= i < |list|
      ensures NoLeadingDot(list[i].0) && Walkable(Split(list[i].0))
    {
      GotIsWalkable(built, list, Split(list[i].0));
    }
    forall i, j | 0 <= i < |list| && 0 <= j < |list| && list[i].0 != list[j].0
      ensures !(Split(list[i].0) <= Split(list[j].0))
    {
      if Split(list[i].0) <= Split(list[j].0) {
        GotKeysAreApart(built, list[i].0, list[j].0);
      }
    }
  }

  lemma GotKeysAreApart(built: Entries, first: string, second: string)
    requires Get(built, Split(first)).Some? && Get(built, Split(second)).Some? && Split(first) <= Split(second)
    ensures first == second
  {
    GotPathsAreIndependent(built, Split(first), Split(second));
    JoinSplit(first);
    JoinSplit(second);
  }

  lemma GotIsWalkable(built: Entries, list: seq<(string, string)>, path: Path)
    requires built == Rebuild(list, []) && AllGot(built, list) && Get(built, path).Some?
    ensures Walkable(path)
  {
    NodesOnTheWay(built, path, |path|);
    assert path[..|path|] == path;
    assert NodeAt([], path).None?;
    if path[|path| - 1] == PROTO {
      NodeAtRebuilt(list, [], path);
    }
    forall n | 0 <= n < |path| - 1
      ensures !Inherited(path[n])
    {
      OnTheWayIsNotInherited(built, list, path, n);
    }
  }

  lemma OnTheWayIsNotInherited(built: Entries, list: seq<(string, string)>, path: Path, n: nat)
    requires built == Rebuild(list, []) && AllGot(built, list)
    requires Get(built, path).Some? && n < |path| - 1
    ensures !Inherited(path[n])
  {
    var p := path[..n + 1];
    NodesOnTheWay(built, path, n + 1);
    assert NodeAt([], p).None? && p[|p| - 1] == path[n];
    if Inherited(path[n]) {
      NodeAtRebuilt(list, [], p);
      var j :| 0 <= j < |list| && Split(list[j].0) == p;
      assert Get(built, Split(list[j].0)).Some?;
      GotPathsAreIndependent(built, p, path);
    }
  }

  /** So a list whose keys are not separate loses one of them. */
  lemma OneIsLost(list: seq<(string, string)>) returns (i: nat)
    requires !Separate(list)
    ensures i < |list| && !Keeps(Rebuild(list, []), list[i].0)
  {
    var built := Rebuild(list, []);
    if AllKept(built, list) {
      KeptIsSeparate(list);
    }
    i :| i < |list| && !Keeps(built, list[i].0);
  }

  /** Setting keys loses none of them exactly when they are separate. */
  lemma KeptExactly(list: seq<(string, string)>)
    requires DistinctPairs(list)
    ensures AllKept(Rebuild(list, []), list) <==> Separate(list)
  {
    var built := Rebuild(list, []);
    if Separate(list) {
      SeparateSurvives(list);
      forall i | 0 <= i < |list|
        ensures Keeps(built, list[i].0)
      {
        assert list[i] in Flatten(built, "");
      }
    } else {
      var i := OneIsLost(list);
    }
  }

  // ----- which maps are rebuilt from their own keys

  /** Keys are distinct at every level, as in any object. */
  predicate DistinctKeys(entries: Entries)
    decreases entries
  {
    entries != [] ==>
      && Find(entries[1..], entries[0].key).None?
      && (entries[0].node.Branch? ==> DistinctKeys(entries[0].node.entries))
      && DistinctKeys(entries[1..])
  }

  lemma {:induction false} ProperHasNoEmptyMaps(entries: Entries)
    requires Proper(entries)
    ensures NoEmptyMaps(entries)
    decreases entries
  {
    if entries != [] {
      ProperHasNoEmptyMaps(entries[1..]);
      if entries[0].node.Branch? {
        ProperHasNoEmptyMaps(entries[0].node.entries);
      }
    }
  }

  predicate AllWalkable(list: seq<(Path, string)>) {
    forall i :: 0 <= i < |list| ==> list[i].0 != [] && Walkable(list[i].0)
  }

  lemma BothWalkable(a: seq<(Path, string)>, b: seq<(Path, string)>)
    requires AllWalkable(a + b)
    ensures AllWalkable(a) && AllWalkable(b)
  {
    assert forall i :: 0 <= i < |a| ==> (a + b)[i] == a[i];
    assert forall i :: 0 <= i < |b| ==> (a + b)[|a| + i] == b[i];
  }

  lemma {:induction false} WalkableLeaves(entries: Entries)
    requires NoEmptyMaps(entries) && AllWalkable(Leaves(entries))
    ensures NoInheritedMap(entries)
    ensures entries != [] ==> Leaves(entries) != []
    decreases entries
  {
    if entries != [] {
      assert Leaves(entries) == EntryLeaves(entries[0]) + Leaves(entries[1..]);
      BothWalkable(EntryLeaves(entries[0]), Leaves(entries[1..]));
      WalkableLeaves(entries[1..]);
      WalkableEntry(entries[0]);
    }
  }

  lemma {:induction false} WalkableEntry(entry: Entry)
    requires entry.node.Branch? ==> entry.node.entries != [] && NoEmptyMaps(entry.node.entries)
    requires AllWalkable(EntryLeaves(entry))
    ensures entry.key != PROTO && (entry.node.Branch? ==> !Inherited(entry.key) && NoInheritedMap(entry.node.entries))
    ensures EntryLeaves(entry) != []
    decreases entry
  {
    if entry.node.Leaf? {
      assert EntryLeaves(entry)[0].0 == [entry.key];
    } else {
      WalkableUnder(entry.key, Leaves(entry.node.entries));
      LeavesAreNonEmpty(entry.node.entries);
      WalkableLeaves(entry.node.entries);
    }
  }

  lemma WalkableUnder(key: string, list: seq<(Path, string)>)
    requires AllWalkable(Under(key, list))
    ensures (forall i :: 0 <= i < |list| ==> list[i].0 != []) ==> AllWalkable(list)
    ensures (forall i :: 0 <= i < |list| ==> list[i].0 != []) && list != [] ==> !Inherited(key)
  {
    if forall i :: 0 <= i < |list| ==> list[i].0 != [] {
      forall i | 0 <= i < |list|
        ensures Walkable(list[i].0) && !Inherited(key)
      {
        assert Walkable(Under(key, list)[i].0);
        WalkableBelow(key, list[i].0);
      }
      assert list != [] ==> list[0].0 != [] && !Inherited(key);
    }
  }

  lemma {:induction false} LeavesAreNonEmpty(entries: Entries)
    ensures forall i :: 0 <= i < |Leaves(entries)| ==> Leaves(entries)[i].0 != []
    decreases entries
  {
    if entries != [] {
      LeavesAreNonEmpty(entries[1..]);
    }
  }

  /** Flattening and setting again gives a map back exactly when no key has a dot, no nested map is
      empty or stands under the empty key at the top, and no way leads through Object.prototype. */
  lemma RebuildsExactly(entries: Entries)
    requires DistinctKeys(entries)
    ensures Rebuild(Flatten(entries, ""), []) == entries <==>
            WellKeyed(entries) && NoEmptyMaps(entries) && NoNamelessMap(entries) && NoInheritedMap(entries)
  {
    var flat := Flatten(entries, "");
    if Rebuild(flat, []) == entries {
      RebuiltIsWellKeyed(flat, []);
      FlattenHasNoLeadingDot(entries, "");
      RebuiltHasNames(flat, []);
      KeptIsSeparate(flat);
      RebuildIsSetPaths(flat, []);
      ToPathsOfFlatten(entries);
      forall i | 0 <= i < |flat|
        ensures ToPaths(flat)[i].0 != [] && Walkable(ToPaths(flat)[i].0)
      {
        assert Walkable(Split(flat[i].0));
      }
      assert AllWalkable(Leaves(entries));
      SetAllKeepsProper(ToPaths(flat), []);
      ProperHasNoEmptyMaps(entries);
      WalkableLeaves(entries);
    } else if WellKeyed(entries) && NoEmptyMaps(entries) && NoNamelessMap(entries) && NoInheritedMap(entries) {
      FlattenRebuilds(entries);
    }
  }

  // ----- whether a list throws depends on its keys alone

  /** Maps with the same keys in the same order and texts in the same places. */
  predicate SameKeys(a: Entries, b: Entries)
    decreases a
  {
    |a| == |b| &&
    (a != [] ==> a[0].key == b[0].key && SameKind(a[0].node, b[0].node) && SameKeys(a[1..], b[1..]))
  }

  predicate SameKind(a: Node, b: Node)
    decreases a
  {
    if a.Leaf? then b.Leaf? else b.Branch? && SameKeys(a.entries, b.entries)
  }

  lemma {:induction false} FindSameKeys(a: Entries, b: Entries, key: string)
    requires SameKeys(a, b)
    ensures Find(a, key).Some? <==> Find(b, key).Some?
    ensures Find(a, key).Some? ==> SameKind(Find(a, key).value, Find(b, key).value)
    decreases |a|
  {
    if a != [] && a[0].key != key {
      FindSameKeys(a[1..], b[1..], key);
    }
  }

  lemma {:induction false} PutSameKeys(a: Entries, b: Entries, key: string, node: Node, node': Node)
    requires SameKeys(a, b) && SameKind(node, node')
    ensures SameKeys(Put(a, key, node), Put(b, key, node'))
    decreases |a|
  {
    if a != [] && a[0].key != key {
      PutSameKeys(a[1..], b[1..], key, node, node');
    }
  }

  lemma {:induction false} SetSameKeys(a: Entries, b: Entries, path: Path, text: string, text': string)
    requires SameKeys(a, b) && path != []
    ensures SameKeys(SetPath(a, path, text), SetPath(b, path, text'))
    ensures Outside(a, path) == Outside(b, path)
    decreases |path|
  {
    FindSameKeys(a, b, path[0]);
    if |path| == 1 {
      PutSameKeys(a, b, path[0], Leaf(text), Leaf(text'));
    } else {
      var next, next' := Find(a, path[0]), Find(b, path[0]);
      var nested := if next.Some? && next.value.Branch? then next.value.entries else [];
      var nested' := if next'.Some? && next'.value.Branch? then next'.value.entries else [];
      SetSameKeys(nested, nested', path[1..], text, text');
      PutSameKeys(a, b, path[0], Branch(SetPath(nested, path[1..], text)), Branch(SetPath(nested', path[1..], text')));
    }
  }

  /** Whether setting a list of keys throws does not depend on the texts. */
  lemma {:induction false} ThrowsByKeysAlone(list: seq<(string, string)>, list': seq<(string, string)>, root: Entries,
                                             root': Entries,
                                             refuses: Runtime)
    requires |list| == |list'| && forall i :: 0 <= i < |list| ==> list[i].0 == list'[i].0
    requires SameKeys(root, root')
    ensures RebuildThrows(list, root, refuses) <==> RebuildThrows(list', root', refuses)
    decreases |list|
  {
    if list != [] {
      var key, text, text' := list[0].0, list[0].1, list'[0].1;
      SetSameKeys(root, root', Split(key), text, text');
      ThrowsByKeysAlone(list[1..], list'[1..], SetNestedValue(root, key, text),
                        SetNestedValue(root', key, text'), refuses);
    }
  }

  // ----- a list read as a map

  /** `map.set(key, text)`: a known key keeps its place. */
  function SetPair(list: seq<(string, string)>, key: string, text: string): seq<(string, string)> {
    if list == [] then [(key, text)]
    else if list[0].0 == key then [(key, text)] + list[1..]
    else [list[0]] + SetPair(list[1..], key, text)
  }

  /** The entries of the map that `flattenTranslations` fills, in order. */
  function MapEntries(list: seq<(string, string)>): seq<(string, string)> {
    if list == [] then []
    else SetPair(MapEntries(list[..|list| - 1]), list[|list| - 1].0, list[|list| - 1].1)
  }

  lemma {:induction false} SetPairIs(list: seq<(string, string)>, key: string, text: string)
    requires DistinctPairs(list)
    ensures DistinctPairs(SetPair(list, key, text))
    ensures forall x :: x in SetPair(list, key, text) <==> x == (key, text) || (x in list && x.0 != key)
    decreases |list|
  {
    if list != [] {
      var rest := list[1..];
      assert forall x :: x in list <==> x == list[0] || x in rest;
      assert forall j :: 0 <= j < |rest| ==> rest[j] == list[j + 1] && rest[j].0 != list[0].0;
      SetPairIs(rest, key, text);
      var set' := SetPair(rest, key, text);
      assert forall j :: 0 <= j < |set'| ==> set'[j] in set';
    }
  }

  /** One entry per key, with the text that was set last. */
  lemma {:induction false} MapEntriesAre(list: seq<(string, string)>)
    ensures DistinctPairs(MapEntries(list))
    ensures forall x :: x in MapEntries(list) <==> x.0 in FlatMap(list) && FlatMap(list)[x.0] == x.1
    decreases |list|
  {
    if list != [] {
      var init, last := list[..|list| - 1], list[|list| - 1];
      MapEntriesAre(init);
      SetPairIs(MapEntries(init), last.0, last.1);
    }
  }

  lemma {:induction false} SetNewPair(list: seq<(string, string)>, key: string, text: string)
    requires forall i :: 0 <= i < |list| ==> list[i].0 != key
    ensures SetPair(list, key, text) == list + [(key, text)]
    decreases |list|
  {
    if list != [] {
      SetNewPair(list[1..], key, text);
    }
  }

  lemma {:induction false} MapEntriesOfDistinct(list: seq<(string, string)>)
    requires DistinctPairs(list)
    ensures MapEntries(list) == list
    decreases |list|
  {
    if list != [] {
      var init, last := list[..|list| - 1], list[|list| - 1];
      MapEntriesOfDistinct(init);
      SetNewPair(init, last.0, last.1);
    }
  }

  lemma {:induction false} FlatMapIs(list: seq<(string, string)>, key: string)
    ensures key in FlatMap(list) ==> (key, FlatMap(list)[key]) in list
    ensures (exists i :: 0 <= i < |list| && list[i].0 == key) ==> key in FlatMap(list)
    decreases |list|
  {
    if list != [] {
      FlatMapIs(list[..|list| - 1], key);
    }
  }

  /** Lists with the same pairs, one for each key, leave the same map behind. */
  lemma SamePairsSameMap(a: seq<(string, string)>, b: seq<(string, string)>)
    requires DistinctPairs(b) && forall x :: x in a <==> x in b
    ensures FlatMap(a) == FlatMap(b)
  {
    forall key
      ensures key in FlatMap(a) <==> key in FlatMap(b)
      ensures key in FlatMap(a) && key in FlatMap(b) ==> FlatMap(a)[key] == FlatMap(b)[key]
    {
      FlatMapIs(a, key);
      FlatMapIs(b, key);
      if key in FlatMap(b) {
        var j :| 0 <= j < |a| && a[j] == (key, FlatMap(b)[key]);
        assert a[j].0 == key;
      }
      if key in FlatMap(a) {
        var i :| 0 <= i < |b| && b[i] == (key, FlatMap(a)[key]);
        assert b[i].0 == key;
        var j :| 0 <= j < |b| && b[j] == (key, FlatMap(b)[key]);
        assert i == j;
      }
    }
  }
}
