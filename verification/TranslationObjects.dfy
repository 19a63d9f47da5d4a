/** `setNestedValue` of scripts/control-ui-i18n.ts on objects that are changed in place.
    TranslationTree says what it computes; here a cursor walks down from object to object. */
module TranslationObjects {
  import opened ObjectPrototype
  import opened TranslationTree
  import opened Wrappers

  datatype Value = Text(text: string) | Nested(obj: MapObject)
  datatype Field = Field(key: string, value: Value)

  /** A JavaScript object with its properties in insertion order. */
  class MapObject {
    var fields: seq<Field>

    constructor ()
      ensures fields == []
    {
      fields := [];
    }
  }

  function FindField(fields: seq<Field>, key: string): Option<Value> {
    if fields == [] then None
    else if fields[0].key == key then Some(fields[0].value)
    else FindField(fields[1..], key)
  }

  /** `object[key] = value`. */
  function PutField(fields: seq<Field>, key: string, value: Value): seq<Field> {
    if fields == [] then [Field(key, value)]
    else if fields[0].key == key then [Field(key, value)] + fields[1..]
    else [fields[0]] + PutField(fields[1..], key, value)
  }

  // ----- layouts: which object stands where

  datatype Shape = AtText(text: string) | At(obj: MapObject, kids: Kids)
  datatype Kid = Kid(key: string, shape: Shape)
  type Kids = seq<Kid>

  /** The contents of objects at some moment. */
  type Heap = map<MapObject, seq<Field>>

  function Objects(s: Shape): set<MapObject>
    decreases s, 1
  {
    match s case AtText(_) => {} case At(obj, kids) => {obj} + KidObjects(kids)
  }

  function KidObjects(kids: Kids): set<MapObject>
    decreases kids, 0
  {
    if kids == [] then {} else Objects(kids[0].shape) + KidObjects(kids[1..])
  }

  function ValueOf(s: Shape): Value {
    match s case AtText(text) => Text(text) case At(obj, _) => Nested(obj)
  }

  function FieldsOf(kids: Kids): seq<Field> {
    if kids == [] then [] else [Field(kids[0].key, ValueOf(kids[0].shape))] + FieldsOf(kids[1..])
  }

  /** No object stands at two places, and every object has the fields that the layout gives it. */
  predicate Holds(s: Shape, h: Heap)
    decreases s, 1
  {
    s.At? ==> s.obj in h && h[s.obj] == FieldsOf(s.kids) && s.obj !in KidObjects(s.kids) && KidsHold(s.kids, h)
  }

  predicate KidsHold(kids: Kids, h: Heap)
    decreases kids, 0
  {
    kids != [] ==> Holds(kids[0].shape, h) && KidsHold(kids[1..], h) && Objects(kids[0].shape) !! KidObjects(kids[1..])
  }

  function Erase(s: Shape): Node
    decreases s, 1
  {
    match s case AtText(text) => Leaf(text) case At(_, kids) => Branch(EraseKids(kids))
  }

  /** The map that a layout stands for, without identities. */
  function EraseKids(kids: Kids): Entries
    decreases kids, 0
  {
    if kids == [] then [] else [Entry(kids[0].key, Erase(kids[0].shape))] + EraseKids(kids[1..])
  }

  function FindKid(kids: Kids, key: string): Option<Shape> {
    if kids == [] then None
    else if kids[0].key == key then Some(kids[0].shape)
    else FindKid(kids[1..], key)
  }

  function PutKid(kids: Kids, key: string, shape: Shape): Kids {
    if kids == [] then [Kid(key, shape)]
    else if kids[0].key == key then [Kid(key, shape)] + kids[1..]
    else [kids[0]] + PutKid(kids[1..], key, shape)
  }

  lemma {:induction false} KidFound(kids: Kids, key: string)
    ensures FindField(FieldsOf(kids), key) ==
            match FindKid(kids, key) { case None => None case Some(shape) => Some(ValueOf(shape)) }
    ensures Find(EraseKids(kids), key) ==
            match FindKid(kids, key) { case None => None case Some(shape) => Some(Erase(shape)) }
    decreases |kids|
  {
    if kids != [] {
      KidFound(kids[1..], key);
    }
  }

  lemma {:induction false} KidPut(kids: Kids, key: string, shape: Shape)
    ensures FieldsOf(PutKid(kids, key, shape)) == PutField(FieldsOf(kids), key, ValueOf(shape))
    ensures EraseKids(PutKid(kids, key, shape)) == Put(EraseKids(kids), key, Erase(shape))
    decreases |kids|
  {
    if kids != [] && kids[0].key != key {
      KidPut(kids[1..], key, shape);
      var rest := PutKid(kids[1..], key, shape);
      assert ([kids[0]] + rest)[1..] == rest;
    } else if kids != [] {
      assert ([Kid(key, shape)] + kids[1..])[1..] == kids[1..];
    }
  }

  // ----- one write below the root

  /** The objects along a path of keys; the last one is the cursor. */
  predicate Leads(s: Shape, path: Path, cursor: MapObject)
    decreases |path|
  {
    s.At? &&
    if path == [] then s.obj == cursor
    else FindKid(s.kids, path[0]).Some? && Leads(FindKid(s.kids, path[0]).value, path[1..], cursor)
  }

  function PutAt(s: Shape, path: Path, key: string, kid: Shape): Shape
    requires s.At?
    decreases |path|
  {
    if path == [] then s.(kids := PutKid(s.kids, key, kid))
    else
      var next := FindKid(s.kids, path[0]);
      if next.Some? && next.value.At? then
        s.(kids := PutKid(s.kids, path[0], PutAt(next.value, path[1..], key, kid)))
      else s
  }

  /** Objects outside a layout do not matter to it. */
  lemma {:induction false} HoldsElsewhere(s: Shape, h: Heap, h': Heap)
    requires Holds(s, h) && forall o :: o in Objects(s) ==> o in h && o in h' && h'[o] == h[o]
    ensures Holds(s, h')
    decreases s, 1
  {
    if s.At? {
      KidsHoldElsewhere(s.kids, h, h');
    }
  }

  lemma {:induction false} KidsHoldElsewhere(kids: Kids, h: Heap, h': Heap)
    requires KidsHold(kids, h) && forall o :: o in KidObjects(kids) ==> o in h && o in h' && h'[o] == h[o]
    ensures KidsHold(kids, h')
    decreases kids, 0
  {
    if kids != [] {
      HoldsElsewhere(kids[0].shape, h, h');
      KidsHoldElsewhere(kids[1..], h, h');
    }
  }

  /** One kid is replaced; the objects that change belong to it alone. */
  lemma {:induction false} KidReplaced(kids: Kids, key: string, kid: Shape, h: Heap, h': Heap, changed: set<MapObject>)
    requires KidsHold(kids, h) && Holds(kid, h')
    requires forall o :: o in KidObjects(kids) ==> o in h && o in h' && (o !in changed ==> h'[o] == h[o])
    requires var before := FindKid(kids, key);
             var own := if before.Some? then Objects(before.value) else {};
             changed * KidObjects(kids) <= own && Objects(kid) * KidObjects(kids) <= own
    ensures KidsHold(PutKid(kids, key, kid), h')
    ensures KidObjects(PutKid(kids, key, kid)) <= KidObjects(kids) + Objects(kid)
    decreases |kids|
  {
    if kids == [] {
      assert [Kid(key, kid)][1..] == [];
    } else if kids[0].key == key {
      assert ([Kid(key, kid)] + kids[1..])[1..] == kids[1..];
      KidsHoldElsewhere(kids[1..], h, h');
    } else {
      var rest := PutKid(kids[1..], key, kid);
      assert ([kids[0]] + rest)[1..] == rest;
      FoundBelow(kids[1..], key);
      KidReplaced(kids[1..], key, kid, h, h', changed);
      HoldsElsewhere(kids[0].shape, h, h');
    }
  }

  lemma {:induction false} FoundBelow(kids: Kids, key: string)
    ensures FindKid(kids, key).Some? ==> Objects(FindKid(kids, key).value) <= KidObjects(kids)
    decreases |kids|
  {
    if kids != [] && kids[0].key != key {
      FoundBelow(kids[1..], key);
    }
  }

  lemma {:induction false} FoundHolds(kids: Kids, key: string, h: Heap)
    requires KidsHold(kids, h)
    ensures FindKid(kids, key).Some? ==> Holds(FindKid(kids, key).value, h)
    decreases |kids|
  {
    if kids != [] && kids[0].key != key {
      FoundHolds(kids[1..], key, h);
    }
  }

  lemma {:induction false} CursorIsInside(s: Shape, path: Path, cursor: MapObject)
    requires Leads(s, path, cursor)
    ensures cursor in Objects(s)
    decreases |path|
  {
    if path != [] {
      FoundBelow(s.kids, path[0]);
      CursorIsInside(FindKid(s.kids, path[0]).value, path[1..], cursor);
    }
  }

  lemma {:induction false} ObjectsInHeap(s: Shape, h: Heap)
    requires Holds(s, h)
    ensures Objects(s) <= h.Keys
    decreases s, 1
  {
    if s.At? {
      KidObjectsInHeap(s.kids, h);
    }
  }

  lemma {:induction false} KidObjectsInHeap(kids: Kids, h: Heap)
    requires KidsHold(kids, h)
    ensures KidObjects(kids) <= h.Keys
    decreases kids, 0
  {
    if kids != [] {
      ObjectsInHeap(kids[0].shape, h);
      KidObjectsInHeap(kids[1..], h);
    }
  }

  /** `cursor[key] = value`: text, or an object that stands nowhere yet. */
  lemma {:induction false} WriteKeeps(s: Shape, path: Path, cursor: MapObject, key: string, kid: Shape,
                                      h: Heap, h': Heap)
    requires Holds(s, h) && Leads(s, path, cursor) && Holds(kid, h') && Objects(kid) !! Objects(s)
    requires cursor in h && h' == h[cursor := PutField(h[cursor], key, ValueOf(kid))]
    ensures Holds(PutAt(s, path, key, kid), h')
    ensures PutAt(s, path, key, kid).At? && PutAt(s, path, key, kid).obj == s.obj
    ensures Objects(PutAt(s, path, key, kid)) <= Objects(s) + Objects(kid)
    decreases |path|
  {
    ObjectsInHeap(s, h);
    CursorIsInside(s, path, cursor);
    if path == [] {
      KidPut(s.kids, key, kid);
      KidReplaced(s.kids, key, kid, h, h', {});
    } else {
      var next := FindKid(s.kids, path[0]).value;
      FoundBelow(s.kids, path[0]);
      FoundHolds(s.kids, path[0], h);
      CursorIsInside(next, path[1..], cursor);
      WriteKeeps(next, path[1..], cursor, key, kid, h, h');
      var next' := PutAt(next, path[1..], key, kid);
      KidPut(s.kids, path[0], next');
      SameValueSameFields(s.kids, path[0], next');
      KidReplaced(s.kids, path[0], next', h, h', {cursor});
    }
  }

  lemma {:induction false} SameValueSameFields(kids: Kids, key: string, kid: Shape)
    requires FindKid(kids, key).Some? && ValueOf(FindKid(kids, key).value) == ValueOf(kid)
    ensures FieldsOf(PutKid(kids, key, kid)) == FieldsOf(kids)
    decreases |kids|
  {
    if kids[0].key == key {
      assert ([Kid(key, kid)] + kids[1..])[1..] == kids[1..];
    } else {
      var rest := PutKid(kids[1..], key, kid);
      assert ([kids[0]] + rest)[1..] == rest;
      SameValueSameFields(kids[1..], key, kid);
    }
  }

  lemma {:induction false} LeadsOn(s: Shape, path: Path, cursor: MapObject, key: string, next: MapObject)
    requires Leads(s, path, cursor) && KidAt(s, path, key).Some? && KidAt(s, path, key).value.At? &&
             KidAt(s, path, key).value.obj == next
    ensures Leads(s, path + [key], next)
    decreases |path|
  {
    if path == [] {
      assert ([] + [key])[0] == key && ([] + [key])[1..] == [];
    } else {
      assert (path + [key])[1..] == path[1..] + [key];
      LeadsOn(FindKid(s.kids, path[0]).value, path[1..], cursor, key, next);
    }
  }

  /** What the cursor's object holds under a key. */
  function KidAt(s: Shape, path: Path, key: string): Option<Shape>
    decreases |path|
  {
    if !s.At? then None
    else if path == [] then FindKid(s.kids, key)
    else
      var next := FindKid(s.kids, path[0]);
      if next.None? then None else KidAt(next.value, path[1..], key)
  }

  lemma {:induction false} CursorFields(s: Shape, path: Path, cursor: MapObject, key: string, h: Heap)
    requires Holds(s, h) && Leads(s, path, cursor)
    ensures cursor in h
    ensures FindField(h[cursor], key) ==
            match KidAt(s, path, key) { case None => None case Some(shape) => Some(ValueOf(shape)) }
    decreases |path|
  {
    if path == [] {
      KidFound(s.kids, key);
    } else {
      FoundHolds(s.kids, path[0], h);
      CursorFields(FindKid(s.kids, path[0]).value, path[1..], cursor, key, h);
    }
  }

  lemma {:induction false} FindPutKid(kids: Kids, key: string, kid: Shape)
    ensures FindKid(PutKid(kids, key, kid), key) == Some(kid)
    decreases |kids|
  {
    if kids != [] && kids[0].key != key {
      var rest := PutKid(kids[1..], key, kid);
      assert ([kids[0]] + rest)[1..] == rest;
      FindPutKid(kids[1..], key, kid);
    }
  }

  lemma {:induction false} PutLeads(s: Shape, path: Path, cursor: MapObject, key: string, next: MapObject)
    requires Leads(s, path, cursor)
    ensures Leads(PutAt(s, path, key, At(next, [])), path + [key], next)
    decreases |path|
  {
    if path == [] {
      FindPutKid(s.kids, key, At(next, []));
      assert ([] + [key])[0] == key && ([] + [key])[1..] == [];
    } else {
      var below := FindKid(s.kids, path[0]).value;
      PutLeads(below, path[1..], cursor, key, next);
      FindPutKid(s.kids, path[0], PutAt(below, path[1..], key, At(next, [])));
      assert (path + [key])[1..] == path[1..] + [key];
    }
  }

  // ----- what the writes do to the map

  lemma {:induction false} PutTwice(entries: Entries, key: string, first: Node, second: Node)
    ensures Put(Put(entries, key, first), key, second) == Put(entries, key, second)
    ensures Find(Put(entries, key, first), key) == Some(first)
    decreases |entries|
  {
    if entries == [] {
      assert [Entry(key, first)][1..] == [];
    } else if entries[0].key == key {
      assert ([Entry(key, first)] + entries[1..])[1..] == entries[1..];
    } else {
      var rest := Put(entries[1..], key, first);
      assert ([entries[0]] + rest)[1..] == rest;
      PutTwice(entries[1..], key, first, second);
    }
  }

  /** The same walk from either map: it sets the same texts and leaves at the same place. */
  predicate SameWalk(a: Entries, b: Entries, path: Path, text: string)
    requires path != []
  {
    SetPath(a, path, text) == SetPath(b, path, text) && Outside(a, path) == Outside(b, path)
  }

  lemma WalkThrough(entries: Entries, nested: Entries, nested': Entries, path: Path, text: string)
    requires |path| > 1 && Find(entries, path[0]) == Some(Branch(nested)) && SameWalk(nested', nested, path[1..], text)
    ensures SameWalk(Put(entries, path[0], Branch(nested')), entries, path, text)
  {
    PutTwice(entries, path[0], Branch(nested'), Branch(SetPath(nested', path[1..], text)));
  }

  lemma WalkFromNew(entries: Entries, path: Path, text: string)
    requires |path| > 1
    requires var next := Find(entries, path[0]); if next.None? then !Inherited(path[0]) else next.value.Leaf?
    ensures SameWalk(Put(entries, path[0], Branch([])), entries, path, text)
  {
    PutTwice(entries, path[0], Branch([]), Branch(SetPath([], path[1..], text)));
  }

  /** Putting an empty object where the walk finds none changes nothing in the end. */
  lemma {:induction false} EmptyObjectIsHarmless(s: Shape, path: Path, cursor: MapObject, key: string, next: MapObject,
                                                 rest: Path, text: string)
    requires Leads(s, path, cursor) && rest != []
    requires if KidAt(s, path, key).None? then !Inherited(key) else KidAt(s, path, key).value.AtText?
    ensures SameWalk(EraseKids(PutAt(s, path, key, At(next, [])).kids), EraseKids(s.kids), path + [key] + rest, text)
    decreases |path|
  {
    var whole := path + [key] + rest;
    if path == [] {
      KidFound(s.kids, key);
      KidPut(s.kids, key, At(next, []));
      assert whole[0] == key;
      WalkFromNew(EraseKids(s.kids), whole, text);
    } else {
      var below := FindKid(s.kids, path[0]).value;
      var below' := PutAt(below, path[1..], key, At(next, []));
      KidFound(s.kids, path[0]);
      KidPut(s.kids, path[0], below');
      assert whole[0] == path[0] && whole[1..] == path[1..] + [key] + rest;
      EmptyObjectIsHarmless(below, path[1..], cursor, key, next, rest, text);
      WalkThrough(EraseKids(s.kids), EraseKids(below.kids), EraseKids(below'.kids), whole, text);
    }
  }

  /** The write at the end of the walk is the whole change. */
  lemma {:induction false} LastWrite(s: Shape, path: Path, cursor: MapObject, key: string, text: string)
    requires Leads(s, path, cursor) && (key == PROTO ==> KidAt(s, path, key).Some?)
    ensures EraseKids(PutAt(s, path, key, AtText(text)).kids) == SetPath(EraseKids(s.kids), path + [key], text)
    ensures Outside(EraseKids(s.kids), path + [key]).None?
    decreases |path|
  {
    if path == [] {
      KidFound(s.kids, key);
      KidPut(s.kids, key, AtText(text));
      assert ([] + [key])[0] == key && |[] + [key]| == 1;
    } else {
      var below := FindKid(s.kids, path[0]).value;
      KidFound(s.kids, path[0]);
      KidPut(s.kids, path[0], PutAt(below, path[1..], key, AtText(text)));
      assert (path + [key])[1..] == path[1..] + [key];
      LastWrite(below, path[1..], cursor, key, text);
    }
  }

  lemma {:induction false} PutSame(entries: Entries, key: string)
    requires Find(entries, key).Some?
    ensures Put(entries, key, Find(entries, key).value) == entries
    decreases |entries|
  {
    if entries[0].key != key {
      PutSame(entries[1..], key);
    }
  }

  /** A walk that finds an inherited property where the map has none of its own changes nothing more. */
  lemma {:induction false} InheritedEndsTheWalk(s: Shape, path: Path, cursor: MapObject, key: string, rest: Path,
                                                text: string)
    requires Leads(s, path, cursor) && KidAt(s, path, key).None?
    requires if rest == [] then key == PROTO else Inherited(key)
    ensures SetPath(EraseKids(s.kids), path + [key] + rest, text) == EraseKids(s.kids)
    ensures Outside(EraseKids(s.kids), path + [key] + rest) == if rest == [] then None else Some([key] + rest)
    decreases |path|
  {
    var whole := path + [key] + rest;
    if path == [] {
      KidFound(s.kids, key);
      assert whole == [key] + rest && whole[1..] == rest;
    } else {
      KidFound(s.kids, path[0]);
      assert whole[0] == path[0] && whole[1..] == path[1..] + [key] + rest;
      InheritedEndsTheWalk(FindKid(s.kids, path[0]).value, path[1..], cursor, key, rest, text);
      PutSame(EraseKids(s.kids), path[0]);
    }
  }

  // ----- the program

  /** The objects are as the snapshot says. */
  ghost predicate Current(h: Heap)
    reads h.Keys
  {
    forall o :: o in h ==> o.fields == h[o]
  }

  /** A snapshot of a root object and the layout below it. */
  ghost predicate IsMap(root: MapObject, s: Shape, h: Heap)
    reads h.Keys
  {
    s.At? && s.obj == root && Holds(s, h) && Current(h)
  }

  /** `thrown`: the walk left the map, and the runtime refuses what it does from there on. */
  method SetNestedValue(root: MapObject, dottedKey: string, value: string, refuses: Runtime, ghost s: Shape,
                        ghost h: Heap)
    returns (thrown: bool, ghost s': Shape, ghost h': Heap)
    requires IsMap(root, s, h)
    modifies h.Keys
    ensures IsMap(root, s', h') && fresh(h'.Keys - h.Keys) && h.Keys <= h'.Keys
    ensures EraseKids(s'.kids) == TranslationTree.SetNestedValue(EraseKids(s.kids), dottedKey, value)
    ensures thrown == Refused(EraseKids(s.kids), dottedKey, refuses)
  {
    var parts := Split(dottedKey);
    s', h' := s, h;
    var cursor: MapObject?, outside := root, None;
    for index := 0 to |parts| - 1
      invariant IsMap(root, s', h') && fresh(h'.Keys - h.Keys) && h.Keys <= h'.Keys
      invariant Underway(s', parts, index, cursor, outside, value)
      invariant SameWalkIn(s, s', parts, value)
    {
      if cursor != null {
        cursor, outside, s', h' := StepDown(cursor, parts, index, value, root, s', h');
      }
    }
    if cursor != null {
      s', h' := SetLast(cursor, parts, value, root, s', h');
    }
    thrown := outside.Some? && refuses(outside.value);
  }

  ghost predicate SameWalkIn(s: Shape, s': Shape, parts: Path, value: string)
    requires parts != []
  {
    s.At? && s'.At? && SameWalk(EraseKids(s'.kids), EraseKids(s.kids), parts, value)
  }

  /** The cursor is at the end of the parts walked so far, or null when it has left the map for an
      object of the runtime; then the map is as it will be. */
  ghost predicate Underway(s: Shape, parts: Path, index: nat, cursor: MapObject?, outside: Option<Path>, value: string)
    requires index < |parts|
  {
    s.At? &&
    if cursor != null then outside.None? && Leads(s, parts[..index], cursor)
    else SetPath(EraseKids(s.kids), parts, value) == EraseKids(s.kids) && outside.Some? &&
         Outside(EraseKids(s.kids), parts) == outside
  }

  /** The assignment after the loop. */
  method SetLast(cursor: MapObject, parts: Path, value: string, ghost root: MapObject, ghost s: Shape, ghost h: Heap)
    returns (ghost s': Shape, ghost h': Heap)
    requires parts != [] && IsMap(root, s, h) && Leads(s, parts[..|parts| - 1], cursor)
    modifies h.Keys
    ensures IsMap(root, s', h') && h'.Keys == h.Keys
    ensures EraseKids(s'.kids) == SetPath(EraseKids(s.kids), parts, value)
    ensures Outside(EraseKids(s.kids), parts).None?
  {
    var last := parts[|parts| - 1];
    ghost var path := parts[..|parts| - 1];
    assert parts == path + [last] == path + [last] + [];
    s', h' := s, h;
    CursorFields(s, path, cursor, last, h);
    if last == PROTO && FindField(cursor.fields, last).None? {
      InheritedEndsTheWalk(s, path, cursor, last, [], value);
    } else {
      cursor.fields := PutField(cursor.fields, last, Text(value));
      h' := h[cursor := PutField(h[cursor], last, Text(value))];
      WriteKeeps(s, path, cursor, last, AtText(value), h, h');
      LastWrite(s, path, cursor, last, value);
      s' := PutAt(s, path, last, AtText(value));
    }
  }

  /** One turn of the loop: the next object on the way, made if there is none. */
  method StepDown(cursor: MapObject, parts: Path, index: nat, ghost value: string, ghost root: MapObject,
                  ghost s: Shape, ghost h: Heap)
    returns (next: MapObject?, outside: Option<Path>, ghost s': Shape, ghost h': Heap)
    requires index < |parts| - 1 && IsMap(root, s, h) && Leads(s, parts[..index], cursor)
    modifies h.Keys
    ensures IsMap(root, s', h') && fresh(h'.Keys - h.Keys) && h.Keys <= h'.Keys
    ensures Underway(s', parts, index + 1, next, outside, value)
    ensures SameWalkIn(s, s', parts, value)
  {
    var key := parts[index];
    ghost var path, rest := parts[..index], parts[index + 1..];
    assert parts[..index + 1] == path + [key] && parts == path + [key] + rest && parts[index..] == [key] + rest;
    CursorFields(s, path, cursor, key, h);
    var found := FindField(cursor.fields, key);
    next, outside, s', h' := null, None, s, h;
    if found.Some? && found.value.Nested? {
      next := found.value.obj;
      LeadsOn(s, path, cursor, key, next);
    } else if found.None? && Inherited(key) {
      outside := Some(parts[index..]);
      InheritedEndsTheWalk(s, path, cursor, key, rest, value);
    } else {
      next, s', h' := MakeNext(cursor, path, key, rest, value, root, s, h);
    }
  }

  /** `cursor[key] = replacement`. */
  method MakeNext(cursor: MapObject, ghost path: Path, key: string, ghost rest: Path, ghost value: string,
                  ghost root: MapObject, ghost s: Shape, ghost h: Heap)
    returns (next: MapObject, ghost s': Shape, ghost h': Heap)
    requires IsMap(root, s, h) && Leads(s, path, cursor) && rest != []
    requires if KidAt(s, path, key).None? then !Inherited(key) else KidAt(s, path, key).value.AtText?
    modifies h.Keys
    ensures IsMap(root, s', h') && fresh(h'.Keys - h.Keys) && h.Keys <= h'.Keys
    ensures Leads(s', path + [key], next)
    ensures SameWalkIn(s, s', path + [key] + rest, value)
  {
    CursorFields(s, path, cursor, key, h);
    next := new MapObject();
    ObjectsInHeap(s, h);
    cursor.fields := PutField(cursor.fields, key, Nested(next));
    ghost var larger := h[next := []];
    HoldsElsewhere(s, h, larger);
    h' := larger[cursor := PutField(h[cursor], key, Nested(next))];
    WriteKeeps(s, path, cursor, key, At(next, []), larger, h');
    PutLeads(s, path, cursor, key, next);
    EmptyObjectIsHarmless(s, path, cursor, key, next, rest, value);
    s' := PutAt(s, path, key, At(next, []));
  }

  /** The loop that builds a locale's object: setting dotted keys one after the other from an empty
      object on, up to the first that throws. */
  method BuildObject(list: seq<(string, string)>, refuses: Runtime)
    returns (root: MapObject, thrown: bool, ghost s: Shape, ghost h: Heap)
    ensures IsMap(root, s, h) && fresh(h.Keys)
    ensures thrown == RebuildThrows(list, [], refuses)
    ensures !thrown ==> EraseKids(s.kids) == Rebuild(list, [])
  {
    root := new MapObject();
    thrown := false;
    s, h := At(root, []), map[root := []];
    assert list[0..] == list;
    for i := 0 to |list|
      invariant IsMap(root, s, h) && fresh(h.Keys)
      invariant Rebuild(list[i..], EraseKids(s.kids)) == Rebuild(list, [])
      invariant RebuildThrows(list[i..], EraseKids(s.kids), refuses) == RebuildThrows(list, [], refuses)
    {
      assert list[i..][0] == list[i] && list[i..][1..] == list[i + 1..];
      thrown, s, h := SetNestedValue(root, list[i].0, list[i].1, refuses, s, h);
      if thrown {
        return;
      }
    }
  }
}
