/** The index of named protocol schemas (`stableJson`, `schemaSignature`, `registerNamedSchema` and
    `namedSchema` in scripts/protocol-gen-swift.ts).  A signature is the text of a canonical form;
    `JSON.stringify` never maps two forms to one text, so the form itself stands for the text. */
module SchemaIndex {
  import opened Wrappers

  /** A JSON value; the entries of an object are in the order in which they were written. */
  datatype Json =
    | Null
    | Bool(flag: bool)
    | Number(number: real)
    | Str(text: string)
    | Arr(items: seq<Json>)
    | Obj(entries: seq<Entry>)

  datatype Entry = Entry(key: string, value: Json)

  predicate DistinctKeys(entries: seq<Entry>) {
    forall i, j :: 0 <= i < j < |entries| ==> entries[i].key != entries[j].key
  }

  /** No object has a key twice, at any depth. */
  predicate WellFormed(v: Json) {
    match v
    case Arr(items) => forall i :: 0 <= i < |items| ==> WellFormed(items[i])
    case Obj(entries) => DistinctKeys(entries) && forall i :: 0 <= i < |entries| ==> WellFormed(entries[i].value)
    case _ => true
  }

  function Keys(entries: seq<Entry>): set<string> {
    set i | 0 <= i < |entries| :: entries[i].key
  }

  /** Equality up to the order of object keys, without mention of sorting: the same keys, and equal
      values under equal keys. */
  ghost predicate Equiv(a: Json, b: Json)
    decreases a
  {
    match (a, b)
    case (Arr(xs), Arr(ys)) => |xs| == |ys| && forall i :: 0 <= i < |xs| ==> Equiv(xs[i], ys[i])
    case (Obj(xs), Obj(ys)) =>
      && Keys(xs) == Keys(ys)
      && forall i, j :: 0 <= i < |xs| && 0 <= j < |ys| && xs[i].key == ys[j].key ==> Equiv(xs[i].value, ys[j].value)
    case _ => a == b
  }

  // ----- the canonical form

  /** The order of strings by code units, which `toSorted` uses when it is given no comparison. */
  predicate Below(a: string, b: string)
    decreases |a|
  {
    b != [] && (a == [] || a[0] < b[0] || (a[0] == b[0] && Below(a[1..], b[1..])))
  }

  lemma {:induction false} BelowIsTotal(a: string, b: string)
    ensures a == b || Below(a, b) || Below(b, a)
    ensures !(Below(a, b) && Below(b, a)) && !Below(a, a)
    decreases |a|
  {
    if a != [] {
      BelowIsTotal(a[1..], a[1..]);
      if b != [] {
        BelowIsTotal(a[1..], b[1..]);
        if a[0] == b[0] && a[1..] == b[1..] {
          assert a == [a[0]] + a[1..] && b == [b[0]] + b[1..];
        }
      }
    }
  }

  lemma {:induction false} BelowIsTransitive(a: string, b: string, c: string)
    requires Below(a, b) && Below(b, c)
    ensures Below(a, c)
    decreases |a|
  {
    if a != [] && a[0] == b[0] == c[0] {
      BelowIsTransitive(a[1..], b[1..], c[1..]);
    }
  }

  function Insert(entry: Entry, sorted: seq<Entry>): seq<Entry>
    decreases |sorted|
  {
    if sorted == [] || Below(entry.key, sorted[0].key) then [entry] + sorted
    else [sorted[0]] + Insert(entry, sorted[1..])
  }

  function SortByKey(entries: seq<Entry>): seq<Entry>
    decreases |entries|
  {
    if entries == [] then [] else Insert(entries[0], SortByKey(entries[1..]))
  }

  /** The form that `stableJson` gives a value: every object sorted by key, at every depth. */
  function StableJson(v: Json): Json
    decreases v
  {
    match v
    case Arr(items) => Arr(seq(|items|, i requires 0 <= i < |items| => StableJson(items[i])))
    case Obj(entries) =>
      Obj(SortByKey(seq(|entries|, i requires 0 <= i < |entries| =>
                      Entry(entries[i].key, StableJson(entries[i].value)))))
    case _ => v
  }

  predicate Ascending(entries: seq<Entry>) {
    forall i, j :: 0 <= i < j < |entries| ==> Below(entries[i].key, entries[j].key)
  }

  lemma {:induction false} InsertInto(entry: Entry, sorted: seq<Entry>)
    requires Ascending(sorted) && forall i :: 0 <= i < |sorted| ==> sorted[i].key != entry.key
    ensures Ascending(Insert(entry, sorted))
    ensures forall e: Entry :: e in Insert(entry, sorted) <==> e == entry || e in sorted
    decreases |sorted|
  {
    if sorted != [] {
      BelowIsTotal(entry.key, sorted[0].key);
      if Below(entry.key, sorted[0].key) {
        forall j | 0 < j < |sorted|
          ensures Below(entry.key, sorted[j].key)
        {
          BelowIsTransitive(entry.key, sorted[0].key, sorted[j].key);
        }
      } else {
        var rest := Insert(entry, sorted[1..]);
        InsertInto(entry, sorted[1..]);
        assert sorted == [sorted[0]] + sorted[1..];
        forall j | 0 <= j < |rest|
          ensures Below(sorted[0].key, rest[j].key)
        {
          assert rest[j] in rest;
        }
      }
    }
  }

  lemma {:induction false} SortSorts(entries: seq<Entry>)
    requires DistinctKeys(entries)
    ensures Ascending(SortByKey(entries))
    ensures forall e: Entry :: e in SortByKey(entries) <==> e in entries
    decreases |entries|
  {
    if entries != [] {
      SortSorts(entries[1..]);
      var sorted := SortByKey(entries[1..]);
      forall i | 0 <= i < |sorted|
        ensures sorted[i].key != entries[0].key
      {
        assert sorted[i] in sorted;
      }
      InsertInto(entries[0], sorted);
      assert entries == [entries[0]] + entries[1..];
    }
  }

  /** Ascending lists with the same elements are the same list. */
  lemma {:induction false} AscendingIsUnique(xs: seq<Entry>, ys: seq<Entry>)
    requires Ascending(xs) && Ascending(ys)
    requires forall e: Entry :: e in xs <==> e in ys
    ensures xs == ys
    decreases |xs|
  {
    assert ys == [] || ys[0] in ys;
    if xs != [] {
      assert xs[0] in xs;
      HeadsAgree(xs, ys);
      TailsAgree(xs, ys);
      AscendingIsUnique(xs[1..], ys[1..]);
      assert xs == [xs[0]] + xs[1..] && ys == [ys[0]] + ys[1..];
    }
  }

  lemma HeadsAgree(xs: seq<Entry>, ys: seq<Entry>)
    requires Ascending(xs) && Ascending(ys) && xs != [] && ys != []
    requires forall e: Entry :: e in xs <==> e in ys
    ensures xs[0] == ys[0]
  {
    assert xs[0] in ys && ys[0] in xs;
    BelowIsTotal(xs[0].key, ys[0].key);
  }

  lemma TailsAgree(xs: seq<Entry>, ys: seq<Entry>)
    requires Ascending(xs) && Ascending(ys) && xs != [] && ys != [] && xs[0] == ys[0]
    requires forall e: Entry :: e in xs <==> e in ys
    ensures forall e: Entry :: e in xs[1..] <==> e in ys[1..]
  {
    forall e: Entry
      ensures e in xs[1..] <==> e in xs && e != xs[0]
      ensures e in ys[1..] <==> e in ys && e != ys[0]
    {
      BelowIsTotal(e.key, e.key);
    }
  }

  // ----- two values share a signature exactly when they are equal up to key order

  function StableEntries(entries: seq<Entry>): seq<Entry> {
    seq(|entries|, i requires 0 <= i < |entries| => Entry(entries[i].key, StableJson(entries[i].value)))
  }

  lemma {:induction false} SignatureExactly(a: Json, b: Json)
    requires WellFormed(a) && WellFormed(b)
    ensures StableJson(a) == StableJson(b) <==> Equiv(a, b)
    decreases a
  {
    if a.Arr? && b.Arr? {
      ArraysExactly(a, b);
    } else if a.Obj? && b.Obj? {
      ObjectsExactly(a, b);
    }
  }

  lemma {:induction false} ArraysExactly(a: Json, b: Json)
    requires a.Arr? && b.Arr? && WellFormed(a) && WellFormed(b)
    ensures StableJson(a) == StableJson(b) <==> Equiv(a, b)
    decreases a, 0
  {
    var xs, ys := StableJson(a).items, StableJson(b).items;
    if |xs| == |ys| {
      forall i | 0 <= i < |xs|
        ensures xs[i] == ys[i] <==> Equiv(a.items[i], b.items[i])
      {
        SignatureExactly(a.items[i], b.items[i]);
      }
    }
  }

  lemma {:induction false} ObjectsExactly(a: Json, b: Json)
    requires a.Obj? && b.Obj? && WellFormed(a) && WellFormed(b)
    ensures StableJson(a) == StableJson(b) <==> Equiv(a, b)
    decreases a, 0
  {
    var xs, ys := StableEntries(a.entries), StableEntries(b.entries);
    assert StableJson(a) == Obj(SortByKey(xs)) && StableJson(b) == Obj(SortByKey(ys));
    SortAgreesExactly(xs, ys);
    EntriesAgreeExactly(xs, ys);
    assert Keys(xs) == Keys(a.entries) && Keys(ys) == Keys(b.entries) by {
      SameKeys(xs, a.entries);
      SameKeys(ys, b.entries);
    }
    forall i, j | 0 <= i < |xs| && 0 <= j < |ys| && xs[i].key == ys[j].key
      ensures xs[i] == ys[j] <==> Equiv(a.entries[i].value, b.entries[j].value)
    {
      SignatureExactly(a.entries[i].value, b.entries[j].value);
    }
  }

  lemma SameKeys(xs: seq<Entry>, ys: seq<Entry>)
    requires |xs| == |ys| && forall i :: 0 <= i < |xs| ==> xs[i].key == ys[i].key
    ensures Keys(xs) == Keys(ys)
  {
    forall key: string
      ensures key in Keys(xs) <==> key in Keys(ys)
    {
      if i :| 0 <= i < |xs| && xs[i].key == key {
        assert ys[i].key == key;
      }
    }
  }

  /** Lists without repeated keys contain each other exactly when they have the same keys and equal
      entries under equal keys. */
  lemma EntriesAgreeExactly(xs: seq<Entry>, ys: seq<Entry>)
    requires DistinctKeys(xs) && DistinctKeys(ys)
    ensures (forall i :: 0 <= i < |xs| ==> xs[i] in ys) && (forall j :: 0 <= j < |ys| ==> ys[j] in xs) <==>
            Keys(xs) == Keys(ys) && forall i, j :: 0 <= i < |xs| && 0 <= j < |ys| && xs[i].key == ys[j].key ==>
                                                     xs[i] == ys[j]
  {
    if Keys(xs) == Keys(ys) && forall i, j :: 0 <= i < |xs| && 0 <= j < |ys| && xs[i].key == ys[j].key ==>
                                                xs[i] == ys[j] {
      forall i | 0 <= i < |xs|
        ensures xs[i] in ys
      {
        assert xs[i].key in Keys(ys);
      }
      forall j | 0 <= j < |ys|
        ensures ys[j] in xs
      {
        assert ys[j].key in Keys(xs);
      }
    }
    if (forall i :: 0 <= i < |xs| ==> xs[i] in ys) && (forall j :: 0 <= j < |ys| ==> ys[j] in xs) {
      ContainedHaveSameKeys(xs, ys);
      forall i, j | 0 <= i < |xs| && 0 <= j < |ys| && xs[i].key == ys[j].key
        ensures xs[i] == ys[j]
      {
        var k :| 0 <= k < |ys| && ys[k] == xs[i];
        assert k == j;
      }
    }
  }

  lemma ContainedHaveSameKeys(xs: seq<Entry>, ys: seq<Entry>)
    requires (forall i :: 0 <= i < |xs| ==> xs[i] in ys) && (forall j :: 0 <= j < |ys| ==> ys[j] in xs)
    ensures Keys(xs) == Keys(ys)
  {
    forall key: string
      ensures key in Keys(xs) <==> key in Keys(ys)
    {
      if i :| 0 <= i < |xs| && xs[i].key == key {
        assert xs[i] in ys;
      }
      if j :| 0 <= j < |ys| && ys[j].key == key {
        assert ys[j] in xs;
      }
    }
  }

  /** Two lists sort alike exactly when each contains the other. */
  lemma SortAgreesExactly(xs: seq<Entry>, ys: seq<Entry>)
    requires DistinctKeys(xs) && DistinctKeys(ys)
    ensures SortByKey(xs) == SortByKey(ys) <==>
            (forall i :: 0 <= i < |xs| ==> xs[i] in ys) && (forall j :: 0 <= j < |ys| ==> ys[j] in xs)
  {
    SortSorts(xs);
    SortSorts(ys);
    if SortByKey(xs) == SortByKey(ys) {
      forall i | 0 <= i < |xs|
        ensures xs[i] in ys
      {
        assert xs[i] in SortByKey(xs);
      }
      forall j | 0 <= j < |ys|
        ensures ys[j] in xs
      {
        assert ys[j] in SortByKey(ys);
      }
    } else if (forall i :: 0 <= i < |xs| ==> xs[i] in ys) && (forall j :: 0 <= j < |ys| ==> ys[j] in xs) {
      AscendingIsUnique(SortByKey(xs), SortByKey(ys));
    }
  }

  // ----- the index

  /** A schema object: its identity and its contents. */
  datatype Schema = Schema(id: nat, json: Json)

  datatype Registration = Registration(name: string, schema: Schema)

  /** The name last given to an object. */
  function NameOfObject(registrations: seq<Registration>, id: nat): Option<string> {
    if registrations == [] then None
    else
      var last := registrations[|registrations| - 1];
      if last.schema.id == id then Some(last.name) else NameOfObject(registrations[..|registrations| - 1], id)
  }

  /** The registrations with a given signature, in order. */
  function Sharing(registrations: seq<Registration>, signature: Json): seq<Registration> {
    if registrations == [] then []
    else
      var last := registrations[|registrations| - 1];
      Sharing(registrations[..|registrations| - 1], signature) +
      (if StableJson(last.schema.json) == signature then [last] else [])
  }

  /** What the index answers after the given registrations. */
  function Lookup(registrations: seq<Registration>, schema: Schema, allowStructuralFallback: bool): Option<string> {
    var own := NameOfObject(registrations, schema.id);
    var sharing := Sharing(registrations, StableJson(schema.json));
    if own.Some? then own
    else if allowStructuralFallback && |sharing| == 1 then Some(sharing[0].name)
    else None
  }

  /** A signature is in one of three states: unseen, named, or ambiguous for good. */
  ghost predicate SignatureIsValid(registrations: seq<Registration>, names: map<Json, string>, duplicates: set<Json>,
                                   signature: Json)
  {
    var sharing := Sharing(registrations, signature);
    && (signature in duplicates <==> |sharing| >= 2)
    && (signature in names <==> |sharing| == 1)
    && (signature in names ==> names[signature] == sharing[0].name)
  }

  class Index {
    var nameByObject: map<nat, string>
    var nameBySignature: map<Json, string>
    var duplicateSignatures: set<Json>
    ghost var registrations: seq<Registration>

    ghost predicate Valid()
      reads this
    {
      && (forall id: nat :: NameOfObject(registrations, id) ==
                            if id in nameByObject then Some(nameByObject[id]) else None)
      && (forall signature: Json :: SignatureIsValid(registrations, nameBySignature, duplicateSignatures, signature))
    }

    constructor ()
      ensures Valid() && registrations == []
    {
      nameByObject, nameBySignature, duplicateSignatures, registrations := map[], map[], {}, [];
    }

    method RegisterNamedSchema(name: string, schema: Schema)
      requires Valid()
      modifies this
      ensures Valid() && registrations == old(registrations) + [Registration(name, schema)]
    {
      ghost var before, names, duplicates := registrations, nameBySignature, duplicateSignatures;
      registrations := registrations + [Registration(name, schema)];
      assert registrations[..|before|] == before;
      nameByObject := nameByObject[schema.id := name];
      var signature := StableJson(schema.json);
      if signature in duplicateSignatures {
      } else if signature in nameBySignature {
        nameBySignature := nameBySignature - {signature};
        duplicateSignatures := duplicateSignatures + {signature};
      } else {
        nameBySignature := nameBySignature[signature := name];
      }
      forall s: Json
        ensures SignatureIsValid(registrations, nameBySignature, duplicateSignatures, s)
      {
        assert SignatureIsValid(before, names, duplicates, s);
      }
    }

    method NamedSchema(schema: Schema, allowStructuralFallback: bool) returns (name: Option<string>)
      requires Valid()
      ensures name == Lookup(registrations, schema, allowStructuralFallback)
    {
      var signature := StableJson(schema.json);
      assert SignatureIsValid(registrations, nameBySignature, duplicateSignatures, signature);
      if schema.id in nameByObject {
        name := Some(nameByObject[schema.id]);
      } else if allowStructuralFallback && signature in nameBySignature {
        name := Some(nameBySignature[signature]);
      } else {
        name := None;
      }
    }
  }

  /** The one registration whose schema equals `json` up to key order. */
  ghost predicate OnlySharer(registrations: seq<Registration>, json: Json, k: nat) {
    k < |registrations| && forall j :: 0 <= j < |registrations| ==>
                                         (Equiv(registrations[j].schema.json, json) <==> j == k)
  }

  predicate AllWellFormed(registrations: seq<Registration>) {
    forall k :: 0 <= k < |registrations| ==> WellFormed(registrations[k].schema.json)
  }

  /** `Sharing` picks exactly the registrations of that signature, each as often as it was made. */
  lemma {:induction false} SharingCounts(registrations: seq<Registration>, signature: Json, r: Registration)
    ensures multiset(Sharing(registrations, signature))[r] ==
            if StableJson(r.schema.json) == signature then multiset(registrations)[r] else 0
    decreases |registrations|
  {
    if registrations != [] {
      var init := registrations[..|registrations| - 1];
      SharingCounts(init, signature, r);
      CountLast(registrations);
    }
  }

  lemma CountLast(registrations: seq<Registration>)
    requires registrations != []
    ensures multiset(registrations) ==
            multiset(registrations[..|registrations| - 1]) + multiset{registrations[|registrations| - 1]}
  {
    assert registrations == registrations[..|registrations| - 1] + [registrations[|registrations| - 1]];
  }

  lemma {:induction false} NoSharer(registrations: seq<Registration>, signature: Json)
    ensures Sharing(registrations, signature) == [] <==>
            forall j :: 0 <= j < |registrations| ==> StableJson(registrations[j].schema.json) != signature
    decreases |registrations|
  {
    if registrations != [] {
      NoSharer(registrations[..|registrations| - 1], signature);
    }
  }

  lemma {:induction false} OneSharer(registrations: seq<Registration>, signature: Json, k: nat)
    requires k < |registrations|
    requires forall j :: 0 <= j < |registrations| ==>
                           (StableJson(registrations[j].schema.json) == signature <==> j == k)
    ensures Sharing(registrations, signature) == [registrations[k]]
    decreases |registrations|
  {
    var init := registrations[..|registrations| - 1];
    if k < |init| {
      OneSharer(init, signature, k);
    } else {
      NoSharer(init, signature);
    }
  }

  lemma {:induction false} TwoSharers(registrations: seq<Registration>, signature: Json, j: nat, k: nat)
    requires j < k < |registrations|
    requires StableJson(registrations[j].schema.json) == signature == StableJson(registrations[k].schema.json)
    ensures |Sharing(registrations, signature)| >= 2
    decreases |registrations|
  {
    var init := registrations[..|registrations| - 1];
    if k < |init| {
      TwoSharers(init, signature, j, k);
    } else {
      NoSharer(init, signature);
      assert StableJson(init[j].schema.json) == signature;
    }
  }

  /** For a schema that is not itself registered, the fallback gives a name exactly when a single
      registration is equal to it up to key order, and then it gives that one's name. */
  lemma FallbackExactly(registrations: seq<Registration>, schema: Schema, name: string)
    requires AllWellFormed(registrations) && WellFormed(schema.json)
    requires forall k :: 0 <= k < |registrations| ==> registrations[k].schema.id != schema.id
    ensures Lookup(registrations, schema, true) == Some(name) <==>
            exists k: nat :: OnlySharer(registrations, schema.json, k) && registrations[k].name == name
  {
    NotRegistered(registrations, schema.id);
    forall k: nat
      ensures OnlySharer(registrations, schema.json, k) <==> OnlyWith(registrations, StableJson(schema.json), k)
    {
      OnlySharerIs(registrations, schema.json, k);
    }
    SharingIsOnly(registrations, StableJson(schema.json));
  }

  /** The one registration with a signature. */
  predicate OnlyWith(registrations: seq<Registration>, signature: Json, k: nat) {
    k < |registrations| && forall j :: 0 <= j < |registrations| ==>
                                         (StableJson(registrations[j].schema.json) == signature <==> j == k)
  }

  lemma OnlySharerIs(registrations: seq<Registration>, json: Json, k: nat)
    requires AllWellFormed(registrations) && WellFormed(json)
    ensures OnlySharer(registrations, json, k) <==> OnlyWith(registrations, StableJson(json), k)
  {
    forall j | 0 <= j < |registrations|
      ensures Equiv(registrations[j].schema.json, json) <==>
              StableJson(registrations[j].schema.json) == StableJson(json)
    {
      SignatureExactly(registrations[j].schema.json, json);
    }
  }

  lemma SharingIsOnly(registrations: seq<Registration>, signature: Json)
    ensures forall k: nat :: OnlyWith(registrations, signature, k) ==>
                               Sharing(registrations, signature) == [registrations[k]]
    ensures |Sharing(registrations, signature)| == 1 ==> exists k: nat :: OnlyWith(registrations, signature, k)
  {
    forall k: nat | OnlyWith(registrations, signature, k)
      ensures Sharing(registrations, signature) == [registrations[k]]
    {
      OneSharer(registrations, signature, k);
    }
    NoSharer(registrations, signature);
    if |Sharing(registrations, signature)| == 1 {
      var k: nat :| k < |registrations| && StableJson(registrations[k].schema.json) == signature;
      forall j | 0 <= j < |registrations| && StableJson(registrations[j].schema.json) == signature
        ensures j == k
      {
        if j != k {
          TwoSharers(registrations, signature, if j < k then j else k, if j < k then k else j);
        }
      }
      assert OnlyWith(registrations, signature, k);
    }
  }

  lemma {:induction false} NotRegistered(registrations: seq<Registration>, id: nat)
    requires forall k :: 0 <= k < |registrations| ==> registrations[k].schema.id != id
    ensures NameOfObject(registrations, id) == None
    decreases |registrations|
  {
    if registrations != [] {
      NotRegistered(registrations[..|registrations| - 1], id);
    }
  }

  /** The fallback does not depend on the order of the registrations. */
  lemma FallbackIgnoresOrder(first: seq<Registration>, second: seq<Registration>, schema: Schema)
    requires multiset(first) == multiset(second)
    requires NameOfObject(first, schema.id) == None == NameOfObject(second, schema.id)
    ensures Lookup(first, schema, true) == Lookup(second, schema, true)
  {
    var signature := StableJson(schema.json);
    var some, others := Sharing(first, signature), Sharing(second, signature);
    forall r: Registration
      ensures multiset(some)[r] == multiset(others)[r]
    {
      SharingCounts(first, signature, r);
      SharingCounts(second, signature, r);
    }
    assert multiset(some) == multiset(others);
    SameSingleton(some, others);
  }

  lemma SameSingleton(xs: seq<Registration>, ys: seq<Registration>)
    requires multiset(xs) == multiset(ys)
    ensures |xs| == |ys| && (|xs| == 1 ==> xs == ys)
  {
    assert |xs| == |multiset(xs)| == |ys|;
    if |xs| == 1 {
      assert xs[0] in multiset(ys);
    }
  }
}
