/** A stored reference hides what is laid over it: an entity whose stored record is a reference reads as
    the record referred to. */
module EntityHiding {
  import opened Options
  import opened Json
  import opened EntityStore
  import opened ClientCache

  /** However deep the reader goes, the entity is not read with a property `name`. */
  ghost predicate NeverReads(st: Store, key: Key, name: string) {
    forall fuel: nat :: Read(st, EntityRef(key), fuel).Some? ==> WithoutName(Read(st, EntityRef(key), fuel).value, name)
  }

  predicate WithoutName(v: Value, name: string) {
    v.Obj? ==> !HasKey(v.fields, name)
  }

  /** The record stored under `key` refers to `target`, and the record there, if there is one, is plain
      and has no such property. */
  predicate RefersAway(st: Store, key: Key, target: Key, name: string) {
    && key in st && st[key].Obj? && ReferenceOf(st[key].fields) == To(target)
    && (target in st && st[target].Obj? ==> ReferenceOf(st[target].fields) == Plain && !HasKey(st[target].fields, name))
    && (target in st ==> !st[target].Arr?)
  }

  lemma RefersAwayNeverReads(st: Store, key: Key, target: Key, name: string)
    requires RefersAway(st, key, target, name)
    ensures NeverReads(st, key, name)
  {
    forall fuel: nat | Read(st, EntityRef(key), fuel).Some? ensures WithoutName(Read(st, EntityRef(key), fuel).value,
        name) {
      EntityRefRefers(key);
      assert Truthy(st[key]) && Read(st, EntityRef(key), fuel) == Read(st, st[key], fuel - 1);
      if target in st && Truthy(st[target]) {
        assert Read(st, st[key], fuel - 1) == Read(st, st[target], fuel - 2);
        if st[target].Obj? { ReadFieldsKeys(st, st[target].fields, fuel - 2, name); }
      }
    }
  }

  // ---------------------------------------------------------------- what is hidden is lost

  /** The store holds every write of the response, but those of `key`, which say something of `name`. */
  ghost predicate ExtendedBut(st: Store, ws: seq<Write>, key: Key, name: string) {
    forall w | w in ws ::
      if w.key == key then w.value.Obj? && HasKey(w.value.fields, name)
      else w.key in st && Extends(st[w.key], w.value)
  }

  predicate WritesKey(ws: seq<Write>, key: Key) {
    exists w | w in ws :: w.key == key
  }

  lemma {:induction false} NormalizedHasKey(types: Types, fields: seq<Field>, name: string)
    ensures HasKey(NormalizedFields(types, fields), name) <==> HasKey(fields, name)
  {
    var ns := NormalizedFields(types, fields);
    if HasKey(fields, name) {
      var i :| 0 <= i < |fields| && fields[i].key == name;
      assert ns[i].key == name;
    }
    if HasKey(ns, name) {
      var i :| 0 <= i < |ns| && ns[i].key == name;
      assert fields[i].key == name;
    }
  }

  lemma {:induction false} WritingField(types: Types, fields: seq<Field>, key: Key) returns (i: nat)
    requires WritesKey(FieldWrites(types, fields), key)
    ensures i < |fields| && WritesKey(Writes(types, fields[i].val), key)
    ensures forall w | w in Writes(types, fields[i].val) :: w in FieldWrites(types, fields)
  {
    var w :| w in FieldWrites(types, fields) && w.key == key;
    if w in Writes(types, fields[0].val) {
      i := 0;
    } else {
      assert w in FieldWrites(types, fields[1..]);
      i := WritingField(types, fields[1..], key);
      i := i + 1;
    }
  }

  lemma {:induction false} WritingItem(types: Types, items: seq<Value>, key: Key) returns (i: nat)
    requires WritesKey(ItemWrites(types, items), key)
    ensures i < |items| && WritesKey(Writes(types, items[i]), key)
    ensures forall w | w in Writes(types, items[i]) :: w in ItemWrites(types, items)
  {
    var w :| w in ItemWrites(types, items) && w.key == key;
    if w in Writes(types, items[0]) {
      i := 0;
    } else {
      assert w in ItemWrites(types, items[1..]);
      i := WritingItem(types, items[1..], key);
      i := i + 1;
    }
  }

  lemma {:induction false} ReadItemAt(st: Store, items: seq<Value>, fuel: nat, i: nat)
    requires i < |items| && ReadItems(st, items, fuel).Some?
    ensures |ReadItems(st, items, fuel).value| == |items|
    ensures Read(st, items[i], fuel) == Some(ReadItems(st, items, fuel).value[i])
  {
    if i > 0 {
      ReadItemAt(st, items[1..], fuel, i - 1);
    } else if |items| > 1 {
      ReadItemAt(st, items[1..], fuel, 0);
    }
  }

  lemma {:induction false} NormalizedItemAt(types: Types, items: seq<Value>, i: nat)
    requires i < |items|
    ensures NormalizedItems(types, items)[i] == Normalized(types, items[i])
  {
    if i > 0 { NormalizedItemAt(types, items[1..], i - 1); }
  }

  /** A response that contains the hidden entity is not read back in full, wherever in it that is. */
  lemma {:induction false} HiddenAny(types: Types, st: Store, v: Value, fuel: nat, key: Key, name: string)
    requires NoRefs(v) && WellFormed(v) && NeverReads(st, key, name)
    requires ExtendedBut(st, Writes(types, v), key, name) && WritesKey(Writes(types, v), key)
    requires Read(st, Normalized(types, v), fuel).Some?
    ensures !Covers(v, Read(st, Normalized(types, v), fuel).value)
    decreases v, 1
  {
    match v
    case Arr(items) =>
      var i := WritingItem(types, items, key);
      NormalizedItemAt(types, items, i);
      ReadItemAt(st, NormalizedItems(types, items), fuel, i);
      HiddenAny(types, st, items[i], fuel, key, name);
    case Obj(fields) =>
      match TypedKey(types, fields)
      case None =>
        NormalizedIsPlain(types, fields);
        HiddenFields(types, st, fields, NormalizedFields(types, fields), fuel, key, name);
      case Some(own) =>
        assert Writes(types, v)[|FieldWrites(types, fields)|] == Write(own, Obj(NormalizedFields(types, fields)));
        assert Writes(types, v)[|FieldWrites(types, fields)|] in Writes(types, v);
        assert forall w | w in FieldWrites(types, fields) :: w in Writes(types, v);
        HiddenObject(types, st, fields, own, fuel, key, name);
  }

  lemma NamedIsLost(types: Types, st: Store, fields: seq<Field>, fuel: nat, key: Key, name: string)
    requires NeverReads(st, key, name) && HasKey(NormalizedFields(types, fields), name)
        && Read(st, EntityRef(key), fuel).Some?
    ensures !Covers(Obj(fields), Read(st, EntityRef(key), fuel).value)
  {
    NormalizedHasKey(types, fields, name);
    var i :| 0 <= i < |fields| && fields[i].key == name;
    assert fields[i] in fields;
    assert WithoutName(Read(st, EntityRef(key), fuel).value, name);
  }

  lemma {:induction false} HiddenObject(types: Types, st: Store, fields: seq<Field>, own: Key, fuel: nat, key: Key,
                                        name: string)
    requires NoRefs(Obj(fields)) && WellFormed(Obj(fields)) && NeverReads(st, key, name)
    requires ExtendedBut(st, FieldWrites(types, fields), key, name)
    requires own == key ==> HasKey(NormalizedFields(types, fields), name)
    requires own != key ==> WritesKey(FieldWrites(types, fields), key)
    requires own != key ==> own in st && Extends(st[own], Obj(NormalizedFields(types, fields)))
    requires Read(st, EntityRef(own), fuel).Some?
    ensures !Covers(Obj(fields), Read(st, EntityRef(own), fuel).value)
    decreases fields, 2
  {
    if own == key {
      NamedIsLost(types, st, fields, fuel, key, name);
    } else {
      HiddenNested(types, st, fields, own, fuel, key, name);
    }
  }

  lemma {:induction false} HiddenNested(types: Types, st: Store, fields: seq<Field>, own: Key, fuel: nat, key: Key,
                                        name: string)
    requires NoRefs(Obj(fields)) && WellFormed(Obj(fields)) && NeverReads(st, key, name)
    requires ExtendedBut(st, FieldWrites(types, fields), key, name) && WritesKey(FieldWrites(types, fields), key)
    requires own in st && Extends(st[own], Obj(NormalizedFields(types, fields)))
    requires Read(st, EntityRef(own), fuel).Some?
    ensures !Covers(Obj(fields), Read(st, EntityRef(own), fuel).value)
    decreases fields, 1
  {
    var full := EntityUnfolds(types, st, fields, own, fuel);
    HiddenFields(types, st, fields, full, fuel - 1, key, name);
  }

  lemma EntityUnfolds(types: Types, st: Store, fields: seq<Field>, own: Key, fuel: nat) returns (full: seq<Field>)
    requires !Truthy(Get(fields, "__dbRef"))
    requires own in st && Extends(st[own], Obj(NormalizedFields(types, fields))) && Read(st, EntityRef(own), fuel).Some?
    ensures Extends(Obj(full), Obj(NormalizedFields(types, fields)))
    ensures fuel > 0 && ReadFields(st, full, fuel - 1).Some?
    ensures Read(st, EntityRef(own), fuel).value == Obj(ReadFields(st, full, fuel - 1).value)
  {
    full := st[own].fields;
    NormalizedIsPlain(types, fields);
    EntityReadsFields(st, own, fuel);
  }

  lemma {:induction false} HiddenFields(types: Types, st: Store, fields: seq<Field>, full: seq<Field>, fuel: nat,
                                        key: Key, name: string)
    requires NoRefs(Obj(fields)) && WellFormed(Obj(fields)) && NeverReads(st, key, name)
    requires ExtendedBut(st, FieldWrites(types, fields), key, name) && WritesKey(FieldWrites(types, fields), key)
    requires Extends(Obj(full), Obj(NormalizedFields(types, fields))) && ReadFields(st, full, fuel).Some?
    ensures !Covers(Obj(fields), Obj(ReadFields(st, full, fuel).value))
    decreases fields, 0
  {
    var r := ReadFields(st, full, fuel).value;
    var i := WritingField(types, fields, key);
    var f := fields[i];
    assert f in fields && HasKey(fields, f.key);
    GetAt(fields, i);
    NormalizedGet(types, fields, f.key);
    NormalizedHasKey(types, fields, f.key);
    ReadFieldsGet(st, full, fuel, f.key);
    HiddenAny(types, st, f.val, fuel, key, name);
  }

  lemma {:induction false} HiddenRecord(types: Types, st: Store, resource: Resource, v: Value, fuel: nat, key: Key,
                                        name: string)
    requires NoRefs(v) && WellFormed(v) && NeverReads(st, key, name)
    requires ExtendedBut(st, RecordWrites(types, resource, v), key, name)
        && WritesKey(RecordWrites(types, resource, v), key)
    requires Read(st, NormalizedRecord(types, resource, v), fuel).Some?
    ensures !Covers(v, Read(st, NormalizedRecord(types, resource, v), fuel).value)
  {
    var fields, ws := v.fields, RecordWrites(types, resource, v);
    match RecordKey(resource, NormalizedFields(types, fields))
    case None =>
      NormalizedIsPlain(types, fields);
      assert ws == FieldWrites(types, fields);
      HiddenFields(types, st, fields, NormalizedFields(types, fields), fuel, key, name);
    case Some(own) =>
      assert ws[|FieldWrites(types, fields)|] == Write(own, Obj(NormalizedFields(types, fields)));
      assert ws[|FieldWrites(types, fields)|] in ws && forall w | w in FieldWrites(types, fields) :: w in ws;
      HiddenObject(types, st, fields, own, fuel, key, name);
  }

  lemma {:induction false} WritingRecord(types: Types, resource: Resource, items: seq<Value>, key: Key) returns (i: nat)
    requires WritesKey(RecordsWrites(types, resource, items), key)
    ensures i < |items| && WritesKey(RecordWrites(types, resource, items[i]), key)
    ensures forall w | w in RecordWrites(types, resource, items[i]) :: w in RecordsWrites(types, resource, items)
    ensures NormalizedRecords(types, resource, items)[i] == NormalizedRecord(types, resource, items[i])
  {
    var w :| w in RecordsWrites(types, resource, items) && w.key == key;
    if w in RecordWrites(types, resource, items[0]) {
      i := 0;
    } else {
      assert w in RecordsWrites(types, resource, items[1..]);
      i := WritingRecord(types, resource, items[1..], key);
      i := i + 1;
    }
  }

  lemma OnlyTheReference(key: Key, name: string)
    ensures HasKey(EntityRef(key).fields, name) ==> name == "__dbRef"
  {
  }

  lemma {:induction false} HiddenDocument(types: Types, st: Store, r: Resource, v: Value, fuel: nat, key: Key,
                                          name: string)
    requires r.kind.Document? && NoRefs(v) && WellFormed(v) && Truthy(v) && NeverReads(st, key, name)
        && name != "__dbRef"
    requires ExtendedBut(st, ResourceWrites(types, r, v), key, name) && WritesKey(ResourceWrites(types, r, v), key)
    requires Read(st, NormalizedResource(types, r, v), fuel).Some?
    ensures !Covers(v, Read(st, NormalizedResource(types, r, v), fuel).value)
  {
    var own, ws := Key(r.name, DOCUMENT_ID), ResourceWrites(types, r, v);
    assert ws[|ws| - 1] == Write(own, Normalized(types, v)) && ws[|ws| - 1] in ws;
    assert forall w | w in Writes(types, v) :: w in ws;
    if own == key {
      OwnDocumentIsLost(types, st, v, fuel, key, name);
    } else {
      NormalizedTruthy(types, v);
      assert Extends(st[own], Normalized(types, v)) && Truthy(st[own]);
      ReferenceStep(st, own, fuel);
      HiddenUnder(types, st, v, st[own], fuel - 1, key, name);
    }
  }

  lemma OwnDocumentIsLost(types: Types, st: Store, v: Value, fuel: nat, key: Key, name: string)
    requires NeverReads(st, key, name) && name != "__dbRef" && Read(st, EntityRef(key), fuel).Some?
    requires Normalized(types, v).Obj? && HasKey(Normalized(types, v).fields, name)
    ensures !Covers(v, Read(st, EntityRef(key), fuel).value)
  {
    if TypedKey(types, v.fields).Some? { OnlyTheReference(TypedKey(types, v.fields).value, name); }
    NamedIsLost(types, st, v.fields, fuel, key, name);
  }

  lemma ReferenceStep(st: Store, key: Key, fuel: nat)
    requires key in st && Truthy(st[key]) && Read(st, EntityRef(key), fuel).Some?
    ensures fuel > 0 && Read(st, EntityRef(key), fuel) == Read(st, st[key], fuel - 1)
  {
    EntityRefRefers(key);
  }

  lemma HiddenUnder(types: Types, st: Store, v: Value, full: Value, fuel: nat, key: Key, name: string)
    requires NoRefs(v) && WellFormed(v) && NeverReads(st, key, name)
    requires ExtendedBut(st, Writes(types, v), key, name) && WritesKey(Writes(types, v), key)
    requires Extends(full, Normalized(types, v)) && Read(st, full, fuel).Some?
    ensures !Covers(v, Read(st, full, fuel).value)
  {
    if v.Obj? && TypedKey(types, v.fields).None? {
      NormalizedIsPlain(types, v.fields);
      HiddenFields(types, st, v.fields, full.fields, fuel, key, name);
    } else {
      if v.Obj? { EntityRefRefers(TypedKey(types, v.fields).value); }
      HiddenAny(types, st, v, fuel, key, name);
    }
  }

  /** A whole response. */
  lemma {:induction false} HiddenResponse(types: Types, st: Store, resource: Option<Resource>, v: Value, fuel: nat,
                                          key: Key, name: string)
    requires NoRefs(v) && WellFormed(v) && NeverReads(st, key, name) && name != "__dbRef"
    requires ExtendedBut(st, AllWrites(types, resource, v), key, name) && WritesKey(AllWrites(types, resource, v), key)
    requires resource.Some? && resource.value.kind.Document? ==> Truthy(v)
    requires Read(st, Stored(types, resource, v), fuel).Some?
    ensures !Covers(v, Read(st, Stored(types, resource, v), fuel).value)
  {
    match resource
    case None => HiddenAny(types, st, v, fuel, key, name);
    case Some(r) =>
      if r.kind.Document? {
        HiddenDocument(types, st, r, v, fuel, key, name);
      } else if v.Arr? {
        var i := WritingRecord(types, r, v.items, key);
        ReadItemAt(st, NormalizedRecords(types, r, v.items), fuel, i);
        HiddenRecord(types, st, r, v.items[i], fuel, key, name);
      } else {
        HiddenRecord(types, st, r, v, fuel, key, name);
      }
  }

  // ---------------------------------------------------------------- exactly when

  /** The response says something of property `name` wherever it writes the entity. */
  predicate Names(ws: seq<Write>, key: Key, name: string) {
    forall w | w in ws && w.key == key :: w.value.Obj? && HasKey(w.value.fields, name)
        && !HasKey(w.value.fields, "__dbRef")
  }

  /** The writes leave the stored reference in place. */
  lemma {:induction false} ReferenceStays(st: Store, ws: seq<Write>, key: Key)
    requires key in st && st[key].Obj? && ReferenceOf(st[key].fields) != Plain
    requires forall w | w in ws && w.key == key :: w.value.Obj? && DistinctKeys(w.value.fields)
              && !HasKey(w.value.fields, "__dbRef")
    ensures var after := ApplyWrites(st, ws);
            key in after && after[key].Obj? && ReferenceOf(after[key].fields) == ReferenceOf(st[key].fields)
    decreases |ws|
  {
    if ws != [] {
      var before, w := ws[..|ws| - 1], ws[|ws| - 1];
      assert ws == before + [w] && w in ws && forall u | u in before :: u in ws;
      ApplySnoc(st, before, w);
      ReferenceStays(st, before, key);
      if w.key == key { SpreadGet(ApplyWrites(st, before)[key].fields, w.value.fields, "__dbRef"); }
    }
  }

  /** A response that names property `name` of an entity, with everything else it writes not hidden:
      when the stored record of the entity is a reference, to a record that has no such property by
      then, a read of the response that ends covers it exactly when it is not. */
  lemma CoversExactly(types: Types, st: Store, resource: Option<Resource>, v: Value, fuel: nat, key: Key, target: Key,
                      name: string)
    requires NoRefs(v) && WellFormed(v) && name != "__dbRef"
    requires resource.Some? && resource.value.kind.Document? ==> Truthy(v)
    requires var ws := AllWrites(types, resource, v);
             && Agreeing(ws) && WritesKey(ws, key) && Names(ws, key, name)
             && (forall w | w in ws && w.key != key :: !Hidden(st, w))
             && (key in st && st[key].Obj? && ReferenceOf(st[key].fields) != Plain
                 ==> RefersAway(ApplyWrites(st, ws), key, target, name))
    requires Read(ApplyWrites(st, AllWrites(types, resource, v)), Stored(types, resource, v), fuel).Some?
    ensures Covers(v, Read(ApplyWrites(st, AllWrites(types, resource, v)), Stored(types, resource, v), fuel).value)
       <==> !(key in st && st[key].Obj? && ReferenceOf(st[key].fields) != Plain)
  {
    var ws := AllWrites(types, resource, v);
    var after := ApplyWrites(st, ws);
    if key in st && st[key].Obj? && ReferenceOf(st[key].fields) != Plain {
      RefersAwayNeverReads(after, key, target, name);
      AllDistinct(types, resource, v);
      WritesExtend(st, ws, {key});
      assert ExtendedOutside(after, ws, {key});
      assert ExtendedBut(after, ws, key, name);
      HiddenResponse(types, after, resource, v, fuel, key, name);
    } else {
      ReadCoversResponse(types, st, resource, v, fuel);
    }
  }

  // ---------------------------------------------------------------- a run that gets there

  /** A document whose body is a record of a collection is stored as a reference to that record.  When
      it is fetched again with another body, the new body is laid over the reference, and reads as the
      old record. */
  lemma DocumentReadsAsRecord(policy: WritePolicy, m: Manifest, settings: Resource, record: seq<Field>, user: Key,
                              body: seq<Field>)
    requires settings.kind.Document? && WellFormed(Obj(record)) && WellFormed(Obj(body)) && NoRefs(Obj(record))
    requires Flat(record) && Flat(body) && body != [] && !HasKey(body, "__dbRef")
    requires TypedKey(m.types, record) == Some(user) && user != Key(settings.name, DOCUMENT_ID)
    requires TypedResource(m.types, body) == None
    ensures var c := Run(policy, [ManifestLoaded(m),
                                  StoreRest("a", Some(settings), 200, [Field("body", Obj(record))]),
                                  StoreRest("b", Some(settings), 200, [Field("body", Obj(body))])]);
            ReadQuery(c, "b", 2) == Some(Obj([Field("body", Obj(record))]))
  {
    ThreeSteps(policy, ManifestLoaded(m), StoreRest("a", Some(settings), 200, [Field("body", Obj(record))]),
               StoreRest("b", Some(settings), 200, [Field("body", Obj(body))]));
    LoadedThenStored(policy, m, settings, record, user);
    SecondStored(policy, m, settings, record, user, body);
  }

  function AfterFirst(policy: WritePolicy, m: Manifest, settings: Resource, record: seq<Field>): Cache {
    Step(policy, Step(policy, EMPTY, ManifestLoaded(m)),
        StoreRest("a", Some(settings), 200, [Field("body", Obj(record))]))
  }

  lemma ManifestStep(policy: WritePolicy, m: Manifest)
    ensures Step(policy, EMPTY, ManifestLoaded(m)).manifest == m
        && Step(policy, EMPTY, ManifestLoaded(m)).entities == map[]
  {
  }

  lemma LoadedThenStored(policy: WritePolicy, m: Manifest, settings: Resource, record: seq<Field>, user: Key)
    requires settings.kind.Document? && Flat(record) && TypedKey(m.types, record) == Some(user)
    requires user != Key(settings.name, DOCUMENT_ID)
    ensures var c := AfterFirst(policy, m, settings, record);
            && c.manifest == m
            && c.entities == map[user := Obj(record)][Key(settings.name, DOCUMENT_ID) := EntityRef(user)]
  {
    ManifestStep(policy, m);
    DocumentStored(policy, Step(policy, EMPTY, ManifestLoaded(m)), settings, "a", record);
    RecordThenReference(m.types, settings, record, user);
  }

  lemma SecondStored(policy: WritePolicy, m: Manifest, settings: Resource, record: seq<Field>, user: Key,
                     body: seq<Field>)
    requires settings.kind.Document? && user != Key(settings.name, DOCUMENT_ID)
        && AfterFirst(policy, m, settings, record).manifest == m
    requires AfterFirst(policy, m, settings, record).entities
          == map[user := Obj(record)][Key(settings.name, DOCUMENT_ID) := EntityRef(user)]
    requires Flat(record) && Flat(body) && NoRefs(Obj(record)) && DistinctKeys(body) && !HasKey(body, "__dbRef")
    requires TypedResource(m.types, body) == None
    ensures ReadQuery(Step(policy, AfterFirst(policy, m, settings, record),
        StoreRest("b", Some(settings), 200, [Field("body", Obj(body))])), "b", 2)
         == Some(Obj([Field("body", Obj(record))]))
  {
    var c := AfterFirst(policy, m, settings, record);
    DocumentStored(policy, c, settings, "b", body);
    BodyOverReference(m.types, c.entities, settings, record, user, body);
  }

  lemma ThreeSteps(policy: WritePolicy, op0: Op, op1: Op, op2: Op)
    ensures Run(policy, [op0, op1, op2]) == Step(policy, Step(policy, Step(policy, EMPTY, op0), op1), op2)
  {
    assert [op0, op1, op2][..2] == [op0, op1] && [op0, op1][..1] == [op0] && [op0][..0] == [];
    assert Run(policy, [op0]) == Step(policy, Run(policy, []), op0);
    assert Run(policy, [op0, op1]) == Step(policy, Run(policy, [op0]), op1);
  }

  lemma BodyOverReference(types: Types, st: Store, settings: Resource, record: seq<Field>, user: Key, body: seq<Field>)
    requires settings.kind.Document? && user != Key(settings.name, DOCUMENT_ID)
    requires st == map[user := Obj(record)][Key(settings.name, DOCUMENT_ID) := EntityRef(user)]
    requires Flat(record) && Flat(body) && NoRefs(Obj(record)) && DistinctKeys(body) && !HasKey(body, "__dbRef")
    requires TypedResource(types, body) == None
    ensures Read(ApplyWrites(st, ResourceWrites(types, settings, Obj(body))),
                 Obj([Field("body", EntityRef(Key(settings.name, DOCUMENT_ID)))]), 2)
                     == Some(Obj([Field("body", Obj(record))]))
  {
    var doc := Key(settings.name, DOCUMENT_ID);
    FlatNormal(types, body);
    var ws := [Write(doc, Obj(body))];
    assert TypedKey(types, body) == None;
    assert ResourceWrites(types, settings, Obj(body)) == [] + ws && [] + ws == ws && ws[1..] == [];
    ReadsAsRecord(st, doc, user, record, body);
    ReadOneField(SetEntity(st, doc, Obj(body)), "body", EntityRef(doc), 2);
  }

  lemma DocumentStored(policy: WritePolicy, c: Cache, settings: Resource, key: string, fields: seq<Field>)
    requires settings.kind.Document?
    ensures var d := Step(policy, c, StoreRest(key, Some(settings), 200, [Field("body", Obj(fields))]));
            && d.manifest == c.manifest
            && d.entities == ApplyWrites(c.entities, ResourceWrites(c.manifest.types, settings, Obj(fields)))
            && key in d.queries && d.queries[key].value
                == Obj([Field("body", EntityRef(Key(settings.name, DOCUMENT_ID)))])
  {
    assert Get([Field("body", Obj(fields))], "body") == Obj(fields);
    assert [Field("body", Obj(fields))][1..] == [];
  }

  /** No arrays or objects among the values. */
  predicate Flat(fields: seq<Field>) {
    forall f | f in fields :: !f.val.Arr? && !f.val.Obj?
  }

  lemma {:induction false} FlatNormal(types: Types, fields: seq<Field>)
    requires Flat(fields)
    ensures NormalizedFields(types, fields) == fields && FieldWrites(types, fields) == []
  {
    if fields != [] {
      assert fields[0] in fields && forall f | f in fields[1..] :: f in fields;
      FlatNormal(types, fields[1..]);
      assert [fields[0]] + fields[1..] == fields;
    }
  }

  lemma RecordThenReference(types: Types, settings: Resource, record: seq<Field>, user: Key)
    requires settings.kind.Document? && Flat(record) && TypedKey(types, record) == Some(user)
    requires user != Key(settings.name, DOCUMENT_ID)
    ensures ApplyWrites(map[], ResourceWrites(types, settings, Obj(record)))
         == map[user := Obj(record)][Key(settings.name, DOCUMENT_ID) := EntityRef(user)]
  {
    FlatNormal(types, record);
    var doc := Key(settings.name, DOCUMENT_ID);
    var ws := [Write(user, Obj(record))];
    assert ResourceWrites(types, settings, Obj(record)) == ws + [Write(doc, EntityRef(user))];
    ApplySnoc(map[], ws, Write(doc, EntityRef(user)));
    assert ws[1..] == [];
  }

  lemma ReadsAsRecord(st: Store, doc: Key, user: Key, record: seq<Field>, body: seq<Field>)
    requires doc in st && st[doc] == EntityRef(user) && user in st && st[user] == Obj(record) && user != doc
    requires DistinctKeys(body) && !HasKey(body, "__dbRef") && NoRefs(Obj(record)) && Flat(record)
    ensures Read(SetEntity(st, doc, Obj(body)), EntityRef(doc), 2) == Some(Obj(record))
  {
    var after := SetEntity(st, doc, Obj(body));
    EntityRefRefers(doc);
    EntityRefRefers(user);
    SpreadGet(EntityRef(user).fields, body, "__dbRef");
    assert after[doc].Obj? && ReferenceOf(after[doc].fields) == To(user) && after[user] == Obj(record);
    ReadPlain(after, Obj(record), 0);
    assert Read(after, EntityRef(doc), 2) == Read(after, after[doc], 1) == Read(after, after[user], 0);
  }

  lemma ReadOneField(st: Store, name: string, v: Value, fuel: nat)
    requires name != "__dbRef" && Read(st, v, fuel).Some?
    ensures Read(st, Obj([Field(name, v)]), fuel) == Some(Obj([Field(name, Read(st, v, fuel).value)]))
  {
    var fields, out := [Field(name, v)], [Field(name, Read(st, v, fuel).value)];
    assert fields[1..] == [] && fields[0].key != "__dbRef";
    assert Get(fields[1..], "__dbRef") == Undefined;
    assert Get(fields, "__dbRef") == Get(fields[1..], "__dbRef");
    assert ReferenceOf(fields) == Plain;
    assert ReadFields(st, fields[1..], fuel) == Some([]);
    assert out + [] == out;
  }
}
