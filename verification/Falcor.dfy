/** JSON graphs flattened to leaves and built again, path sets, and pointers
    (`walkJsonGraph`, `setJsonGraphValue`, `valueForPath`, `expandPathSet`, `jsonPointer`). */
module Falcor {
  import opened Sequences
  import opened Json
  import opened Decimal

  /** One step of a path; a number is given by the text JavaScript prints for it. */
  datatype Segment = Name(text: string) | Index(text: string)

  type Path = seq<Segment>

  datatype Leaf = Leaf(path: Path, value: Value)

  /** `renum(k)` is `String(Number(k))`, for `k` made of digits. */
  type Renumber = string -> string

  function NumericKey(renum: Renumber, key: string): Segment {
    if key != "" && AllDigits(key) then Index(renum(key)) else Name(key)
  }

  /** What printing a number gives is not changed by reading and printing it again. */
  ghost predicate Idempotent(renum: Renumber) {
    forall k :: NumericKey(renum, NumericKey(renum, k).text).text == NumericKey(renum, k).text
  }

  predicate IsLeaf(v: Value) {
    !v.Obj? || Get(v.fields, "$type").Str?
  }

  function Prepend(seg: Segment, leaves: seq<Leaf>): (r: seq<Leaf>)
    ensures |r| == |leaves|
  {
    seq(|leaves|, i requires 0 <= i < |leaves| => Leaf([seg] + leaves[i].path, leaves[i].value))
  }

  function LeavesOf(renum: Renumber, v: Value): seq<Leaf>
    decreases v
  {
    if IsLeaf(v) then [Leaf([], v)] else FieldLeaves(renum, v.fields)
  }

  function FieldLeaves(renum: Renumber, fields: seq<Field>): seq<Leaf>
    decreases fields
  {
    if fields == [] then []
    else Prepend(NumericKey(renum, fields[0].key), LeavesOf(renum, fields[0].val)) + FieldLeaves(renum, fields[1..])
  }

  // ---------------------------------------------------------------- the walk

  function Under(path: Path, leaves: seq<Leaf>): (r: seq<Leaf>)
    ensures |r| == |leaves|
  {
    seq(|leaves|, i requires 0 <= i < |leaves| => Leaf(path + leaves[i].path, leaves[i].value))
  }

  lemma UnderPrepend(path: Path, seg: Segment, leaves: seq<Leaf>)
    ensures Under(path + [seg], leaves) == Under(path, Prepend(seg, leaves))
  {
    forall i | 0 <= i < |leaves| ensures Under(path + [seg], leaves)[i] == Under(path, Prepend(seg, leaves))[i] {
      assert (path + [seg]) + leaves[i].path == path + ([seg] + leaves[i].path);
    }
  }

  lemma UnderConcat(path: Path, a: seq<Leaf>, b: seq<Leaf>)
    ensures Under(path, a + b) == Under(path, a) + Under(path, b)
  {
  }

  method WalkJsonGraph(renum: Renumber, value: Value, path: Path, found: seq<Leaf>) returns (leaves: seq<Leaf>)
    ensures leaves == found + Under(path, LeavesOf(renum, value))
    decreases value
  {
    if IsLeaf(value) {
      leaves := found + [Leaf(path, value)];
      assert path + [] == path && Under(path, [Leaf([], value)]) == [Leaf(path, value)];
      return;
    }
    leaves := found;
    var fields := value.fields;
    for i := 0 to |fields|
      invariant leaves + Under(path, FieldLeaves(renum, fields[i..])) == found + Under(path, LeavesOf(renum, value))
    {
      var seg := NumericKey(renum, fields[i].key);
      var below, rest := LeavesOf(renum, fields[i].val), FieldLeaves(renum, fields[i + 1..]);
      assert fields[i..][1..] == fields[i + 1..];
      UnderConcat(path, Prepend(seg, below), rest);
      UnderPrepend(path, seg, below);
      Regroup(leaves, Under(path + [seg], below), Under(path, rest));
      leaves := WalkJsonGraph(renum, fields[i].val, path + [seg], leaves);
    }
    assert leaves + [] == leaves;
  }

  method JsonGraphLeaves(renum: Renumber, graph: Value) returns (leaves: seq<Leaf>)
    ensures leaves == LeavesOf(renum, graph)
  {
    leaves := WalkJsonGraph(renum, graph, [], []);
    forall i | 0 <= i < |leaves| ensures leaves[i] == LeavesOf(renum, graph)[i] {
      assert [] + LeavesOf(renum, graph)[i].path == LeavesOf(renum, graph)[i].path;
    }
  }

  // ---------------------------------------------------------------- writing a path

  /** The properties to go on from: those of an object, otherwise none. */
  function Inner(v: Value): seq<Field> {
    if v.Obj? then v.fields else []
  }

  function Set(fields: seq<Field>, path: Path, value: Value): seq<Field>
    decreases |path|
  {
    if path == [] then fields
    else if |path| == 1 then Put(fields, path[0].text, value)
    else Put(fields, path[0].text, Obj(Set(Inner(Get(fields, path[0].text)), path[1..], value)))
  }

  function SetAll(fields: seq<Field>, leaves: seq<Leaf>): seq<Field>
    decreases |leaves|
  {
    if leaves == [] then fields else SetAll(Set(fields, leaves[0].path, leaves[0].value), leaves[1..])
  }

  function Rebuilt(renum: Renumber, graph: Value): Value {
    Obj(SetAll([], LeavesOf(renum, graph)))
  }

  // ---------------------------------------------------------------- the leaves build the graph again

  predicate Canonical(renum: Renumber, key: string) {
    NumericKey(renum, key).text == key
  }

  /** At every depth above the leaves: keys in canonical form, and no empty object. */
  predicate Faithful(renum: Renumber, v: Value)
    decreases v
  {
    IsLeaf(v) || (v.fields != [] && FaithfulFields(renum, v.fields))
  }

  predicate FaithfulFields(renum: Renumber, fields: seq<Field>) {
    forall f | f in fields :: Canonical(renum, f.key) && Faithful(renum, f.val)
  }

  lemma {:induction false} SetAllConcat(fields: seq<Field>, a: seq<Leaf>, b: seq<Leaf>)
    ensures SetAll(fields, a + b) == SetAll(SetAll(fields, a), b)
    decreases |a|
  {
    if a == [] {
      assert a + b == b;
    } else {
      assert (a + b)[1..] == a[1..] + b;
      SetAllConcat(Set(fields, a[0].path, a[0].value), a[1..], b);
    }
  }

  lemma {:induction false} PutTwice(fields: seq<Field>, key: string, v: Value, w: Value)
    ensures Put(Put(fields, key, v), key, w) == Put(fields, key, w)
  {
    if fields == [] {
    } else if fields[0].key == key {
      assert ([Field(key, v)] + fields[1..])[1..] == fields[1..];
    } else {
      PutTwice(fields[1..], key, v, w);
      assert ([fields[0]] + Put(fields[1..], key, v))[1..] == Put(fields[1..], key, v);
    }
  }

  predicate ProperPaths(leaves: seq<Leaf>) {
    forall i | 0 <= i < |leaves| :: leaves[i].path != []
  }

  lemma {:induction false} ProperBelow(renum: Renumber, fields: seq<Field>)
    ensures ProperPaths(FieldLeaves(renum, fields))
  {
    if fields != [] {
      ProperBelow(renum, fields[1..]);
    }
  }

  /** Leaves that share their first key are written into the object under it. */
  lemma {:induction false} SetBelow(fields: seq<Field>, seg: Segment, leaves: seq<Leaf>)
    requires leaves != [] && ProperPaths(leaves)
    ensures SetAll(fields, Prepend(seg, leaves))
        == Put(fields, seg.text, Obj(SetAll(Inner(Get(fields, seg.text)), leaves)))
    decreases |leaves|
  {
    var key, first := seg.text, leaves[0];
    var path := [seg] + first.path;
    assert path[1..] == first.path && |path| > 1;
    var inner := Set(Inner(Get(fields, key)), first.path, first.value);
    var next := Put(fields, key, Obj(inner));
    assert Prepend(seg, leaves)[1..] == Prepend(seg, leaves[1..]);
    assert SetAll(fields, Prepend(seg, leaves)) == SetAll(next, Prepend(seg, leaves[1..]));
    if |leaves| > 1 {
      SetBelow(next, seg, leaves[1..]);
      GetPut(fields, key, Obj(inner), key);
      PutTwice(fields, key, Obj(inner), Obj(SetAll(inner, leaves[1..])));
    }
  }

  /** What one property becomes: nothing, when there is no leaf below it. */
  function Again(renum: Renumber, f: Field): seq<Field> {
    if IsLeaf(f.val) then [f]
    else if LeavesOf(renum, f.val) == [] then []
    else [Field(f.key, Obj(SetAll([], LeavesOf(renum, f.val))))]
  }

  function AllAgain(renum: Renumber, fields: seq<Field>): seq<Field> {
    if fields == [] then [] else Again(renum, fields[0]) + AllAgain(renum, fields[1..])
  }

  lemma OneAgain(renum: Renumber, done: seq<Field>, f: Field)
    requires Canonical(renum, f.key) && !HasKey(done, f.key)
    ensures SetAll(done, Prepend(NumericKey(renum, f.key), LeavesOf(renum, f.val))) == done + Again(renum, f)
  {
    var seg, below := NumericKey(renum, f.key), LeavesOf(renum, f.val);
    if IsLeaf(f.val) {
      assert [seg] + [] == [seg] && Prepend(seg, below)[0] == Leaf([seg], f.val);
      assert [Leaf([seg], f.val)][1..] == [];
      PutNew(done, f.key, f.val);
    } else if below == [] {
      assert done + [] == done;
    } else {
      ProperBelow(renum, f.val.fields);
      SetBelow(done, seg, below);
      PutNew(done, f.key, Obj(SetAll([], below)));
    }
  }

  lemma {:induction false} RestIsNew(renum: Renumber, done: seq<Field>, fields: seq<Field>)
    requires fields != [] && DistinctKeys(fields)
    requires forall f | f in fields :: Canonical(renum, f.key) && !HasKey(done, f.key)
    ensures DistinctKeys(fields[1..])
    ensures forall g | g in fields[1..] :: Canonical(renum, g.key) && !HasKey(done + Again(renum, fields[0]), g.key)
  {
  }

  /** With distinct canonical keys the properties are rebuilt one by one, each in its place. */
  lemma {:induction false} FieldsAgain(renum: Renumber, done: seq<Field>, fields: seq<Field>)
    requires forall f | f in fields :: Canonical(renum, f.key) && !HasKey(done, f.key)
    requires DistinctKeys(fields)
    ensures SetAll(done, FieldLeaves(renum, fields)) == done + AllAgain(renum, fields)
    decreases |fields|
  {
    if fields == [] {
      assert done + [] == done;
    } else {
      var f, rest := fields[0], fields[1..];
      assert f in fields;
      SetAllConcat(done, Prepend(NumericKey(renum, f.key), LeavesOf(renum, f.val)), FieldLeaves(renum, rest));
      OneAgain(renum, done, f);
      var next := done + Again(renum, f);
      RestIsNew(renum, done, fields);
      FieldsAgain(renum, next, rest);
      Regroup(done, Again(renum, f), AllAgain(renum, rest));
    }
  }

  lemma {:induction false} AgainLength(renum: Renumber, fields: seq<Field>)
    ensures |AllAgain(renum, fields)| <= |fields|
  {
    if fields != [] { AgainLength(renum, fields[1..]); }
  }

  /** The properties come back as they were exactly when each of them does. */
  lemma {:induction false} AllAgainSame(renum: Renumber, fields: seq<Field>)
    ensures AllAgain(renum, fields) == fields <==> forall f | f in fields :: Again(renum, f) == [f]
  {
    if fields != [] {
      var rest := fields[1..];
      AgainLength(renum, rest);
      AllAgainSame(renum, rest);
      if AllAgain(renum, fields) == fields {
        assert |Again(renum, fields[0])| == 1;
        assert AllAgain(renum, fields)[1..] == AllAgain(renum, rest);
        assert AllAgain(renum, fields)[0] == Again(renum, fields[0])[0];
      }
      if forall f | f in fields :: Again(renum, f) == [f] {
        assert fields[0] in fields && forall f | f in rest :: f in fields;
      }
    }
  }

  /** Every key of the rebuilt object is a canonical one. */
  lemma {:induction false} RebuiltKeys(done: seq<Field>, leaves: seq<Leaf>, k: string)
    requires ProperPaths(leaves)
    ensures HasKey(SetAll(done, leaves), k) ==> HasKey(done, k) || exists l :: l in leaves && l.path != []
                                                                    && l.path[0].text == k
    decreases |leaves|
  {
    if leaves != [] {
      var first := leaves[0];
      var key := first.path[0].text;
      var value := if |first.path| == 1 then first.value
                   else Obj(Set(Inner(Get(done, key)), first.path[1..], first.value));
      GetPut(done, key, value, k);
      RebuiltKeys(Set(done, first.path, first.value), leaves[1..], k);
      assert first in leaves;
    }
  }

  lemma {:induction false} FirstSegments(renum: Renumber, fields: seq<Field>, l: Leaf)
    requires l in FieldLeaves(renum, fields)
    ensures exists f :: f in fields && l.path != [] && l.path[0] == NumericKey(renum, f.key)
  {
    var here := Prepend(NumericKey(renum, fields[0].key), LeavesOf(renum, fields[0].val));
    if l in here {
      assert fields[0] in fields;
    } else {
      FirstSegments(renum, fields[1..], l);
    }
  }

  /** The leaves of an object whose keys do not clash build it again exactly when it is faithful: no
      empty object inside, and every key of digits in canonical form. */
  lemma {:induction false} FieldsRebuilt(renum: Renumber, fields: seq<Field>)
    requires WellFormed(Obj(fields)) && Idempotent(renum)
    ensures SetAll([], FieldLeaves(renum, fields)) == fields <==> FaithfulFields(renum, fields)
    decreases fields
  {
    var again := SetAll([], FieldLeaves(renum, fields));
    if forall f | f in fields :: Canonical(renum, f.key) {
      FieldsAgain(renum, [], fields);
      assert [] + AllAgain(renum, fields) == AllAgain(renum, fields);
      AllAgainSame(renum, fields);
      forall f | f in fields ensures Again(renum, f) == [f] <==> Faithful(renum, f.val) { AgainFaithful(renum, f); }
    } else {
      var f :| f in fields && !Canonical(renum, f.key);
      if again == fields {
        var i :| 0 <= i < |fields| && fields[i] == f;
        assert HasKey(again, f.key);
        ProperBelow(renum, fields);
        RebuiltKeys([], FieldLeaves(renum, fields), f.key);
        var l :| l in FieldLeaves(renum, fields) && l.path != [] && l.path[0].text == f.key;
        FirstSegments(renum, fields, l);
        assert false;
      }
    }
  }

  lemma {:induction false} AgainFaithful(renum: Renumber, f: Field)
    requires WellFormed(f.val) && Idempotent(renum)
    ensures Again(renum, f) == [f] <==> Faithful(renum, f.val)
    decreases f
  {
    if !IsLeaf(f.val) {
      FieldsRebuilt(renum, f.val.fields);
      if f.val.fields != [] && LeavesOf(renum, f.val) == [] {
        assert SetAll([], FieldLeaves(renum, f.val.fields)) == [];
      }
    }
  }

  /** For every graph (an object that is not itself a leaf): writing its leaves into an empty graph
      gives it back exactly when it is empty or faithful. */
  lemma FlatteningLosesNothing(renum: Renumber, graph: Value)
    requires WellFormed(graph) && !IsLeaf(graph) && Idempotent(renum)
    ensures Rebuilt(renum, graph) == graph <==> FaithfulFields(renum, graph.fields)
  {
    FieldsRebuilt(renum, graph.fields);
  }

  /** A graph that is itself a leaf is lost: its one leaf has the empty path, which writes nothing. */
  lemma LeafGraphIsLost(renum: Renumber, graph: Value)
    requires IsLeaf(graph)
    ensures Rebuilt(renum, graph) == Obj([])
  {
    var leaves := LeavesOf(renum, graph);
    assert leaves == [Leaf([], graph)] && leaves[1..] == [];
    assert SetAll([], leaves) == SetAll(Set([], [], graph), []);
  }

  // ---------------------------------------------------------------- leaf paths

  ghost predicate PrefixFree(leaves: seq<Leaf>) {
    forall i, j | 0 <= i < |leaves| && 0 <= j < |leaves| && i != j :: !(leaves[i].path <= leaves[j].path)
  }

  lemma PrefixFreePrepend(seg: Segment, leaves: seq<Leaf>)
    requires PrefixFree(leaves)
    ensures PrefixFree(Prepend(seg, leaves))
  {
    var r := Prepend(seg, leaves);
    forall i, j | 0 <= i < |r| && 0 <= j < |r| && i != j ensures !(r[i].path <= r[j].path) {
      assert !(leaves[i].path <= leaves[j].path);
      assert r[i].path[1..] == leaves[i].path && r[j].path[1..] == leaves[j].path;
    }
  }

  /** No leaf lies above another one. */
  lemma {:induction false} LeafPathsPrefixFree(renum: Renumber, v: Value)
    requires WellFormed(v) && CanonicalKeys(renum, v)
    ensures PrefixFree(LeavesOf(renum, v))
    decreases v
  {
    if !IsLeaf(v) { FieldPathsPrefixFree(renum, v.fields); }
  }

  predicate CanonicalKeys(renum: Renumber, v: Value)
    decreases v
  {
    IsLeaf(v) || forall f | f in v.fields :: Canonical(renum, f.key) && CanonicalKeys(renum, f.val)
  }

  lemma {:induction false} FieldPathsPrefixFree(renum: Renumber, fields: seq<Field>)
    requires DistinctKeys(fields)
    requires forall f | f in fields :: WellFormed(f.val) && Canonical(renum, f.key) && CanonicalKeys(renum, f.val)
    ensures PrefixFree(FieldLeaves(renum, fields))
    decreases fields
  {
    if fields != [] {
      var seg, rest := NumericKey(renum, fields[0].key), fields[1..];
      assert fields[0] in fields && DistinctKeys(rest) && forall f | f in rest :: f in fields;
      LeafPathsPrefixFree(renum, fields[0].val);
      FieldPathsPrefixFree(renum, rest);
      PrefixFreePrepend(seg, LeavesOf(renum, fields[0].val));
      forall l | l in FieldLeaves(renum, rest) ensures l.path != [] && l.path[0] != seg {
        FirstSegments(renum, rest, l);
        var g :| g in rest && l.path != [] && l.path[0] == NumericKey(renum, g.key);
        var j :| 0 <= j < |rest| && rest[j] == g;
        assert fields[0].key != fields[j + 1].key;
        assert Canonical(renum, g.key) && Canonical(renum, fields[0].key);
      }
      PrefixFreeConcat(seg, Prepend(seg, LeavesOf(renum, fields[0].val)), FieldLeaves(renum, rest));
    }
  }

  lemma {:induction false} PrefixFreeConcat(seg: Segment, a: seq<Leaf>, b: seq<Leaf>)
    requires PrefixFree(a) && PrefixFree(b)
    requires forall l | l in a :: l.path != [] && l.path[0] == seg
    requires forall l | l in b :: l.path != [] && l.path[0] != seg
    ensures PrefixFree(a + b)
  {
  }

  // ---------------------------------------------------------------- reading a path

  const MissingAtom: Value := Obj([Field("$type", Str("atom"))])

  /** `value[key]`; of an array the items and the length. */
  function Property(v: Value, key: string): Value {
    match v
    case Obj(fields) => Get(fields, key)
    case Arr(items) =>
      if key == "length" then Num(LengthText(|items|))
      else if key != "" && AllDigits(key) && NatOf(key) < |items| && NatText(NatOf(key)) == key then items[NatOf(key)]
      else Undefined
    case _ => Undefined
  }

  function LengthText(n: nat): NumberText {
    var t := NatText(n);
    assert IsNumberText(t) by {
      assert t[0] in t && IsDigit(t[0]);
      forall c | c in t ensures '0' <= c <= '9' { assert IsDigit(c); }
    }
    t
  }

  function Walked(v: Value, path: Path): Value
    decreases |path|
  {
    if path == [] then v
    else if !v.Obj? && !v.Arr? then MissingAtom
    else
      var next := Property(v, path[0].text);
      if next == Undefined then MissingAtom else Walked(next, path[1..])
  }

  function ValueForPath(v: Value, path: Path): Value {
    if v == Undefined then MissingAtom else if v == Null then Null else Walked(v, path)
  }

  method ReadPath(value: Value, path: Path) returns (r: Value)
    ensures r == ValueForPath(value, path)
  {
    if value == Undefined || value == Null {
      return if value == Null then Null else MissingAtom;
    }
    var current := value;
    for i := 0 to |path|
      invariant Walked(current, path[i..]) == Walked(value, path)
    {
      assert path[i..][1..] == path[i + 1..];
      if !current.Obj? && !current.Arr? { return MissingAtom; }
      current := Property(current, path[i].text);
      if current == Undefined { return MissingAtom; }
    }
    r := current;
  }

  /** A value written is read back, whatever was there before. */
  lemma {:induction false} WrittenIsRead(fields: seq<Field>, path: Path, value: Value)
    requires path != []
    ensures ValueForPath(Obj(Set(fields, path, value)), path) == if value == Undefined then MissingAtom else value
    decreases |path|
  {
    var key := path[0].text;
    if |path| == 1 {
      assert path[1..] == [];
      GetPut(fields, key, value, key);
      assert Property(Obj(Set(fields, path, value)), key) == value;
      assert Walked(value, path[1..]) == value;
    } else {
      var inner := Inner(Get(fields, key));
      WrittenIsRead(inner, path[1..], value);
      GetPut(fields, key, Obj(Set(inner, path[1..], value)), key);
    }
  }

  /** A write leaves what is under other first keys alone. */
  lemma OtherKeysStay(fields: seq<Field>, path: Path, value: Value, other: Path)
    requires path != [] && other != [] && path[0].text != other[0].text
    ensures ValueForPath(Obj(Set(fields, path, value)), other) == ValueForPath(Obj(fields), other)
  {
    var key := path[0].text;
    var written := if |path| == 1 then value else Obj(Set(Inner(Get(fields, key)), path[1..], value));
    GetPut(fields, key, written, other[0].text);
  }

  /** Each leaf path leads to the value of its leaf. */
  lemma {:induction false} LeafIsRead(renum: Renumber, v: Value, l: Leaf)
    requires WellFormed(v) && CanonicalKeys(renum, v) && Defined(v) && l in LeavesOf(renum, v)
    ensures Walked(v, l.path) == l.value
    decreases v
  {
    if !IsLeaf(v) {
      LeafBelow(renum, v.fields, l);
      var i, below :| 0 <= i < |v.fields| && below in LeavesOf(renum, v.fields[i].val)
        && l == Leaf([NumericKey(renum, v.fields[i].key)] + below.path, below.value);
      var f := v.fields[i];
      assert f in v.fields && Canonical(renum, f.key);
      LeafIsRead(renum, f.val, below);
      GetAt(v.fields, i);
      assert l.path[1..] == below.path;
    }
  }

  /** No property holds `undefined`. */
  predicate Defined(v: Value)
    decreases v
  {
    v != Undefined && (v.Obj? ==> forall f | f in v.fields :: Defined(f.val))
  }

  lemma {:induction false} LeafBelow(renum: Renumber, fields: seq<Field>, l: Leaf)
    requires l in FieldLeaves(renum, fields)
    ensures exists i, below :: 0 <= i < |fields| && below in LeavesOf(renum, fields[i].val)
              && l == Leaf([NumericKey(renum, fields[i].key)] + below.path, below.value)
  {
    var seg, below := NumericKey(renum, fields[0].key), LeavesOf(renum, fields[0].val);
    if l in Prepend(seg, below) {
      var k :| 0 <= k < |below| && Prepend(seg, below)[k] == l;
      assert below[k] in below;
    } else {
      LeafBelow(renum, fields[1..], l);
      var i, b :| 0 <= i < |fields[1..]| && b in LeavesOf(renum, fields[1..][i].val)
        && l == Leaf([NumericKey(renum, fields[1..][i].key)] + b.path, b.value);
      assert fields[i + 1] == fields[1..][i];
    }
  }

  // ---------------------------------------------------------------- path sets

  /** One part of a path set: a list of keys, a range (its bounds as integers), null, or one key. */
  datatype Part = Keys(keys: seq<Segment>) | Range(from: int, to: int) | Nothing | Key(key: Segment)

  function IntSegment(n: int): Segment {
    Index(IntText(n))
  }

  predicate Covers(p: Part, seg: Segment) {
    match p
    case Keys(keys) => seg in keys
    case Range(from, to) => exists n | from <= n <= to :: seg == IntSegment(n)
    case Nothing => false
    case Key(key) => seg == key
  }

  /** The keys of a part, in order. */
  function SegmentsOf(p: Part): seq<Segment> {
    match p
    case Keys(keys) => keys
    case Range(from, to) => if to < from then [] else seq(to - from + 1, i requires 0 <= i => IntSegment(from + i))
    case Nothing => []
    case Key(key) => [key]
  }

  method ExpandSegment(p: Part) returns (values: seq<Segment>)
    ensures values == SegmentsOf(p)
    ensures forall seg :: seg in values <==> Covers(p, seg)
  {
    SegmentsCover(p);
    if p.Keys? { return p.keys; }
    if p.Nothing? { return []; }
    if p.Key? { return [p.key]; }
    values := [];
    var index := p.from;
    while index <= p.to
      invariant p.from <= index <= (if p.to < p.from then p.from else p.to + 1)
      invariant |values| == index - p.from
      invariant forall i | 0 <= i < |values| :: values[i] == IntSegment(p.from + i)
    {
      values := values + [IntSegment(index)];
      index := index + 1;
    }
  }

  lemma SegmentsCover(p: Part)
    ensures forall seg :: seg in SegmentsOf(p) <==> Covers(p, seg)
  {
    if p.Range? {
      var values := SegmentsOf(p);
      forall seg ensures seg in values <==> Covers(p, seg) {
        if seg in values {
          var i :| 0 <= i < |values| && values[i] == seg;
          assert p.from <= p.from + i <= p.to;
        }
        if Covers(p, seg) {
          var n :| p.from <= n <= p.to && seg == IntSegment(n);
          assert values[n - p.from] == seg;
        }
      }
    }
  }

  predicate Matches(parts: seq<Part>, path: Path) {
    |path| == |parts| && forall i | 0 <= i < |parts| :: Covers(parts[i], path[i])
  }

  lemma MatchesSnoc(parts: seq<Part>, p: Part, path: Path)
    ensures Matches(parts + [p], path)
       <==> path != [] && Matches(parts, path[..|path| - 1]) && Covers(p, path[|path| - 1])
  {
  }

  function Extensions(path: Path, values: seq<Segment>): (r: seq<Path>)
    ensures |r| == |values|
  {
    seq(|values|, i requires 0 <= i < |values| => path + [values[i]])
  }

  function AllExtensions(paths: seq<Path>, values: seq<Segment>): seq<Path> {
    if paths == [] then []
    else AllExtensions(paths[..|paths| - 1], values) + Extensions(paths[|paths| - 1], values)
  }

  /** The paths of a path set, the keys of its last part varying fastest. */
  function Product(parts: seq<Part>): seq<Path> {
    if parts == [] then [[]]
    else AllExtensions(Product(parts[..|parts| - 1]), SegmentsOf(parts[|parts| - 1]))
  }

  lemma {:induction false} AllExtensionsAt(paths: seq<Path>, values: seq<Segment>, i: nat, j: nat)
    requires i < |paths| && j < |values|
    ensures |AllExtensions(paths, values)| == |paths| * |values| && i * |values| + j < |paths| * |values|
    ensures AllExtensions(paths, values)[i * |values| + j] == paths[i] + [values[j]]
  {
    var n, m := |paths| - 1, |values|;
    AllExtensionsSize(paths, values);
    AllExtensionsSize(paths[..n], values);
    Place(i, j, n, m);
    if i < n {
      AllExtensionsAt(paths[..n], values, i, j);
    }
  }

  lemma {:induction false} AllExtensionsSize(paths: seq<Path>, values: seq<Segment>)
    ensures |AllExtensions(paths, values)| == |paths| * |values|
  {
    if paths != [] {
      var n := |paths| - 1;
      AllExtensionsSize(paths[..n], values);
      assert (n + 1) * |values| == n * |values| + |values|;
    }
  }

  lemma Place(i: nat, j: nat, n: nat, m: nat)
    requires i <= n && j < m
    ensures i * m + j < (n + 1) * m && (i < n ==> i * m + j < n * m) && (i == n ==> i * m + j == n * m + j)
  {
    assert (n + 1) * m == n * m + m;
    if i < n { assert n * m == (i + 1) * m + (n - i - 1) * m && (i + 1) * m == i * m + m; }
  }

  /** Which path stands where: their number is the product of the numbers of keys, and path `i` of the
      parts before, with key `j` of the last part, has place `i * m + j`. */
  lemma ProductAt(parts: seq<Part>, i: nat, j: nat)
    requires parts != []
    requires i < |Product(parts[..|parts| - 1])| && j < |SegmentsOf(parts[|parts| - 1])|
    ensures var before, values := Product(parts[..|parts| - 1]), SegmentsOf(parts[|parts| - 1]);
            && |Product(parts)| == |before| * |values| && i * |values| + j < |before| * |values|
            && Product(parts)[i * |values| + j] == before[i] + [values[j]]
  {
    var before, values := Product(parts[..|parts| - 1]), SegmentsOf(parts[|parts| - 1]);
    assert Product(parts) == AllExtensions(before, values);
    AllExtensionsAt(before, values, i, j);
  }

  /** A path set stands for the paths that take one key from each part: all of them, and no others, in
      the order of the product. */
  method ExpandPathSet(parts: seq<Part>) returns (paths: seq<Path>)
    ensures paths == Product(parts)
    ensures forall path :: path in paths <==> Matches(parts, path)
  {
    paths := [[]];
    for i := 0 to |parts|
      invariant paths == Product(parts[..i])
    {
      var values := ExpandSegment(parts[i]);
      var next: seq<Path> := [];
      for j := 0 to |paths|
        invariant next == AllExtensions(paths[..j], values)
      {
        assert paths[..j + 1][..j] == paths[..j];
        next := next + Extensions(paths[j], values);
      }
      assert paths[..|paths|] == paths && parts[..i + 1][..i] == parts[..i];
      paths := next;
    }
    assert parts[..|parts|] == parts;
    ProductMatches(parts);
  }

  lemma {:induction false} AllExtensionsAre(paths: seq<Path>, values: seq<Segment>, q: Path)
    ensures q in AllExtensions(paths, values) <==> q != [] && q[..|q| - 1] in paths && q[|q| - 1] in values
  {
    if paths != [] {
      var n := |paths| - 1;
      assert paths == paths[..n] + [paths[n]];
      AllExtensionsAre(paths[..n], values, q);
      ExtensionsAre(paths[n], values);
    }
  }

  lemma {:induction false} ProductMatches(parts: seq<Part>)
    ensures forall path :: path in Product(parts) <==> Matches(parts, path)
  {
    if parts != [] {
      var before, last := parts[..|parts| - 1], parts[|parts| - 1];
      assert parts == before + [last];
      ProductMatches(before);
      SegmentsCover(last);
      forall q ensures q in Product(parts) <==> Matches(parts, q) {
        AllExtensionsAre(Product(before), SegmentsOf(last), q);
        MatchesSnoc(before, last, q);
      }
    }
  }

  lemma ExtensionsAre(path: Path, values: seq<Segment>)
    ensures forall q :: q in Extensions(path, values) <==> q != [] && q[..|q| - 1] == path && q[|q| - 1] in values
  {
    forall q ensures q in Extensions(path, values) <==> q != [] && q[..|q| - 1] == path && q[|q| - 1] in values {
      if q != [] && q[..|q| - 1] == path && q[|q| - 1] in values {
        var k :| 0 <= k < |values| && values[k] == q[|q| - 1];
        assert q == path + [values[k]] == Extensions(path, values)[k];
      }
      if q in Extensions(path, values) {
        var k :| 0 <= k < |values| && Extensions(path, values)[k] == q;
        assert q == path + [values[k]];
      }
    }
  }

  // ---------------------------------------------------------------- pointers

  function ReplaceAll(s: string, c: char, sub: string): string {
    if s == "" then "" else (if s[0] == c then sub else [s[0]]) + ReplaceAll(s[1..], c, sub)
  }

  function Escaped(s: string): string {
    ReplaceAll(ReplaceAll(s, '~', "~0"), '/', "~1")
  }

  function Tail(path: Path): string {
    if path == [] then "" else "/" + (Escaped(path[0].text) + Tail(path[1..]))
  }

  /** A slash, then the escaped keys with slashes between them. */
  function Pointer(path: Path): string {
    if path == [] then "/" else Tail(path)
  }

  function TextsOf(path: Path): (r: seq<string>) {
    seq(|path|, i requires 0 <= i < |path| => path[i].text)
  }

  function EscapedChar(c: char): string {
    if c == '~' then "~0" else if c == '/' then "~1" else [c]
  }

  lemma {:induction false} ReplaceConcat(a: string, b: string, c: char, sub: string)
    ensures ReplaceAll(a + b, c, sub) == ReplaceAll(a, c, sub) + ReplaceAll(b, c, sub)
  {
    if a == "" {
      assert a + b == b;
    } else {
      assert (a + b)[1..] == a[1..] + b;
      ReplaceConcat(a[1..], b, c, sub);
    }
  }

  lemma EscapedFirst(s: string)
    requires s != ""
    ensures Escaped(s) == EscapedChar(s[0]) + Escaped(s[1..])
  {
    var first := if s[0] == '~' then "~0" else [s[0]];
    ReplaceConcat(first, ReplaceAll(s[1..], '~', "~0"), '/', "~1");
    assert [s[0]][1..] == "" && "~0"[1..] == "0" && "0"[1..] == "";
    assert ReplaceAll("0", '/', "~1") == "0";
    assert ReplaceAll("~0", '/', "~1") == "~0";
    assert ReplaceAll([s[0]], '/', "~1") == if s[0] == '/' then "~1" else [s[0]];
  }

  /** The end of a key: nothing more, or a slash. */
  predicate Ended(s: string) {
    s == "" || s[0] == '/'
  }

  lemma EscapedFront(s: string, a: string)
    requires s != ""
    ensures Escaped(s) + a == EscapedChar(s[0]) + (Escaped(s[1..]) + a)
  {
    EscapedFirst(s);
    Regroup(EscapedChar(s[0]), Escaped(s[1..]), a);
  }

  /** The escaped text of a key can be told from what follows it, and names the key. */
  lemma {:induction false} EscapedSplits(s: string, a: string, t: string, b: string)
    requires Ended(a) && Ended(b) && Escaped(s) + a == Escaped(t) + b
    ensures s == t && a == b
  {
    if s == "" || t == "" {
      EmptySplits(s, a, t, b);
    } else {
      EscapedFront(s, a);
      EscapedFront(t, b);
      CharSplits(s[0], Escaped(s[1..]) + a, t[0], Escaped(t[1..]) + b);
      EscapedSplits(s[1..], a, t[1..], b);
      assert s == [s[0]] + s[1..] && t == [t[0]] + t[1..];
    }
  }

  lemma EscapedNotEnded(s: string, a: string)
    requires s != ""
    ensures !Ended(Escaped(s) + a)
  {
    EscapedFront(s, a);
  }

  lemma EmptySplits(s: string, a: string, t: string, b: string)
    requires s == "" || t == ""
    requires Ended(a) && Ended(b) && Escaped(s) + a == Escaped(t) + b
    ensures s == t && a == b
  {
    assert Escaped("") == "" && "" + a == a && "" + b == b;
    if s != "" { EscapedNotEnded(s, a); }
    if t != "" { EscapedNotEnded(t, b); }
  }

  lemma CharSplits(c: char, x: string, d: char, y: string)
    requires EscapedChar(c) + x == EscapedChar(d) + y
    ensures c == d && x == y
  {
    var l, r := EscapedChar(c) + x, EscapedChar(d) + y;
    assert l[0] == EscapedChar(c)[0] && r[0] == EscapedChar(d)[0];
    if |EscapedChar(c)| == 2 && |EscapedChar(d)| == 2 { assert l[1] == EscapedChar(c)[1] && r[1] == EscapedChar(d)[1]; }
    assert l[|EscapedChar(c)|..] == x && r[|EscapedChar(d)|..] == y;
  }

  lemma TextsFirst(p: Path)
    requires p != []
    ensures TextsOf(p) == [p[0].text] + TextsOf(p[1..])
  {
  }

  lemma AfterSlash(x: string, y: string)
    requires "/" + x == "/" + y
    ensures x == y
  {
    assert ("/" + x)[1..] == x && ("/" + y)[1..] == y;
  }

  lemma {:induction false} TailInjective(p: Path, q: Path)
    requires Tail(p) == Tail(q)
    ensures TextsOf(p) == TextsOf(q)
  {
    if p != [] && q != [] {
      TextsFirst(p);
      TextsFirst(q);
      AfterSlash(Escaped(p[0].text) + Tail(p[1..]), Escaped(q[0].text) + Tail(q[1..]));
      TailEnded(p[1..]);
      TailEnded(q[1..]);
      EscapedSplits(p[0].text, Tail(p[1..]), q[0].text, Tail(q[1..]));
      TailInjective(p[1..], q[1..]);
    }
  }

  lemma TailEnded(p: Path)
    ensures Ended(Tail(p))
  {
  }

  lemma {:induction false} TailOfTexts(p: Path, q: Path)
    requires TextsOf(p) == TextsOf(q)
    ensures Tail(p) == Tail(q)
  {
    assert |p| == |q|;
    if p != [] {
      assert TextsOf(p)[0] == p[0].text && TextsOf(q)[0] == q[0].text;
      assert TextsOf(p)[1..] == TextsOf(p[1..]) && TextsOf(q)[1..] == TextsOf(q[1..]);
      TailOfTexts(p[1..], q[1..]);
    }
  }

  predicate Blank(path: Path) {
    path == [] || TextsOf(path) == [""]
  }

  /** Two paths have one pointer exactly when their keys read alike, but for the empty path, which
      shares the pointer `/` with the path of one empty key. */
  lemma PointerDeterminesPath(p: Path, q: Path)
    ensures Pointer(p) == Pointer(q) <==> TextsOf(p) == TextsOf(q) || (Blank(p) && Blank(q))
  {
    var blank := [Name("")];
    assert TextsOf(blank) == [""] && Tail([]) == "" && Escaped("") == "";
    assert blank[1..] == [] && Tail(blank) == "/" + ("" + "") && "/" + ("" + "") == "/";
    BlankTail(p, blank);
    BlankTail(q, blank);
    if Tail(p) == Tail(q) { TailInjective(p, q); }
    if TextsOf(p) == TextsOf(q) { TailOfTexts(p, q); }
  }

  lemma BlankTail(p: Path, blank: Path)
    requires TextsOf(blank) == [""] && Tail(blank) == "/"
    ensures p != [] ==> (Tail(p) == "/" <==> TextsOf(p) == [""])
  {
    if Tail(p) == Tail(blank) { TailInjective(p, blank); }
    if TextsOf(p) == TextsOf(blank) { TailOfTexts(p, blank); }
  }

  /** The items of an array stand under their decimal indices, and its length under that name. */
  lemma ArrayProperties(items: seq<Value>, i: nat)
    ensures Property(Arr(items), NatText(i)) == if i < |items| then items[i] else Undefined
    ensures Property(Arr(items), "length").Num? && Property(Arr(items), "length").text == NatText(|items|)
  {
    NatOfText(i);
    assert NatText(i)[0] in NatText(i) && IsDigit(NatText(i)[0]) && "length"[0] == 'l';
  }

  /** The keys of a pointer as section 4 of RFC 6901 reads them, `part` begun before `s`. */
  function ReadPointer(s: string, part: string): seq<string>
    decreases |s|
  {
    if s == "" then [part]
    else if s[0] == '/' then [part] + ReadPointer(s[1..], "")
    else if s[0] == '~' && |s| > 1 && s[1] == '0' then ReadPointer(s[2..], part + "~")
    else if s[0] == '~' && |s| > 1 && s[1] == '1' then ReadPointer(s[2..], part + "/")
    else ReadPointer(s[1..], part + [s[0]])
  }

  lemma CharIsRead(c: char, more: string, part: string)
    requires c != '/' || EscapedChar(c) == "~1"
    ensures ReadPointer(EscapedChar(c) + more, part) == ReadPointer(more, part + [c])
  {
    var one := EscapedChar(c);
    assert (one + more)[|one|..] == more && (one + more)[0] == one[0];
    if c == '~' || c == '/' { assert (one + more)[1] == one[1] && ["~"[0]] == "~" && ["/"[0]] == "/"; }
  }

  lemma {:induction false} KeyIsRead(key: string, part: string, rest: string)
    requires Ended(rest)
    ensures ReadPointer(Escaped(key) + rest, part)
         == [part + key] + if rest == "" then [] else ReadPointer(rest[1..], "")
    decreases |key|
  {
    if key == "" {
      assert Escaped(key) + rest == rest && part + key == part;
      assert [part] + [] == [part];
    } else {
      EscapedFirst(key);
      Regroup(EscapedChar(key[0]), Escaped(key[1..]), rest);
      CharIsRead(key[0], Escaped(key[1..]) + rest, part);
      KeyIsRead(key[1..], part + [key[0]], rest);
      Shift(part, key);
    }
  }

  lemma PointerSplits(path: Path)
    requires path != []
    ensures Pointer(path) != "" && Pointer(path)[0] == '/'
    ensures Pointer(path)[1..] == Escaped(path[0].text) + Tail(path[1..]) && Ended(Tail(path[1..]))
    ensures TextsOf(path) == [path[0].text] + TextsOf(path[1..])
  {
  }

  /** Reading the pointer of a path gives its keys back. */
  lemma {:induction false} PointerReturns(path: Path)
    requires path != []
    ensures Pointer(path)[0] == '/' && ReadPointer(Pointer(path)[1..], "") == TextsOf(path)
  {
    PointerSplits(path);
    KeyIsRead(path[0].text, "", Tail(path[1..]));
    assert "" + path[0].text == path[0].text;
    if |path| > 1 {
      PointerReturns(path[1..]);
      assert Tail(path[1..]) == Pointer(path[1..]);
    }
  }

  /** A range stands for its integers from the first to the last, going up. */
  lemma RangeAt(from: int, to: int, i: nat)
    ensures |SegmentsOf(Range(from, to))| == if to < from then 0 else to - from + 1
    ensures from + i <= to ==> SegmentsOf(Range(from, to))[i] == IntSegment(from + i)
  {
  }
}
