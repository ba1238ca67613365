/** A collection stored in one SQLite table: its rows, and the operations that change them. */
module SqliteCollection {
  import opened Options
  import opened Json
  import opened Decimal

  // ---------------------------------------------------------------- records and rows

  /** The declared type of a field: text, number, date or enum; boolean; object, array or unknown. */
  datatype Kind = Scalar | Boolean | Structured

  /** `default` is `Undefined` for a field without one. */
  datatype Column = Column(kind: Kind, default: Value)

  type Record = map<string, Value>

  /** What a column holds; `JsonText(v)` is the JSON text of `v`. */
  datatype Cell = NullCell | Flag(b: bool) | JsonText(v: Value) | Plain(v: Value)

  type Row = map<string, Cell>
  type Table = seq<Row>

  datatype Schema = Schema(
    names: seq<string>,
    columns: map<string, Column>,
    keyFields: seq<string>,
    appendOnly: bool,
    readOnly: bool,
    applyDefaults: bool,
    valid: Record -> bool)

  ghost predicate SchemaOk(s: Schema) {
    && (forall f :: f in s.names <==> f in s.columns)
    && |s.keyFields| >= 1
    && forall f | f in s.keyFields :: f in s.columns
  }

  function At(r: Record, f: string): Value {
    if f in r then r[f] else Undefined
  }

  function ToCell(kind: Kind, v: Value): Cell {
    if v == Undefined then NullCell
    else match kind
      case Boolean => Flag(Truthy(v))
      case Structured => JsonText(v)
      case Scalar => if v == Null then NullCell else Plain(v)
  }

  function FromCell(c: Cell): Value {
    match c
    case NullCell => Undefined
    case Flag(b) => Bool(b)
    case JsonText(v) => v
    case Plain(v) => v
  }

  /** The driver takes texts, numbers and nulls. */
  predicate Bindable(c: Cell) {
    c.Plain? ==> c.v.Num? || c.v.Str?
  }

  predicate Fits(kind: Kind, c: Cell) {
    match kind
    case Scalar => c == NullCell || (c.Plain? && (c.v.Num? || c.v.Str?))
    case Boolean => c == NullCell || c.Flag?
    case Structured => c == NullCell || (c.JsonText? && c.v != Undefined)
  }

  function Serialized(s: Schema, r: Record): (row: Row)
    ensures row.Keys == s.columns.Keys
  {
    map f | f in s.columns :: ToCell(s.columns[f].kind, At(r, f))
  }

  function Deserialized(s: Schema, row: Row): (r: Record) {
    map f | f in s.columns && f in row && FromCell(row[f]) != Undefined :: FromCell(row[f])
  }

  function Known(s: Schema, r: Record): (k: Record) {
    map f | f in s.columns && At(r, f) != Undefined :: At(r, f)
  }

  function Defaulted(s: Schema, r: Record): (d: Record) {
    map f | f in s.columns && (At(r, f) != Undefined || s.columns[f].default != Undefined)
      :: if At(r, f) != Undefined then At(r, f) else s.columns[f].default
  }

  predicate RowBindable(row: Row) {
    forall f | f in row :: Bindable(row[f])
  }

  predicate RowOk(s: Schema, row: Row) {
    && row.Keys == s.columns.Keys
    && (forall f | f in s.columns :: Fits(s.columns[f].kind, row[f]))
    && forall f | f in s.keyFields :: f in row && Present(FromCell(row[f]))
  }

  predicate Present(v: Value) {
    v != Undefined && v != Null && v != Str("")
  }

  // ---------------------------------------------------------------- keys

  datatype Error = AppendOnly | ReadOnly | MissingKey | Invalid | Unbindable | Duplicate | NothingToSet

  datatype Result<T> = Ok(value: T) | Err(error: Error)

  /** A key as a caller gives it: some value, or an object with fields (`whole` is that object). */
  datatype Key = Whole(whole: Value) | ByFields(fields: Record, whole: Value)

  predicate AllPresent(fs: seq<string>, r: Record) {
    forall f | f in fs :: Present(At(r, f))
  }

  function KeyRecord(s: Schema, key: Key): Result<Record>
    requires SchemaOk(s)
  {
    if |s.keyFields| == 1 then
      var f := s.keyFields[0];
      if key.ByFields? && At(key.fields, f) != Undefined then Ok(map[f := At(key.fields, f)])
      else if key.Whole? && !Present(key.whole) then Err(MissingKey)
      else Ok(map[f := key.whole])
    else if key.Whole? || !AllPresent(s.keyFields, key.fields) then Err(MissingKey)
    else Ok(map f | f in s.keyFields :: At(key.fields, f))
  }

  function CellAt(row: Row, f: string): Cell {
    if f in row then row[f] else NullCell
  }

  function KeyOf(s: Schema, row: Row): (k: seq<Cell>) {
    seq(|s.keyFields|, i requires 0 <= i < |s.keyFields| => CellAt(row, s.keyFields[i]))
  }

  /** The cells a statement compares the key columns with. */
  function KeyCells(s: Schema, key: Key): Result<seq<Cell>>
    requires SchemaOk(s)
  {
    var r := KeyRecord(s, key);
    if r.Err? then Err(r.error)
    else
      var k := KeyOf(s, Serialized(s, r.value));
      if forall c | c in k :: Bindable(c) then Ok(k) else Err(Unbindable)
  }

  // ---------------------------------------------------------------- the statements

  predicate RowsOk(s: Schema, t: Table) {
    forall row | row in t :: RowOk(s, row)
  }

  predicate DistinctRows(s: Schema, t: Table)
  {
    forall i, j | 0 <= i < j < |t| :: KeyOf(s, t[i]) != KeyOf(s, t[j])
  }

  ghost predicate TableOk(s: Schema, t: Table) {
    SchemaOk(s) && RowsOk(s, t) && DistinctRows(s, t)
  }

  function Select(s: Schema, t: Table, k: seq<Cell>): Option<Row>
  {
    if t == [] then None else if KeyOf(s, t[0]) == k then Some(t[0]) else Select(s, t[1..], k)
  }

  function Without(s: Schema, t: Table, k: seq<Cell>): (rest: Table)
    ensures forall row | row in rest :: row in t
  {
    if t == [] then [] else (if KeyOf(s, t[0]) == k then [] else [t[0]]) + Without(s, t[1..], k)
  }

  /** The columns outside the key set from `row` where the key is `k`. */
  function Updated(s: Schema, t: Table, k: seq<Cell>, row: Row): Table {
    seq(|t|, i requires 0 <= i < |t| => if KeyOf(s, t[i]) == k then Assigned(s, t[i], row) else t[i])
  }

  function Assigned(s: Schema, before: Row, row: Row): (after: Row)
    ensures after.Keys == row.Keys
  {
    map f | f in row :: if f in s.keyFields then CellAt(before, f) else row[f]
  }

  predicate OnlyKeyFields(s: Schema) {
    forall f | f in s.columns :: f in s.keyFields
  }

  // ---------------------------------------------------------------- generated ids

  const Limit: nat := 0x20_0000_0000_0000

  /** `n` is a double; overflow to infinity is not considered. */
  predicate IsDouble(n: nat) {
    n < Limit || (n % 2 == 0 && IsDouble(n / 2))
  }

  /** `n + 1` in doubles, rounded to nearest, ties to even. */
  function Succ(n: nat): nat {
    if n < Limit then n + 1
    else if n < 2 * Limit && n % 4 != 0 then n + 2
    else n
  }

  /** `String(n)`; `Number(text)` where that is a positive integer, otherwise 0; and
      `JSON.stringify(value)`. */
  datatype Texts = Texts(ofNumber: nat -> string, numberOf: string -> nat, ofJson: Value -> string)

  ghost predicate Laws(x: Texts) {
    && (forall n | 0 < n && IsDouble(n) :: x.numberOf(x.ofNumber(n)) == n)
    && (forall t :: IsDouble(x.numberOf(t)))
    && x.numberOf("") == 0
  }

  function CellText(x: Texts, c: Cell): string {
    match c
    case NullCell => "null"
    case Flag(b) => if b then "1" else "0"
    case JsonText(v) => x.ofJson(v)
    case Plain(v) => if v.Str? then v.s else if v.Num? then v.text else x.ofJson(v)
  }

  /** The texts of the stored ids, empty ones left out. */
  function Ids(x: Texts, s: Schema, t: Table): (ids: seq<string>)
    requires SchemaOk(s)
    ensures |ids| <= |t|
  {
    if t == [] then []
    else
      var text := CellText(x, KeyOf(s, t[0])[0]);
      (if text == "" then [] else [text]) + Ids(x, s, t[1..])
  }

  function Numeric(x: Texts, ids: seq<string>): (ns: seq<nat>) {
    if ids == [] then []
    else (if x.numberOf(ids[0]) > 0 then [x.numberOf(ids[0])] else []) + Numeric(x, ids[1..])
  }

  function Max(ns: seq<nat>): nat {
    if ns == [] then 0 else if ns[0] > Max(ns[1..]) then ns[0] else Max(ns[1..])
  }

  function FirstGuess(x: Texts, ids: seq<string>): nat {
    if Numeric(x, ids) != [] then Succ(Max(Numeric(x, ids))) else |ids| + 1
  }

  /** The largest id is so large that adding one gives it back. */
  predicate Stuck(x: Texts, ids: seq<string>) {
    var top := Max(Numeric(x, ids));
    Numeric(x, ids) != [] && Succ(top) == top && x.ofNumber(top) in ids
  }

  /** The candidate after `rounds` rounds of the search loop. */
  function Guess(x: Texts, ids: seq<string>, rounds: nat): nat {
    if rounds == 0 then FirstGuess(x, ids) else Succ(Guess(x, ids, rounds - 1))
  }

  predicate Ends(x: Texts, ids: seq<string>, rounds: nat) {
    x.ofNumber(Guess(x, ids, rounds)) !in ids
  }

  lemma {:induction false} MaxIsNumeric(x: Texts, ids: seq<string>)
    ensures Numeric(x, ids) != [] ==> exists id :: id in ids && x.numberOf(id) == Max(Numeric(x, ids)) > 0
    ensures forall id | id in ids :: x.numberOf(id) <= Max(Numeric(x, ids))
    ensures forall id | id in ids :: x.numberOf(id) > 0 ==> Numeric(x, ids) != []
  {
    if ids != [] {
      var n, rest := x.numberOf(ids[0]), Numeric(x, ids[1..]);
      MaxIsNumeric(x, ids[1..]);
      assert Numeric(x, ids) == (if n > 0 then [n] else []) + rest;
      if n > 0 { assert ([n] + rest)[1..] == rest; } else { assert [] + rest == rest; }
      assert ids[0] in ids;
      forall id | id in ids ensures id == ids[0] || id in ids[1..] { }
      if rest != [] {
        var id :| id in ids[1..] && x.numberOf(id) == Max(rest) > 0;
        assert id in ids && (n > Max(rest) || x.numberOf(id) == Max(Numeric(x, ids)));
      } else if n > 0 {
        assert x.numberOf(ids[0]) == Max([n]);
      }
    }
  }

  lemma SuccGrows(n: nat)
    ensures Succ(n) == n || Succ(n) > n
    ensures IsDouble(n) ==> IsDouble(Succ(n))
  {
  }

  lemma HalfLimit()
    ensures IsDouble(Limit)
  {
    assert IsDouble(Limit / 2);
  }

  /** The first candidate is unused unless the search is stuck, and then so are all others: the loop
      is either not entered or never left. */
  lemma {:induction false} SearchEnds(x: Texts, ids: seq<string>)
    requires Laws(x) && |ids| < Limit
    ensures x.ofNumber(FirstGuess(x, ids)) in ids <==> Stuck(x, ids)
    ensures (exists rounds :: Ends(x, ids, rounds)) <==> !Stuck(x, ids)
    ensures x.numberOf(x.ofNumber(FirstGuess(x, ids))) == FirstGuess(x, ids) > 0
  {
    var first, top := FirstGuess(x, ids), Max(Numeric(x, ids));
    MaxIsNumeric(x, ids);
    HalfLimit();
    if Numeric(x, ids) != [] {
      var id :| id in ids && x.numberOf(id) == top;
      assert IsDouble(x.numberOf(id));
      SuccGrows(top);
    }
    assert x.numberOf(x.ofNumber(first)) == first;
    if Stuck(x, ids) {
      forall rounds ensures !Ends(x, ids, rounds) { StuckStays(x, ids, rounds); }
    } else {
      assert Ends(x, ids, 0);
    }
  }

  lemma {:induction false} StuckStays(x: Texts, ids: seq<string>, rounds: nat)
    requires Stuck(x, ids)
    ensures Guess(x, ids, rounds) == Max(Numeric(x, ids))
  {
    if rounds > 0 { StuckStays(x, ids, rounds - 1); }
  }

  /** The id 2^53 alone is enough to keep the search from ending. */
  lemma StuckAtLimit(x: Texts)
    requires Laws(x) && x.ofNumber(Limit) == "9007199254740992"
    ensures Stuck(x, ["9007199254740992"])
  {
  }

  method NextId(x: Texts, ids: seq<string>) returns (id: string)
    requires Laws(x) && |ids| < Limit && !Stuck(x, ids)
    ensures id == x.ofNumber(FirstGuess(x, ids))
    ensures id !in ids && id != ""
  {
    ghost var last := RoundsNeeded(x, ids);
    ghost var rounds := 0;
    var next := FirstGuess(x, ids);
    while x.ofNumber(next) in ids
      invariant rounds <= last && next == Guess(x, ids, rounds)
      invariant rounds > 0 ==> x.ofNumber(Guess(x, ids, 0)) in ids
      decreases last - rounds
    {
      next := Succ(next);
      rounds := rounds + 1;
    }
    SearchEnds(x, ids);
    id := x.ofNumber(next);
  }

  lemma RoundsNeeded(x: Texts, ids: seq<string>) returns (rounds: nat)
    requires Laws(x) && |ids| < Limit && !Stuck(x, ids)
    ensures Ends(x, ids, rounds)
  {
    SearchEnds(x, ids);
    rounds :| Ends(x, ids, rounds);
  }

  // ---------------------------------------------------------------- the operations

  datatype Op =
    | Create(r: Record)
    | Append(r: Record)
    | Patch(key: Key, r: Record)
    | Delete(key: Key)
    | Fetch(key: Key)

  /** `Searching`: the search for an id never ends. */
  datatype Reply = Found(r: Record) | Missing | Deleted(any: bool) | Failed(error: Error) | Searching

  function Prepared(s: Schema, r: Record): Record {
    if s.applyDefaults then Defaulted(s, Known(s, r)) else Known(s, r)
  }

  predicate NeedsId(s: Schema, r: Record)
    requires SchemaOk(s)
  {
    |s.keyFields| == 1 && !Present(At(r, s.keyFields[0]))
  }

  function WithId(x: Texts, s: Schema, t: Table, r: Record): Record
    requires SchemaOk(s)
  {
    if NeedsId(s, r) then r[s.keyFields[0] := Str(x.ofNumber(FirstGuess(x, Ids(x, s, t))))] else r
  }

  function Insert(x: Texts, s: Schema, t: Table, given: Record): (Table, Reply)
    requires SchemaOk(s)
  {
    var r := Prepared(s, given);
    var next := WithId(x, s, t, r);
    var row := Serialized(s, next);
    if s.readOnly then (t, Failed(ReadOnly))
    else if NeedsId(s, r) && Stuck(x, Ids(x, s, t)) then (t, Searching)
    else if |s.keyFields| > 1 && !AllPresent(s.keyFields, next) then (t, Failed(MissingKey))
    else if !s.valid(next) then (t, Failed(Invalid))
    else if !RowBindable(row) then (t, Failed(Unbindable))
    else if Select(s, t, KeyOf(s, row)).Some? then (t, Failed(Duplicate))
    else (t + [row], Found(next))
  }

  /** The stored record with the patch over it, key fields as they were. */
  function Merged(s: Schema, before: Record, patch: Record): (r: Record) {
    map f | f in s.columns && MergedAt(s, before, patch, f) != Undefined :: MergedAt(s, before, patch, f)
  }

  function MergedAt(s: Schema, before: Record, patch: Record, f: string): Value {
    if f in s.keyFields || f !in patch then At(before, f) else patch[f]
  }

  predicate SetBindable(s: Schema, row: Row) {
    forall f | f in row && f !in s.keyFields :: Bindable(row[f])
  }

  function PatchRow(s: Schema, t: Table, before: Row, patch: Record): (Table, Reply)
    requires SchemaOk(s)
  {
    var existing := Deserialized(s, before);
    var next := Merged(s, existing, patch);
    var k := KeyCells(s, ByFields(existing, Obj([])));
    if !s.valid(next) then (t, Failed(Invalid))
    else if k.Err? then (t, Failed(k.error))
    else if OnlyKeyFields(s) then (t, Failed(NothingToSet))
    else if !SetBindable(s, Serialized(s, next)) then (t, Failed(Unbindable))
    else (Updated(s, t, k.value, Serialized(s, next)), Found(next))
  }

  function Step(x: Texts, s: Schema, t: Table, op: Op): (Table, Reply)
    requires SchemaOk(s)
  {
    match op
    case Create(r) => if s.appendOnly then (t, Failed(AppendOnly)) else Insert(x, s, t, r)
    case Append(r) => Insert(x, s, t, r)
    case Patch(key, r) =>
      var k := KeyCells(s, key);
      if s.readOnly then (t, Failed(ReadOnly))
      else if s.appendOnly then (t, Failed(AppendOnly))
      else if k.Err? then (t, Failed(k.error))
      else (match Select(s, t, k.value)
        case None => (t, Missing)
        case Some(row) => PatchRow(s, t, row, r))
    case Delete(key) =>
      var k := KeyCells(s, key);
      if s.readOnly then (t, Failed(ReadOnly))
      else if s.appendOnly then (t, Failed(AppendOnly))
      else if k.Err? then (t, Failed(k.error))
      else
        var rest := Without(s, t, k.value);
        (rest, Deleted(|rest| < |t|))
    case Fetch(key) => (t, FetchReply(s, t, key))
  }

  function FetchReply(s: Schema, t: Table, key: Key): Reply
    requires SchemaOk(s)
  {
    var k := KeyCells(s, key);
    if k.Err? then Failed(k.error)
    else match Select(s, t, k.value)
      case None => Missing
      case Some(row) => Found(Deserialized(s, row))
  }

  function Run(x: Texts, s: Schema, t: Table, ops: seq<Op>): Table
    requires SchemaOk(s)
    decreases |ops|
  {
    if ops == [] then t else Run(x, s, Step(x, s, t, ops[0]).0, ops[1..])
  }

  // ---------------------------------------------------------------- an operation in two statements

  /** What an operation has decided to write, and will write with its last statement. */
  datatype Pending = Insertion(next: Record) | Change(k: seq<Cell>, next: Record) | Removal(k: seq<Cell>)

  /** An operation up to the statement that writes: answered already, or about to write. */
  datatype Start = Answered(reply: Reply) | Pends(pending: Pending)

  function StartInsert(x: Texts, s: Schema, t: Table, given: Record): Start
    requires SchemaOk(s)
  {
    var r := Prepared(s, given);
    var next := WithId(x, s, t, r);
    if s.readOnly then Answered(Failed(ReadOnly))
    else if NeedsId(s, r) && Stuck(x, Ids(x, s, t)) then Answered(Searching)
    else if |s.keyFields| > 1 && !AllPresent(s.keyFields, next) then Answered(Failed(MissingKey))
    else if !s.valid(next) then Answered(Failed(Invalid))
    else if !RowBindable(Serialized(s, next)) then Answered(Failed(Unbindable))
    else Pends(Insertion(next))
  }

  function StartPatch(s: Schema, before: Row, patch: Record): Start
    requires SchemaOk(s)
  {
    var existing := Deserialized(s, before);
    var next := Merged(s, existing, patch);
    var k := KeyCells(s, ByFields(existing, Obj([])));
    if !s.valid(next) then Answered(Failed(Invalid))
    else if k.Err? then Answered(Failed(k.error))
    else if OnlyKeyFields(s) then Answered(Failed(NothingToSet))
    else if !SetBindable(s, Serialized(s, next)) then Answered(Failed(Unbindable))
    else Pends(Change(k.value, next))
  }

  function StartOp(x: Texts, s: Schema, t: Table, op: Op): Start
    requires SchemaOk(s)
  {
    match op
    case Create(r) => if s.appendOnly then Answered(Failed(AppendOnly)) else StartInsert(x, s, t, r)
    case Append(r) => StartInsert(x, s, t, r)
    case Patch(key, r) =>
      var k := KeyCells(s, key);
      if s.readOnly then Answered(Failed(ReadOnly))
      else if s.appendOnly then Answered(Failed(AppendOnly))
      else if k.Err? then Answered(Failed(k.error))
      else (match Select(s, t, k.value)
        case None => Answered(Missing)
        case Some(row) => StartPatch(s, row, r))
    case Delete(key) =>
      var k := KeyCells(s, key);
      if s.readOnly then Answered(Failed(ReadOnly))
      else if s.appendOnly then Answered(Failed(AppendOnly))
      else if k.Err? then Answered(Failed(k.error))
      else Pends(Removal(k.value))
    case Fetch(key) => Answered(FetchReply(s, t, key))
  }

  /** The statement that writes, on the table as it is by then. */
  function FinishOp(s: Schema, t: Table, p: Pending): (Table, Reply) {
    match p
    case Insertion(next) =>
      var row := Serialized(s, next);
      if Select(s, t, KeyOf(s, row)).Some? then (t, Failed(Duplicate)) else (t + [row], Found(next))
    case Change(k, next) => (Updated(s, t, k, Serialized(s, next)), Found(next))
    case Removal(k) => (Without(s, t, k), Deleted(|Without(s, t, k)| < |t|))
  }

  lemma InsertIsBoth(x: Texts, s: Schema, t: Table, given: Record)
    requires SchemaOk(s)
    ensures Insert(x, s, t, given)
         == match StartInsert(x, s, t, given) case Answered(reply) => (t, reply) case Pends(p) => FinishOp(s, t, p)
  {
  }

  lemma PatchIsBoth(s: Schema, t: Table, before: Row, patch: Record)
    requires SchemaOk(s)
    ensures PatchRow(s, t, before, patch)
         == match StartPatch(s, before, patch) case Answered(reply) => (t, reply) case Pends(p) => FinishOp(s, t, p)
  {
  }

  /** With no statement in between, the two are the operation. */
  lemma StepIsBothStatements(x: Texts, s: Schema, t: Table, op: Op)
    requires SchemaOk(s)
    ensures Step(x, s, t, op)
         == match StartOp(x, s, t, op) case Answered(reply) => (t, reply) case Pends(p) => FinishOp(s, t, p)
  {
    match op
    case Create(r) => InsertIsBoth(x, s, t, r);
    case Append(r) => InsertIsBoth(x, s, t, r);
    case Patch(key, r) =>
      var k := KeyCells(s, key);
      if k.Ok? && Select(s, t, k.value).Some? { PatchIsBoth(s, t, Select(s, t, k.value).value, r); }
    case _ =>
  }

  // ---------------------------------------------------------------- the table as a map

  type Contents = map<seq<Cell>, Row>

  function ContentsOf(s: Schema, t: Table): Contents {
    if t == [] then map[] else ContentsOf(s, t[1..])[KeyOf(s, t[0]) := t[0]]
  }

  lemma {:induction false} SelectIsLookup(s: Schema, t: Table, k: seq<Cell>)
    ensures Select(s, t, k) == if k in ContentsOf(s, t) then Some(ContentsOf(s, t)[k]) else None
    ensures k in ContentsOf(s, t) ==> ContentsOf(s, t)[k] in t && KeyOf(s, ContentsOf(s, t)[k]) == k
  {
    if t != [] { SelectIsLookup(s, t[1..], k); }
  }

  lemma {:induction false} EachRowIsStored(s: Schema, t: Table, i: nat)
    requires i < |t|
    ensures KeyOf(s, t[i]) in ContentsOf(s, t)
  {
    if i > 0 { EachRowIsStored(s, t[1..], i - 1); }
  }

  lemma {:induction false} WithoutRemoves(s: Schema, t: Table, k: seq<Cell>)
    ensures ContentsOf(s, Without(s, t, k)) == ContentsOf(s, t) - {k}
    ensures |Without(s, t, k)| < |t| <==> k in ContentsOf(s, t)
    ensures |Without(s, t, k)| <= |t|
    ensures k !in ContentsOf(s, t) ==> Without(s, t, k) == t
  {
    if t != [] {
      WithoutRemoves(s, t[1..], k);
      var rest := Without(s, t[1..], k);
      if KeyOf(s, t[0]) == k {
        assert [] + rest == rest;
      } else {
        assert ([t[0]] + rest)[1..] == rest;
      }
    }
  }

  lemma {:induction false} AppendAdds(s: Schema, t: Table, row: Row)
    requires KeyOf(s, row) !in ContentsOf(s, t)
    ensures ContentsOf(s, t + [row]) == ContentsOf(s, t)[KeyOf(s, row) := row]
  {
    if t == [] {
      assert t + [row] == [row] && [row][1..] == [];
    } else {
      assert (t + [row])[1..] == t[1..] + [row];
      AppendAdds(s, t[1..], row);
    }
  }

  lemma AssignedKeepsKey(s: Schema, before: Row, row: Row)
    requires SchemaOk(s) && row.Keys == s.columns.Keys
    ensures KeyOf(s, Assigned(s, before, row)) == KeyOf(s, before)
  {
  }

  lemma {:induction false} UpdatedChangesOne(s: Schema, t: Table, k: seq<Cell>, row: Row)
    requires SchemaOk(s) && row.Keys == s.columns.Keys && k in ContentsOf(s, t)
    ensures ContentsOf(s, Updated(s, t, k, row)) == ContentsOf(s, t)[k := Assigned(s, ContentsOf(s, t)[k], row)]
  {
    var u := Updated(s, t, k, row);
    assert u[1..] == Updated(s, t[1..], k, row);
    AssignedKeepsKey(s, t[0], row);
    if k in ContentsOf(s, t[1..]) {
      UpdatedChangesOne(s, t[1..], k, row);
    } else {
      UpdatedNowhere(s, t[1..], k, row);
    }
  }

  lemma UpdatedNowhere(s: Schema, t: Table, k: seq<Cell>, row: Row)
    requires k !in ContentsOf(s, t)
    ensures Updated(s, t, k, row) == t
  {
    forall i | 0 <= i < |t| ensures Updated(s, t, k, row)[i] == t[i] { EachRowIsStored(s, t, i); }
  }

  // ---------------------------------------------------------------- cells and rows stay sound

  lemma CellReturns(kind: Kind, c: Cell)
    requires Fits(kind, c)
    ensures ToCell(kind, FromCell(c)) == c && Bindable(c)
  {
  }

  /** Survives a trip through the table: no null in a scalar column, and a boolean in a boolean one. */
  predicate Kept(kind: Kind, v: Value) {
    match kind
    case Scalar => v != Null
    case Boolean => v.Bool?
    case Structured => true
  }

  predicate Survives(s: Schema, r: Record) {
    forall f | f in r :: f in s.columns && Kept(s.columns[f].kind, r[f])
  }

  /** A record made of known fields comes back as it was exactly when each of its values survives. */
  lemma RecordReturns(s: Schema, r: Record)
    requires Known(s, r) == r
    ensures Deserialized(s, Serialized(s, r)) == r <==> Survives(s, r)
  {
  }

  lemma SerializedRowOk(s: Schema, r: Record)
    requires SchemaOk(s) && RowBindable(Serialized(s, r)) && AllPresent(s.keyFields, r)
    ensures RowOk(s, Serialized(s, r))
  {
  }

  /** The key that `patch` computes from the stored record is the key of its row. */
  lemma KeyOfStored(s: Schema, row: Row)
    requires SchemaOk(s) && RowOk(s, row)
    ensures KeyCells(s, ByFields(Deserialized(s, row), Obj([]))) == Ok(KeyOf(s, row))
  {
    var r := Deserialized(s, row);
    var key := ByFields(r, Obj([]));
    forall f | f in s.keyFields ensures f in r && r[f] == FromCell(row[f]) && Present(r[f])
        && Fits(s.columns[f].kind, row[f]) {
      assert f in s.columns;
    }
    assert AllPresent(s.keyFields, r);
    if |s.keyFields| == 1 { assert s.keyFields[0] in s.keyFields; }
    var kr := KeyRecord(s, key).value;
    KeyByFields(s, kr, row);
  }

  lemma {:induction false} KeyByFields(s: Schema, kr: Record, row: Row)
    requires SchemaOk(s) && RowOk(s, row)
    requires forall f | f in s.keyFields :: At(kr, f) == FromCell(row[f])
    ensures KeyOf(s, Serialized(s, kr)) == KeyOf(s, row)
    ensures forall c | c in KeyOf(s, row) :: Bindable(c)
  {
  }

  // ---------------------------------------------------------------- refinement of a finite map

  /** The value may stand in the column: anything, but not nothing, null or the empty text in a single key. */
  predicate Stands(s: Schema, f: string, v: Value) {
    v != Undefined && ([f] != s.keyFields || Present(v))
  }

  /** `n` is the record that creating `r` makes: each column has the value given for it; or if none is
      given the default, where there is one and defaults apply; or the generated id, in a single key for
      which neither stands; and no value in any other case. */
  predicate Filled(s: Schema, r: Record, id: string, n: Record) {
    && (forall f | f in n :: f in s.columns && n[f] != Undefined)
    && (forall f | f in s.columns && Stands(s, f, At(r, f)) :: At(n, f) == At(r, f))
    && (forall f | f in s.columns && !Stands(s, f, At(r, f)) ::
          At(n, f) == if DefaultStands(s, r, f) then s.columns[f].default
                      else if [f] == s.keyFields then Str(id)
                      else Undefined)
  }

  predicate DefaultStands(s: Schema, r: Record, f: string)
    requires f in s.columns
  {
    s.applyDefaults && At(r, f) == Undefined && Stands(s, f, s.columns[f].default)
  }

  /** The single key is left to be generated. */
  predicate KeyIsEmpty(s: Schema, r: Record) {
    exists f | f in s.columns :: [f] == s.keyFields && !Stands(s, f, At(r, f)) && !DefaultStands(s, r, f)
  }

  /** What creating `r` does to the map: it adds the record that is filled in from `r`, or changes nothing,
      and then the answer names something that forbids the record. */
  ghost predicate Inserted(s: Schema, before: Contents, stuck: bool, id: string, r: Record, after: Contents,
                           reply: Reply)
  {
    match reply
    case Found(n) =>
      && Filled(s, r, id, n)
      && InsertAllowed(s, before, n) && !(stuck && KeyIsEmpty(s, r))
      && after == before[KeyOf(s, Serialized(s, n)) := Serialized(s, n)]
    case Searching => after == before && stuck && KeyIsEmpty(s, r) && !s.readOnly
    case Failed(e) => after == before && InsertRefusedFor(s, before, id, r, e)
    case _ => false
  }

  ghost predicate InsertRefusedFor(s: Schema, before: Contents, id: string, r: Record, e: Error) {
    forall n | Filled(s, r, id, n) :: InsertForbids(s, before, n, e)
  }

  predicate InsertAllowed(s: Schema, before: Contents, n: Record) {
    && !s.readOnly && (|s.keyFields| > 1 ==> AllPresent(s.keyFields, n)) && s.valid(n)
    && RowBindable(Serialized(s, n)) && KeyOf(s, Serialized(s, n)) !in before
  }

  predicate InsertForbids(s: Schema, before: Contents, n: Record, e: Error) {
    match e
    case ReadOnly => s.readOnly
    case MissingKey => |s.keyFields| > 1 && !AllPresent(s.keyFields, n)
    case Invalid => !s.valid(n)
    case Unbindable => !RowBindable(Serialized(s, n))
    case Duplicate => KeyOf(s, Serialized(s, n)) in before
    case _ => false
  }

  /** `n` is the record `existing` with `patch` over it, the key as it was. */
  predicate Patched(s: Schema, existing: Record, patch: Record, n: Record) {
    && (forall f | f in n :: f in s.columns && n[f] != Undefined)
    && (forall f | f in s.columns && f in patch && f !in s.keyFields :: At(n, f) == patch[f])
    && (forall f | f in s.columns && (f !in patch || f in s.keyFields) :: At(n, f) == At(existing, f))
  }

  ghost predicate PatchRefusedFor(s: Schema, existing: Record, patch: Record, e: Error) {
    forall n | Patched(s, existing, patch, n) :: PatchForbids(s, n, e)
  }

  predicate PatchForbids(s: Schema, n: Record, e: Error) {
    match e
    case ReadOnly => s.readOnly
    case AppendOnly => s.appendOnly
    case Invalid => !s.valid(n)
    case NothingToSet => OnlyKeyFields(s)
    case Unbindable => !SetBindable(s, Serialized(s, n))
    case _ => false
  }

  /** The row after a patch: key columns as before, columns the patch names from the patch, and the
      others as they were read. */
  predicate PatchedRow(s: Schema, before: Row, patch: Record, after: Row) {
    && after.Keys == s.columns.Keys == before.Keys
    && forall f | f in s.columns ::
         after[f] == if f in s.keyFields || f !in patch then before[f] else ToCell(s.columns[f].kind, patch[f])
  }

  /** What one operation does to a map from keys to rows; `stuck` and `id` are what the search for an id
      comes to. */
  ghost predicate Allowed(s: Schema, before: Contents, stuck: bool, id: string, op: Op, after: Contents, reply: Reply)
    requires SchemaOk(s)
  {
    match op
    case Create(r) =>
      if s.appendOnly then after == before && reply == Failed(AppendOnly)
      else Inserted(s, before, stuck, id, r, after, reply)
    case Append(r) => Inserted(s, before, stuck, id, r, after, reply)
    case Patch(key, patch) => PatchAllowed(s, before, KeyCells(s, key), patch, after, reply)
    case Delete(key) =>
      var k := KeyCells(s, key);
      (match reply
       case Deleted(any) =>
         && !s.readOnly && !s.appendOnly
         && k.Ok? && after == before - {k.value} && (any <==> k.value in before)
       case Failed(e) =>
         after == before && ((e == ReadOnly && s.readOnly) || (e == AppendOnly && s.appendOnly) || k == Err(e))
       case _ => false)
    case Fetch(key) =>
      var k := KeyCells(s, key);
      after == before
      && match reply
         case Missing => k.Ok? && k.value !in before
         case Found(r) => k.Ok? && k.value in before && r == Deserialized(s, before[k.value])
         case Failed(e) => k == Err(e)
         case _ => false
  }

  ghost predicate PatchAllowed(s: Schema, before: Contents, k: Result<seq<Cell>>, patch: Record, after: Contents,
                               reply: Reply)
    requires SchemaOk(s)
  {
    match reply
    case Missing => k.Ok? && k.value !in before && after == before && !s.readOnly && !s.appendOnly
    case Found(n) =>
      && !s.readOnly && !s.appendOnly
      && k.Ok? && k.value in before && k.value in after
      && after == before[k.value := after[k.value]]
      && PatchedRow(s, before[k.value], patch, after[k.value])
      && Patched(s, Deserialized(s, before[k.value]), patch, n)
      && s.valid(n) && !OnlyKeyFields(s) && SetBindable(s, Serialized(s, n))
    case Failed(e) =>
      && after == before
      && (|| (e == ReadOnly && s.readOnly) || (e == AppendOnly && s.appendOnly) || k == Err(e)
          || (&& k.Ok? && k.value in before
              && PatchRefusedFor(s, Deserialized(s, before[k.value]), patch, e)))
    case _ => false
  }

  lemma DistinctAppend(s: Schema, t: Table, row: Row)
    requires TableOk(s, t) && RowOk(s, row) && KeyOf(s, row) !in ContentsOf(s, t)
    ensures TableOk(s, t + [row])
  {
    var u := t + [row];
    forall i, j | 0 <= i < j < |u| ensures KeyOf(s, u[i]) != KeyOf(s, u[j]) {
      EachRowIsStored(s, t, i);
    }
  }

  lemma {:induction false} DistinctWithout(s: Schema, t: Table, k: seq<Cell>)
    requires TableOk(s, t)
    ensures TableOk(s, Without(s, t, k))
  {
    if t != [] {
      TailOk(s, t);
      DistinctWithout(s, t[1..], k);
      var rest := Without(s, t[1..], k);
      if KeyOf(s, t[0]) == k {
        assert [] + rest == rest;
      } else {
        forall row | row in rest ensures KeyOf(s, row) != KeyOf(s, t[0]) {
          var j :| 0 <= j < |t[1..]| && t[1..][j] == row;
          assert t[j + 1] == row;
        }
        DistinctCons(s, t[0], rest);
      }
    }
  }

  lemma DistinctCons(s: Schema, row: Row, rest: Table)
    requires TableOk(s, rest) && RowOk(s, row) && forall r | r in rest :: KeyOf(s, r) != KeyOf(s, row)
    ensures TableOk(s, [row] + rest)
  {
    var u := [row] + rest;
    forall i, j | 0 <= i < j < |u| ensures KeyOf(s, u[i]) != KeyOf(s, u[j]) {
      assert u[j] == rest[j - 1] && rest[j - 1] in rest;
      if i > 0 { assert u[i] == rest[i - 1]; }
    }
  }

  lemma TailOk(s: Schema, t: Table)
    requires TableOk(s, t) && t != []
    ensures TableOk(s, t[1..])
  {
    forall row | row in t[1..] ensures RowOk(s, row) { assert row in t; }
  }

  lemma {:induction false} DistinctUpdated(s: Schema, t: Table, k: seq<Cell>, row: Row)
    requires TableOk(s, t) && row.Keys == s.columns.Keys
    requires forall f | f in s.columns && f !in s.keyFields :: Fits(s.columns[f].kind, row[f])
    ensures TableOk(s, Updated(s, t, k, row))
  {
    var u := Updated(s, t, k, row);
    forall i | 0 <= i < |t| ensures RowOk(s, u[i]) && KeyOf(s, u[i]) == KeyOf(s, t[i]) {
      assert t[i] in t && RowOk(s, t[i]);
      AssignedKeepsKey(s, t[i], row);
      if KeyOf(s, t[i]) == k { AssignedOk(s, t[i], row); }
    }
    forall i, j | 0 <= i < j < |u| ensures KeyOf(s, u[i]) != KeyOf(s, u[j]) {
      assert KeyOf(s, t[i]) != KeyOf(s, t[j]);
    }
  }

  lemma {:induction false} AssignedOk(s: Schema, before: Row, row: Row)
    requires SchemaOk(s) && RowOk(s, before) && row.Keys == s.columns.Keys
    requires forall f | f in s.columns && f !in s.keyFields :: Fits(s.columns[f].kind, row[f])
    ensures RowOk(s, Assigned(s, before, row))
  {
  }

  /** Whether a column is the single key. */
  lemma SingleKey(s: Schema, f: string)
    requires SchemaOk(s)
    ensures [f] == s.keyFields <==> |s.keyFields| == 1 && s.keyFields[0] == f
  {
    if |s.keyFields| == 1 && s.keyFields[0] == f { assert [f] == s.keyFields; }
    assert [f][0] == f && |[f]| == 1;
  }

  lemma PreparedAt(s: Schema, given: Record, f: string)
    requires f in s.columns
    ensures At(Prepared(s, given), f)
         == if At(given, f) != Undefined then At(given, f)
            else if s.applyDefaults then s.columns[f].default else Undefined
    ensures f in Prepared(s, given) ==> Prepared(s, given)[f] != Undefined
  {
  }

  lemma FilledAt(x: Texts, s: Schema, t: Table, given: Record, f: string)
    requires SchemaOk(s) && f in s.columns
    ensures var n, id := WithId(x, s, t, Prepared(s, given)), x.ofNumber(FirstGuess(x, Ids(x, s, t)));
            && (f in n ==> n[f] != Undefined)
            && At(n, f) == if Stands(s, f, At(given, f)) then At(given, f)
                           else if DefaultStands(s, given, f) then s.columns[f].default
                           else if [f] == s.keyFields then Str(id)
                           else Undefined
  {
    SingleKey(s, f);
    PreparedAt(s, given, f);
  }

  /** The record is filled in as it should be, and in one way only. */
  lemma PreparedIsFilled(x: Texts, s: Schema, t: Table, given: Record)
    requires SchemaOk(s)
    ensures Filled(s, given, x.ofNumber(FirstGuess(x, Ids(x, s, t))), WithId(x, s, t, Prepared(s, given)))
    ensures NeedsId(s, Prepared(s, given)) <==> KeyIsEmpty(s, given)
  {
    forall f | f in s.columns
      ensures var n, id := WithId(x, s, t, Prepared(s, given)), x.ofNumber(FirstGuess(x, Ids(x, s, t)));
              && (f in n ==> n[f] != Undefined)
              && At(n, f) == if Stands(s, f, At(given, f)) then At(given, f)
                             else if DefaultStands(s, given, f) then s.columns[f].default
                             else if [f] == s.keyFields then Str(id)
                             else Undefined
    {
      FilledAt(x, s, t, given, f);
    }
    forall f | f in s.columns ensures [f] == s.keyFields <==> |s.keyFields| == 1 && s.keyFields[0] == f {
      SingleKey(s, f);
    }
    if |s.keyFields| == 1 { PreparedAt(s, given, s.keyFields[0]); }
  }

  lemma FilledIsUnique(s: Schema, r: Record, id: string, n: Record, m: Record)
    requires Filled(s, r, id, n) && Filled(s, r, id, m)
    ensures n == m
  {
    forall f ensures f in n <==> f in m {
      if f in s.columns { assert At(n, f) == At(m, f); }
    }
    forall f | f in n ensures n[f] == m[f] { assert At(n, f) == At(m, f); }
  }

  /** An insert that is refused. */
  lemma InsertRefused(x: Texts, s: Schema, t: Table, given: Record)
    requires SchemaOk(s) && Insert(x, s, t, given).1.Failed?
    ensures var e, id := Insert(x, s, t, given).1.error, x.ofNumber(FirstGuess(x, Ids(x, s, t)));
            InsertRefusedFor(s, ContentsOf(s, t), id, given, e)
  {
    var id := x.ofNumber(FirstGuess(x, Ids(x, s, t)));
    var next := WithId(x, s, t, Prepared(s, given));
    PreparedIsFilled(x, s, t, given);
    SelectIsLookup(s, t, KeyOf(s, Serialized(s, next)));
    OnlyFilled(s, ContentsOf(s, t), id, given, next, Insert(x, s, t, given).1.error);
  }

  lemma OnlyFilled(s: Schema, before: Contents, id: string, r: Record, next: Record, e: Error)
    requires Filled(s, r, id, next) && InsertForbids(s, before, next, e)
    ensures InsertRefusedFor(s, before, id, r, e)
  {
    forall n | Filled(s, r, id, n) ensures n == next { FilledIsUnique(s, r, id, n, next); }
  }

  lemma InsertSucceeds(x: Texts, s: Schema, t: Table, given: Record)
    requires TableOk(s, t) && Laws(x) && |t| < Limit && Insert(x, s, t, given).1.Found?
    ensures var next := WithId(x, s, t, Prepared(s, given));
            var row := Serialized(s, next);
            && Insert(x, s, t, given) == (t + [row], Found(next))
            && InsertAllowed(s, ContentsOf(s, t), next)
            && !(Stuck(x, Ids(x, s, t)) && KeyIsEmpty(s, given))
            && TableOk(s, t + [row])
            && ContentsOf(s, t + [row]) == ContentsOf(s, t)[KeyOf(s, row) := row]
  {
    IdIsPresent(x, s, t, Prepared(s, given));
    PreparedIsFilled(x, s, t, given);
    RowIsAdded(s, t, WithId(x, s, t, Prepared(s, given)));
  }

  lemma RowIsAdded(s: Schema, t: Table, next: Record)
    requires TableOk(s, t) && RowBindable(Serialized(s, next)) && AllPresent(s.keyFields, next)
    requires Select(s, t, KeyOf(s, Serialized(s, next))).None?
    ensures var row := Serialized(s, next);
            && TableOk(s, t + [row]) && KeyOf(s, row) !in ContentsOf(s, t)
            && ContentsOf(s, t + [row]) == ContentsOf(s, t)[KeyOf(s, row) := row]
  {
    var row := Serialized(s, next);
    SelectIsLookup(s, t, KeyOf(s, row));
    SerializedRowOk(s, next);
    AppendAdds(s, t, row);
    DistinctAppend(s, t, row);
  }

  lemma InsertRefines(x: Texts, s: Schema, t: Table, given: Record)
    requires TableOk(s, t) && Laws(x) && |t| < Limit
    ensures var (after, reply) := Insert(x, s, t, given);
            var ids := Ids(x, s, t);
            && TableOk(s, after)
            && Inserted(s, ContentsOf(s, t), Stuck(x, ids), x.ofNumber(FirstGuess(x, ids)), given,
                        ContentsOf(s, after), reply)
  {
    var reply := Insert(x, s, t, given).1;
    PreparedIsFilled(x, s, t, given);
    if reply.Found? {
      InsertSucceeds(x, s, t, given);
    } else if reply.Failed? {
      InsertRefused(x, s, t, given);
    }
  }

  lemma IdIsPresent(x: Texts, s: Schema, t: Table, r: Record)
    requires SchemaOk(s) && Laws(x) && |t| < Limit
    ensures |s.keyFields| == 1 ==> AllPresent(s.keyFields, WithId(x, s, t, r))
  {
    SearchEnds(x, Ids(x, s, t));
    var id := x.ofNumber(FirstGuess(x, Ids(x, s, t)));
    assert x.numberOf(id) > 0;
  }

  lemma RowIsChanged(s: Schema, t: Table, k: seq<Cell>, patch: Record)
    requires TableOk(s, t) && k in ContentsOf(s, t)
    requires SetBindable(s, Serialized(s, Merged(s, Deserialized(s, ContentsOf(s, t)[k]), patch)))
    ensures var before := ContentsOf(s, t)[k];
            var u := Updated(s, t, k, Serialized(s, Merged(s, Deserialized(s, before), patch)));
            var after := ContentsOf(s, u);
            && TableOk(s, u)
            && k in after && after == ContentsOf(s, t)[k := after[k]] && PatchedRow(s, before, patch, after[k])
  {
    SelectIsLookup(s, t, k);
    var before := ContentsOf(s, t)[k];
    assert RowOk(s, before);
    var row := Serialized(s, Merged(s, Deserialized(s, before), patch));
    forall f | f in s.columns && f !in s.keyFields ensures Fits(s.columns[f].kind, row[f]) {
      assert Bindable(row[f]);
    }
    UpdatedChangesOne(s, t, k, row);
    DistinctUpdated(s, t, k, row);
    MergedRow(s, before, patch);
  }

  lemma PatchRefused(s: Schema, t: Table, before: Row, patch: Record)
    requires SchemaOk(s) && RowOk(s, before)
    ensures var (u, reply) := PatchRow(s, t, before, patch);
            && (reply.Found? || reply.Failed?)
            && (reply.Failed? ==> u == t && PatchRefusedFor(s, Deserialized(s, before), patch, reply.error))
  {
    KeyOfStored(s, before);
    var reply := PatchRow(s, t, before, patch).1;
    if reply.Failed? { OnlyMerged(s, Deserialized(s, before), patch, reply.error); }
  }

  lemma OnlyMerged(s: Schema, existing: Record, patch: Record, e: Error)
    requires PatchForbids(s, Merged(s, existing, patch), e)
    ensures PatchRefusedFor(s, existing, patch, e)
  {
    forall n | Patched(s, existing, patch, n) ensures n == Merged(s, existing, patch) {
      MergedIsPatched(s, existing, patch);
      PatchedIsUnique(s, existing, patch, n, Merged(s, existing, patch));
    }
  }

  lemma PatchSucceeds(s: Schema, t: Table, before: Row, patch: Record)
    requires SchemaOk(s) && RowOk(s, before) && PatchRow(s, t, before, patch).1.Found?
    ensures var next := Merged(s, Deserialized(s, before), patch);
            && PatchRow(s, t, before, patch) == (Updated(s, t, KeyOf(s, before), Serialized(s, next)), Found(next))
            && s.valid(next) && !OnlyKeyFields(s) && SetBindable(s, Serialized(s, next))
  {
    KeyOfStored(s, before);
  }

  lemma PatchRefines(s: Schema, t: Table, k: seq<Cell>, patch: Record)
    requires TableOk(s, t) && k in ContentsOf(s, t) && !s.readOnly && !s.appendOnly
    ensures var (u, reply) := PatchRow(s, t, ContentsOf(s, t)[k], patch);
            TableOk(s, u) && PatchAllowed(s, ContentsOf(s, t), Ok(k), patch, ContentsOf(s, u), reply)
  {
    var before := ContentsOf(s, t)[k];
    SelectIsLookup(s, t, k);
    assert RowOk(s, before);
    PatchRefused(s, t, before, patch);
    if PatchRow(s, t, before, patch).1.Found? {
      PatchSucceeds(s, t, before, patch);
      RowIsChanged(s, t, k, patch);
      MergedIsPatched(s, Deserialized(s, before), patch);
    }
  }

  lemma MergedIsPatched(s: Schema, existing: Record, patch: Record)
    ensures Patched(s, existing, patch, Merged(s, existing, patch))
  {
  }

  lemma PatchedIsUnique(s: Schema, existing: Record, patch: Record, n: Record, m: Record)
    requires Patched(s, existing, patch, n) && Patched(s, existing, patch, m)
    ensures n == m
  {
    forall f ensures f in n <==> f in m {
      if f in s.columns { assert At(n, f) == At(m, f); }
    }
    forall f | f in n ensures n[f] == m[f] { assert At(n, f) == At(m, f); }
  }

  lemma MergedRow(s: Schema, before: Row, patch: Record)
    requires SchemaOk(s) && RowOk(s, before)
    ensures PatchedRow(s, before, patch, Assigned(s, before, Serialized(s, Merged(s, Deserialized(s, before), patch))))
  {
    var existing := Deserialized(s, before);
    var row := Serialized(s, Merged(s, existing, patch));
    forall f | f in s.columns && f !in s.keyFields
      ensures row[f] == if f !in patch then before[f] else ToCell(s.columns[f].kind, patch[f])
    {
      CellReturns(s.columns[f].kind, before[f]);
    }
  }

  /** Every operation keeps the table sound and does to its keys and rows what a finite map would. */
  lemma StepRefinesMap(x: Texts, s: Schema, t: Table, op: Op)
    requires TableOk(s, t) && Laws(x) && |t| < Limit
    ensures var (u, reply) := Step(x, s, t, op);
            var ids := Ids(x, s, t);
            && TableOk(s, u)
            && Allowed(s, ContentsOf(s, t), Stuck(x, ids), x.ofNumber(FirstGuess(x, ids)), op, ContentsOf(s, u), reply)
  {
    match op
    case Create(r) => InsertRefines(x, s, t, r);
    case Append(r) => InsertRefines(x, s, t, r);
    case Patch(key, r) =>
      var k := KeyCells(s, key);
      if k.Ok? {
        SelectIsLookup(s, t, k.value);
        if k.value in ContentsOf(s, t) && !s.readOnly && !s.appendOnly { PatchRefines(s, t, k.value, r); }
      }
    case Delete(key) =>
      var k := KeyCells(s, key);
      if k.Ok? {
        WithoutRemoves(s, t, k.value);
        DistinctWithout(s, t, k.value);
      }
    case Fetch(key) =>
      var k := KeyCells(s, key);
      if k.Ok? { SelectIsLookup(s, t, k.value); }
  }

  // ---------------------------------------------------------------- keys name rows

  /** The key a caller gives names the row: by the values of all key fields, or, when there is one key field
      and the caller does not give it by name, as a whole. */
  predicate NamesRow(s: Schema, key: Key, row: Row) {
    if key.ByFields? && forall f | f in s.keyFields :: At(key.fields, f) != Undefined then
      forall f | f in s.keyFields :: At(key.fields, f) == FromCell(CellAt(row, f))
    else
      |s.keyFields| == 1 && key.whole == FromCell(CellAt(row, s.keyFields[0]))
  }

  lemma NamedRowHasKey(s: Schema, key: Key, row: Row)
    requires SchemaOk(s) && RowOk(s, row) && NamesRow(s, key, row)
    ensures KeyCells(s, key) == Ok(KeyOf(s, row))
  {
    forall f | f in s.keyFields ensures f in row && Present(FromCell(row[f])) && Fits(s.columns[f].kind, row[f]) {
      assert f in s.columns;
    }
    assert s.keyFields[0] in s.keyFields;
    var kr := KeyRecord(s, key).value;
    KeyByFields(s, kr, row);
  }

  /** In every sound table a key finds the row it names. */
  lemma NamedRowIsFound(s: Schema, t: Table, key: Key, row: Row)
    requires TableOk(s, t) && row in t && NamesRow(s, key, row)
    ensures FetchReply(s, t, key) == Found(Deserialized(s, row))
  {
    NamedRowHasKey(s, key, row);
    var i :| 0 <= i < |t| && t[i] == row;
    EachRowIsStored(s, t, i);
    SelectIsLookup(s, t, KeyOf(s, row));
    var found := ContentsOf(s, t)[KeyOf(s, row)];
    var j :| 0 <= j < |t| && t[j] == found;
    assert KeyOf(s, t[i]) == KeyOf(s, t[j]);
  }

  // ---------------------------------------------------------------- the writing statement

  /** What a pending write needs to keep the table sound. */
  ghost predicate PendingOk(s: Schema, p: Pending) {
    match p
    case Insertion(next) => RowOk(s, Serialized(s, next))
    case Change(_, next) => FitsOutsideKey(s, Serialized(s, next))
    case Removal(_) => true
  }

  predicate FitsOutsideKey(s: Schema, row: Row) {
    forall f | f in s.columns && f !in s.keyFields :: f in row && Fits(s.columns[f].kind, row[f])
  }

  lemma InsertionIsOk(x: Texts, s: Schema, t: Table, given: Record)
    requires SchemaOk(s) && Laws(x) && |t| < Limit && StartInsert(x, s, t, given).Pends?
    ensures PendingOk(s, StartInsert(x, s, t, given).pending)
  {
    IdIsPresent(x, s, t, Prepared(s, given));
    SerializedRowOk(s, WithId(x, s, t, Prepared(s, given)));
  }

  lemma BindableFits(s: Schema, r: Record)
    requires SetBindable(s, Serialized(s, r))
    ensures FitsOutsideKey(s, Serialized(s, r))
  {
    var row := Serialized(s, r);
    forall f | f in s.columns && f !in s.keyFields ensures Fits(s.columns[f].kind, row[f]) { assert Bindable(row[f]); }
  }

  lemma StartIsOk(x: Texts, s: Schema, t: Table, op: Op)
    requires SchemaOk(s) && Laws(x) && |t| < Limit && StartOp(x, s, t, op).Pends?
    ensures PendingOk(s, StartOp(x, s, t, op).pending)
  {
    match op
    case Create(r) => InsertionIsOk(x, s, t, r);
    case Append(r) => InsertionIsOk(x, s, t, r);
    case Patch(key, r) => ChangeIsOk(s, Select(s, t, KeyCells(s, key).value).value, r);
    case _ =>
  }

  lemma ChangeIsOk(s: Schema, before: Row, patch: Record)
    requires SchemaOk(s) && StartPatch(s, before, patch).Pends?
    ensures PendingOk(s, StartPatch(s, before, patch).pending)
  {
    BindableFits(s, Merged(s, Deserialized(s, before), patch));
  }

  /** An insert takes a free key and fails on one in use; an update changes the row of its key, and says
      so even when there is none; a delete removes its key. */
  predicate Wrote(s: Schema, before: Contents, p: Pending, after: Contents, reply: Reply) {
    match p
    case Insertion(next) =>
      var k := KeyOf(s, Serialized(s, next));
      if k in before then after == before && reply == Failed(Duplicate)
      else after == before[k := Serialized(s, next)] && reply == Found(next)
    case Change(k, next) =>
      && reply == Found(next)
      && after == if k in before then before[k := Assigned(s, before[k], Serialized(s, next))] else before
    case Removal(k) => after == before - {k} && reply == Deleted(k in before)
  }

  /** The writing statement keeps the table sound, whatever happened to it since the operation began,
      and does to the map of keys and rows what it says. */
  lemma FinishRefines(s: Schema, t: Table, p: Pending)
    requires TableOk(s, t) && PendingOk(s, p)
    ensures TableOk(s, FinishOp(s, t, p).0) && |FinishOp(s, t, p).0| <= |t| + 1
    ensures Wrote(s, ContentsOf(s, t), p, ContentsOf(s, FinishOp(s, t, p).0), FinishOp(s, t, p).1)
  {
    match p
    case Insertion(next) =>
      var row := Serialized(s, next);
      SelectIsLookup(s, t, KeyOf(s, row));
      if KeyOf(s, row) !in ContentsOf(s, t) {
        AppendAdds(s, t, row);
        DistinctAppend(s, t, row);
      }
    case Change(k, next) =>
      DistinctUpdated(s, t, k, Serialized(s, next));
      if k in ContentsOf(s, t) {
        UpdatedChangesOne(s, t, k, Serialized(s, next));
      } else {
        UpdatedNowhere(s, t, k, Serialized(s, next));
      }
    case Removal(k) =>
      WithoutRemoves(s, t, k);
      DistinctWithout(s, t, k);
  }

  // ---------------------------------------------------------------- whole runs

  /** Over any run an append-only table only grows: rows stay, unchanged and in place. */
  lemma {:induction false} AppendOnlyGrows(x: Texts, s: Schema, t: Table, ops: seq<Op>)
    requires SchemaOk(s) && s.appendOnly
    ensures t <= Run(x, s, t, ops)
    decreases |ops|
  {
    if ops != [] {
      var u := Step(x, s, t, ops[0]).0;
      assert t <= u;
      AppendOnlyGrows(x, s, u, ops[1..]);
    }
  }

  /** A run on a read-only table changes nothing. */
  lemma {:induction false} ReadOnlyStays(x: Texts, s: Schema, t: Table, ops: seq<Op>)
    requires SchemaOk(s) && s.readOnly
    decreases |ops|
    ensures Run(x, s, t, ops) == t
  {
    if ops != [] { ReadOnlyStays(x, s, t, ops[1..]); }
  }

  ghost predicate Touches(s: Schema, op: Op, k: seq<Cell>)
    requires SchemaOk(s)
  {
    (op.Patch? || op.Delete?) && KeyCells(s, op.key) == Ok(k)
  }

  /** Over any run that neither patches nor deletes a stored key, its row stays as it is. */
  lemma {:induction false} UntouchedStays(x: Texts, s: Schema, t: Table, ops: seq<Op>, k: seq<Cell>)
    requires TableOk(s, t) && Laws(x) && |t| + |ops| < Limit
    requires k in ContentsOf(s, t) && forall op | op in ops :: !Touches(s, op, k)
    ensures TableOk(s, Run(x, s, t, ops))
    ensures k in ContentsOf(s, Run(x, s, t, ops)) && ContentsOf(s, Run(x, s, t, ops))[k] == ContentsOf(s, t)[k]
    decreases |ops|
  {
    if ops != [] {
      var u := Step(x, s, t, ops[0]).0;
      StepRefinesMap(x, s, t, ops[0]);
      StepSize(x, s, t, ops[0]);
      assert !Touches(s, ops[0], k);
      assert forall op | op in ops[1..] :: op in ops;
      UntouchedStays(x, s, u, ops[1..], k);
    }
  }

  lemma InsertSize(x: Texts, s: Schema, t: Table, given: Record)
    requires SchemaOk(s)
    ensures |t| <= |Insert(x, s, t, given).0| <= |t| + 1
  {
  }

  lemma StepSize(x: Texts, s: Schema, t: Table, op: Op)
    requires SchemaOk(s)
    ensures |Step(x, s, t, op).0| <= |t| + 1
  {
    match op
    case Create(r) => InsertSize(x, s, t, r);
    case Append(r) => InsertSize(x, s, t, r);
    case Delete(key) =>
      var k := KeyCells(s, key);
      if k.Ok? { WithoutRemoves(s, t, k.value); }
    case _ =>
  }

  // ---------------------------------------------------------------- one operation and the next

  /** A record just created is read back under its own key, as it was given exactly when each of its
      values survives. */
  lemma CreatedIsRead(x: Texts, s: Schema, t: Table, given: Record, whole: Value)
    requires TableOk(s, t) && Laws(x) && |t| < Limit && Insert(x, s, t, given).1.Found?
    ensures var n := Insert(x, s, t, given).1.r;
            var back := FetchReply(s, Insert(x, s, t, given).0, ByFields(n, whole));
            back.Found? && (back.r == n <==> Survives(s, n))
  {
    var n := Insert(x, s, t, given).1.r;
    CreatedRow(x, s, t, given);
    OwnKey(s, n, whole);
    RecordReturns(s, n);
    StoredIsRead(s, Insert(x, s, t, given).0, ByFields(n, whole));
  }

  /** Deleting the record just created gives the table before. */
  lemma DeleteUndoesCreate(x: Texts, s: Schema, t: Table, given: Record, whole: Value)
    requires TableOk(s, t) && Laws(x) && |t| < Limit && Insert(x, s, t, given).1.Found? && !s.appendOnly
    ensures Step(x, s, Insert(x, s, t, given).0, Delete(ByFields(Insert(x, s, t, given).1.r, whole)))
        == (t, Deleted(true))
  {
    var n := Insert(x, s, t, given).1.r;
    CreatedRow(x, s, t, given);
    OwnKey(s, n, whole);
    WithoutLast(s, t, Serialized(s, n));
  }

  lemma CreatedRow(x: Texts, s: Schema, t: Table, given: Record)
    requires TableOk(s, t) && Laws(x) && |t| < Limit && Insert(x, s, t, given).1.Found?
    ensures var (u, reply) := Insert(x, s, t, given);
            var row := Serialized(s, reply.r);
            && u == t + [row] && TableOk(s, u) && RowOk(s, row) && AllPresent(s.keyFields, reply.r)
            && Known(s, reply.r) == reply.r && !s.readOnly
            && KeyOf(s, row) !in ContentsOf(s, t)
            && KeyOf(s, row) in ContentsOf(s, u) && ContentsOf(s, u)[KeyOf(s, row)] == row
  {
    InsertSucceeds(x, s, t, given);
    IdIsPresent(x, s, t, Prepared(s, given));
    KnownAlready(x, s, t, given);
    SerializedRowOk(s, Insert(x, s, t, given).1.r);
  }

  lemma KnownAlready(x: Texts, s: Schema, t: Table, given: Record)
    requires SchemaOk(s)
    ensures var n := WithId(x, s, t, Prepared(s, given)); Known(s, n) == n
  {
  }

  lemma OwnKey(s: Schema, n: Record, whole: Value)
    requires SchemaOk(s) && RowOk(s, Serialized(s, n)) && AllPresent(s.keyFields, n)
    ensures KeyCells(s, ByFields(n, whole)) == Ok(KeyOf(s, Serialized(s, n)))
  {
    var row := Serialized(s, n);
    if |s.keyFields| == 1 { assert s.keyFields[0] in s.keyFields; }
    var kr := KeyRecord(s, ByFields(n, whole)).value;
    forall i | 0 <= i < |s.keyFields|
      ensures CellAt(Serialized(s, kr), s.keyFields[i]) == CellAt(row, s.keyFields[i])
          && Bindable(CellAt(row, s.keyFields[i]))
    {
      var f := s.keyFields[i];
      assert f in s.keyFields && f in s.columns && At(kr, f) == At(n, f);
      CellReturns(s.columns[f].kind, row[f]);
    }
    assert KeyOf(s, Serialized(s, kr)) == KeyOf(s, row);
  }

  lemma {:induction false} WithoutLast(s: Schema, t: Table, row: Row)
    requires KeyOf(s, row) !in ContentsOf(s, t)
    ensures Without(s, t + [row], KeyOf(s, row)) == t
  {
    if t == [] {
      assert t + [row] == [row] && [row][1..] == [];
    } else {
      assert (t + [row])[1..] == t[1..] + [row];
      WithoutLast(s, t[1..], row);
    }
  }

  /** A successful patch is read back under the same key; its reply is what is read exactly when each
      of its values survives. */
  lemma PatchedIsRead(x: Texts, s: Schema, t: Table, key: Key, patch: Record)
    requires TableOk(s, t) && Laws(x) && |t| < Limit && Step(x, s, t, Patch(key, patch)).1.Found?
    ensures var n := Step(x, s, t, Patch(key, patch)).1.r;
            var back := FetchReply(s, Step(x, s, t, Patch(key, patch)).0, key);
            back.Found? && (back.r == n <==> Survives(s, n))
  {
    PatchedContents(x, s, t, key, patch);
    RecordReturns(s, Step(x, s, t, Patch(key, patch)).1.r);
    StoredIsRead(s, Step(x, s, t, Patch(key, patch)).0, key);
  }

  lemma PatchedContents(x: Texts, s: Schema, t: Table, key: Key, patch: Record)
    requires TableOk(s, t) && Laws(x) && |t| < Limit && Step(x, s, t, Patch(key, patch)).1.Found?
    ensures var u := Step(x, s, t, Patch(key, patch)).0;
            var n := Step(x, s, t, Patch(key, patch)).1.r;
            var k := KeyCells(s, key);
            && TableOk(s, u) && Known(s, n) == n
            && k.Ok? && k.value in ContentsOf(s, u) && ContentsOf(s, u)[k.value] == Serialized(s, n)
  {
    var k := KeyCells(s, key).value;
    SelectIsLookup(s, t, k);
    var before := ContentsOf(s, t)[k];
    assert RowOk(s, before);
    PatchSucceeds(s, t, before, patch);
    RowIsChanged(s, t, k, patch);
    var next := Merged(s, Deserialized(s, before), patch);
    PatchedIsSerialized(s, before, patch, ContentsOf(s, Updated(s, t, k, Serialized(s, next)))[k]);
    MergedKnown(s, Deserialized(s, before), patch);
  }

  lemma MergedKnown(s: Schema, before: Record, patch: Record)
    ensures Known(s, Merged(s, before, patch)) == Merged(s, before, patch)
  {
  }

  lemma StoredIsRead(s: Schema, t: Table, key: Key)
    requires SchemaOk(s)
    ensures var k := KeyCells(s, key);
            k.Ok? && k.value in ContentsOf(s, t) ==>
              FetchReply(s, t, key) == Found(Deserialized(s, ContentsOf(s, t)[k.value]))
  {
    var k := KeyCells(s, key);
    if k.Ok? { SelectIsLookup(s, t, k.value); }
  }

  lemma PatchedIsSerialized(s: Schema, before: Row, patch: Record, after: Row)
    requires SchemaOk(s) && RowOk(s, before) && PatchedRow(s, before, patch, after)
    ensures after == Serialized(s, Merged(s, Deserialized(s, before), patch))
  {
    var row := Serialized(s, Merged(s, Deserialized(s, before), patch));
    forall f | f in s.columns ensures row[f] == after[f] { CellReturns(s.columns[f].kind, before[f]); }
  }

  // ---------------------------------------------------------------- generated ids are free

  lemma {:induction false} IdsHold(x: Texts, s: Schema, t: Table, i: nat)
    requires SchemaOk(s) && i < |t|
    ensures var text := CellText(x, KeyOf(s, t[i])[0]); text != "" ==> text in Ids(x, s, t)
  {
    if i > 0 { IdsHold(x, s, t[1..], i - 1); }
  }

  /** With a scalar key column a generated id is never a duplicate. */
  lemma GeneratedIdIsFree(x: Texts, s: Schema, t: Table, given: Record)
    requires TableOk(s, t) && Laws(x) && |t| < Limit
    requires NeedsId(s, Prepared(s, given)) && s.columns[s.keyFields[0]].kind == Scalar
    ensures Insert(x, s, t, given).1 != Failed(Duplicate)
  {
    var ids := Ids(x, s, t);
    var r := WithId(x, s, t, Prepared(s, given));
    var row := Serialized(s, r);
    SearchEnds(x, ids);
    var id := x.ofNumber(FirstGuess(x, ids));
    assert s.keyFields[0] in s.keyFields && KeyOf(s, row)[0] == Plain(Str(id)) && id != "";
    SelectIsLookup(s, t, KeyOf(s, row));
    if !Stuck(x, ids) && KeyOf(s, row) in ContentsOf(s, t) {
      var stored := ContentsOf(s, t)[KeyOf(s, row)];
      var i :| 0 <= i < |t| && t[i] == stored;
      IdsHold(x, s, t, i);
      assert false;
    }
  }

  /** The key of a record that got its id generated, by the kind of the key column. */
  function GeneratedKey(kind: Kind, id: string): seq<Cell> {
    [match kind case Scalar => Plain(Str(id)) case Boolean => Flag(true) case Structured => JsonText(Str(id))]
  }

  /** Whether a generated id is a duplicate, for every table: with a scalar key never, with a boolean
      key exactly when some row is keyed true, with a structured key exactly when the candidate, as a
      JSON string, is a stored key. */
  lemma GeneratedDuplicateExactly(x: Texts, s: Schema, t: Table, given: Record)
    requires TableOk(s, t) && Laws(x) && |t| < Limit
    requires NeedsId(s, Prepared(s, given)) && StartInsert(x, s, t, given).Pends?
    ensures var kind := s.columns[s.keyFields[0]].kind;
            var k := GeneratedKey(kind, x.ofNumber(FirstGuess(x, Ids(x, s, t))));
            && KeyOf(s, Serialized(s, WithId(x, s, t, Prepared(s, given)))) == k
            && (Insert(x, s, t, given).1 == Failed(Duplicate) <==> k in ContentsOf(s, t))
            && (kind == Scalar ==> k !in ContentsOf(s, t))
  {
    var ids := Ids(x, s, t);
    var r := WithId(x, s, t, Prepared(s, given));
    SearchEnds(x, ids);
    var id := x.ofNumber(FirstGuess(x, ids));
    assert s.keyFields[0] in s.keyFields && id != "" && At(r, s.keyFields[0]) == Str(id);
    assert KeyOf(s, Serialized(s, r)) == GeneratedKey(s.columns[s.keyFields[0]].kind, id);
    SelectIsLookup(s, t, KeyOf(s, Serialized(s, r)));
    if s.columns[s.keyFields[0]].kind == Scalar { GeneratedIdIsFree(x, s, t, given); }
  }

  function OneKey(kind: Kind): Schema {
    Schema(["id"], map["id" := Column(kind, Undefined)], ["id"], false, false, true, r => true)
  }

  /** With a key column of JSON text the ids compared carry their quotes, so the search sees none of
      them: one row called 2 is enough for a generated duplicate. */
  lemma {:induction false} StructuredIdCollides(x: Texts)
    requires Laws(x) && x.ofNumber(2) == "2"
    requires forall t: string :: x.ofJson(Str(t)) == "\"" + t + "\"" && x.numberOf("\"" + t + "\"") == 0
    ensures var s, t := OneKey(Structured), [map["id" := JsonText(Str("2"))]];
            TableOk(s, t) && Insert(x, s, t, map[]).1 == Failed(Duplicate)
  {
    var s, t := OneKey(Structured), [map["id" := JsonText(Str("2"))]];
    var ids := Ids(x, s, t);
    assert KeyOf(s, t[0]) == [JsonText(Str("2"))];
    assert Ids(x, s, t[1..]) == [] && ids == [x.ofJson(Str("2"))];
    var quoted := "\"" + "2" + "\"";
    assert ids == [quoted] && x.numberOf(quoted) == 0;
    assert ids[1..] == [] && Numeric(x, ids) == [] + Numeric(x, []);
    assert FirstGuess(x, ids) == 2;
    assert Prepared(s, map[]) == map[];
    assert WithId(x, s, t, map[]) == map["id" := Str("2")];
    assert Serialized(s, map["id" := Str("2")]) == t[0];
  }

  /** A boolean key column takes every id for `true`. */
  lemma BooleanIdCollides(x: Texts)
    requires Laws(x) && x.numberOf("1") == 1 && x.ofNumber(2) == "2"
    ensures var s, t := OneKey(Boolean), [map["id" := Flag(true)]];
            TableOk(s, t) && Insert(x, s, t, map[]).1 == Failed(Duplicate)
  {
    var s, t := OneKey(Boolean), [map["id" := Flag(true)]];
    var ids := Ids(x, s, t);
    assert KeyOf(s, t[0]) == [Flag(true)];
    assert Ids(x, s, t[1..]) == [] && ids == ["1"];
    assert ids[1..] == [] && Numeric(x, ids) == [1] + Numeric(x, []);
    assert [1][1..] == [] && Max([1]) == 1 && FirstGuess(x, ids) == 2;
    assert Prepared(s, map[]) == map[];
    assert WithId(x, s, t, map[]) == map["id" := Str("2")];
    assert Serialized(s, map["id" := Str("2")]) == t[0];
  }

  // ---------------------------------------------------------------- the collection

  /** The loops that build one object from another, field by field. */
  method StripUnknownFields(s: Schema, record: Record) returns (next: Record)
    requires SchemaOk(s)
    ensures next == Known(s, record)
  {
    next := map[];
    for i := 0 to |s.names|
      invariant forall f :: f in next <==> f in s.names[..i] && At(record, f) != Undefined
      invariant forall f | f in next :: next[f] == At(record, f)
    {
      var field := s.names[i];
      assert s.names[..i + 1] == s.names[..i] + [field];
      if At(record, field) != Undefined { next := next[field := At(record, field)]; }
    }
    assert s.names[..|s.names|] == s.names;
  }

  method SerializeRow(s: Schema, record: Record) returns (row: Row)
    requires SchemaOk(s)
    ensures row == Serialized(s, record)
  {
    row := map[];
    for i := 0 to |s.names|
      invariant forall f :: f in row <==> f in s.names[..i]
      invariant forall f | f in row :: f in s.columns && row[f] == ToCell(s.columns[f].kind, At(record, f))
    {
      var field := s.names[i];
      assert s.names[..i + 1] == s.names[..i] + [field];
      row := row[field := ToCell(s.columns[field].kind, At(record, field))];
    }
    assert s.names[..|s.names|] == s.names;
  }

  method DeserializeRow(s: Schema, row: Row) returns (record: Record)
    requires SchemaOk(s)
    ensures record == Deserialized(s, row)
  {
    record := map[];
    for i := 0 to |s.names|
      invariant forall f :: f in record <==> f in s.names[..i] && FromCell(CellAt(row, f)) != Undefined
      invariant forall f | f in record :: record[f] == FromCell(CellAt(row, f))
    {
      var field := s.names[i];
      assert s.names[..i + 1] == s.names[..i] + [field];
      var value := FromCell(CellAt(row, field));
      if value != Undefined { record := record[field := value]; }
    }
    assert s.names[..|s.names|] == s.names;
  }

  class Collection {
    const s: Schema
    const x: Texts
    var rows: Table

    ghost predicate Valid() reads this {
      TableOk(s, rows) && Laws(x) && |rows| < Limit
    }

    /** Over a table that holds `rows` already. */
    constructor (s: Schema, x: Texts, rows: Table)
      requires TableOk(s, rows) && Laws(x) && |rows| < Limit
      ensures Valid() && this.s == s && this.x == x && this.rows == rows
    {
      this.s, this.x, this.rows := s, x, rows;
    }

    method Get(id: Key) returns (reply: Reply)
      requires Valid()
      ensures (rows, reply) == Step(x, s, rows, Fetch(id))
    {
      var key := KeyCells(s, id);
      if key.Err? { return Failed(key.error); }
      var row := Select(s, rows, key.value);
      if row.None? { return Missing; }
      var record := DeserializeRow(s, row.value);
      reply := Found(record);
    }

    /** `createWithOperation` up to the INSERT: the SELECT of the ids included.  `requires`: the search
        for an id, if there is one, ends. */
    method StartInsertion(record: Record) returns (start: Start)
      requires Valid() && StartInsert(x, s, rows, record) != Answered(Searching)
      ensures start == StartInsert(x, s, rows, record)
    {
      if s.readOnly { return Answered(Failed(ReadOnly)); }
      var nextRecord := StripUnknownFields(s, record);
      if s.applyDefaults { nextRecord := Defaulted(s, nextRecord); }
      if |s.keyFields| == 1 && !Present(At(nextRecord, s.keyFields[0])) {
        var id := NextId(x, Ids(x, s, rows));
        nextRecord := nextRecord[s.keyFields[0] := Str(id)];
      }
      if |s.keyFields| > 1 && !AllPresent(s.keyFields, nextRecord) { return Answered(Failed(MissingKey)); }
      if !s.valid(nextRecord) { return Answered(Failed(Invalid)); }
      var serialized := SerializeRow(s, nextRecord);
      if !RowBindable(serialized) { return Answered(Failed(Unbindable)); }
      start := Pends(Insertion(nextRecord));
    }

    /** `patch` up to the UPDATE: the SELECT of the record included. */
    method StartPatching(id: Key, patch: Record) returns (start: Start)
      requires Valid()
      ensures start == StartOp(x, s, rows, Op.Patch(id, patch))
    {
      if s.readOnly { return Answered(Failed(ReadOnly)); }
      if s.appendOnly { return Answered(Failed(AppendOnly)); }
      var existing := Get(id);
      if !existing.Found? { return Answered(existing); }
      var nextRecord := Merged(s, existing.r, patch);
      if !s.valid(nextRecord) { return Answered(Failed(Invalid)); }
      var serialized := SerializeRow(s, nextRecord);
      var key := KeyCells(s, ByFields(existing.r, Obj([])));
      if key.Err? { return Answered(Failed(key.error)); }
      if OnlyKeyFields(s) { return Answered(Failed(NothingToSet)); }
      if !SetBindable(s, serialized) { return Answered(Failed(Unbindable)); }
      start := Pends(Change(key.value, nextRecord));
    }

    /** The INSERT, UPDATE or DELETE, at whatever moment it runs. */
    method Finish(p: Pending) returns (reply: Reply)
      requires Valid() && |rows| + 1 < Limit && PendingOk(s, p)
      modifies this
      ensures Valid() && (rows, reply) == FinishOp(s, old(rows), p)
    {
      FinishRefines(s, rows, p);
      match p
      case Insertion(next) =>
        var serialized := SerializeRow(s, next);
        if Select(s, rows, KeyOf(s, serialized)).Some? { return Failed(Duplicate); }
        rows := rows + [serialized];
        return Found(next);
      case Change(k, next) =>
        var serialized := SerializeRow(s, next);
        rows := Updated(s, rows, k, serialized);
        return Found(next);
      case Removal(k) =>
        var changes := |rows| - |Without(s, rows, k)|;
        WithoutRemoves(s, rows, k);
        rows := Without(s, rows, k);
        return Deleted(changes > 0);
    }

    /** Both statements of an insertion, with no other statement between them. */
    method CreateWithOperation(record: Record) returns (reply: Reply)
      requires Valid() && |rows| + 1 < Limit && !Insert(x, s, rows, record).1.Searching?
      modifies this
      ensures Valid() && (rows, reply) == Insert(x, s, old(rows), record)
    {
      InsertIsBoth(x, s, rows, record);
      var start := StartInsertion(record);
      if start.Answered? { return start.reply; }
      StartIsOk(x, s, rows, Op.Append(record));
      reply := Finish(start.pending);
    }

    method Create(record: Record) returns (reply: Reply)
      requires Valid() && |rows| + 1 < Limit && !Step(x, s, rows, Op.Create(record)).1.Searching?
      modifies this
      ensures Valid() && (rows, reply) == Step(x, s, old(rows), Op.Create(record))
    {
      if s.appendOnly { return Failed(AppendOnly); }
      reply := CreateWithOperation(record);
    }

    method Append(record: Record) returns (reply: Reply)
      requires Valid() && |rows| + 1 < Limit && !Step(x, s, rows, Op.Append(record)).1.Searching?
      modifies this
      ensures Valid() && (rows, reply) == Step(x, s, old(rows), Op.Append(record))
    {
      reply := CreateWithOperation(record);
    }

    /** Both statements of a patch, with no other statement between them. */
    method Patch(id: Key, patch: Record) returns (reply: Reply)
      requires Valid() && |rows| + 1 < Limit
      modifies this
      ensures Valid() && (rows, reply) == Step(x, s, old(rows), Op.Patch(id, patch))
    {
      StepIsBothStatements(x, s, rows, Op.Patch(id, patch));
      var start := StartPatching(id, patch);
      if start.Answered? { return start.reply; }
      StartIsOk(x, s, rows, Op.Patch(id, patch));
      reply := Finish(start.pending);
    }

    method Delete(id: Key) returns (reply: Reply)
      requires Valid() && |rows| + 1 < Limit
      modifies this
      ensures Valid() && (rows, reply) == Step(x, s, old(rows), Op.Delete(id))
    {
      if s.readOnly { return Failed(ReadOnly); }
      if s.appendOnly { return Failed(AppendOnly); }
      var key := KeyCells(s, id);
      if key.Err? { return Failed(key.error); }
      reply := Finish(Removal(key.value));
    }
  }

  // ---------------------------------------------------------------- the first candidate

  /** Without a positive integer among the ids the search starts at their number plus one; otherwise at the
      successor of the greatest, which is one of them. */
  lemma FirstCandidate(x: Texts, ids: seq<string>)
    ensures (forall id | id in ids :: x.numberOf(id) == 0) ==> FirstGuess(x, ids) == |ids| + 1
    ensures (exists id :: id in ids && x.numberOf(id) > 0) ==>
              exists top :: top in ids && FirstGuess(x, ids) == Succ(x.numberOf(top))
                            && forall id | id in ids :: x.numberOf(id) <= x.numberOf(top)
  {
    MaxIsNumeric(x, ids);
    if Numeric(x, ids) != [] {
      var top :| top in ids && x.numberOf(top) == Max(Numeric(x, ids)) > 0;
      assert FirstGuess(x, ids) == Succ(x.numberOf(top));
    }
  }

  function Distance(a: nat, b: nat): nat {
    if a < b then b - a else a - b
  }

  lemma LargeDoubles(n: nat)
    requires IsDouble(n)
    ensures n >= Limit ==> n % 2 == 0
    ensures n >= 2 * Limit ==> n % 4 == 0
  {
    if n >= 2 * Limit { assert n / 2 >= Limit && (n / 2) % 2 == 0; }
  }

  /** The successor is the double nearest to the next integer; of two that are as near, the one with the even
      half. */
  lemma SuccIsNearest(n: nat, d: nat)
    requires IsDouble(n) && IsDouble(d)
    ensures IsDouble(Succ(n)) && Distance(Succ(n), n + 1) <= Distance(d, n + 1)
    ensures Limit <= n < 2 * Limit ==> Succ(n) % 4 == 0
  {
    SuccGrows(n);
    LargeDoubles(n);
    LargeDoubles(d);
    Nearest(n, d);
  }

  lemma Nearest(n: nat, d: nat)
    requires (n >= Limit ==> n % 2 == 0) && (n >= 2 * Limit ==> n % 4 == 0)
    requires (d >= Limit ==> d % 2 == 0) && (d >= 2 * Limit ==> d % 4 == 0)
    ensures Distance(Succ(n), n + 1) <= Distance(d, n + 1)
    ensures Limit <= n < 2 * Limit ==> Succ(n) % 4 == 0
  {
    if n >= Limit { assert d != n + 1; }
  }

  /** How `String` prints what a key column holds. */
  predicate PrintsAs(x: Texts, c: Cell, text: string) {
    || (c == NullCell && text == "null")
    || (c == Flag(true) && text == "1") || (c == Flag(false) && text == "0")
    || (c.JsonText? && text == x.ofJson(c.v))
    || (c.Plain? && text == (match c.v case Str(s) => s case Num(n) => n case v => x.ofJson(v)))
  }

  /** The ids that a new one is kept apart from are the keys of all rows, but for empty ones. */
  lemma {:induction false} IdsExactly(x: Texts, s: Schema, t: Table, text: string)
    requires SchemaOk(s)
    ensures text in Ids(x, s, t) <==> text != "" && exists row :: row in t && PrintsAs(x, KeyOf(s, row)[0], text)
  {
    if t != [] {
      IdsExactly(x, s, t[1..], text);
      assert t == [t[0]] + t[1..];
      assert PrintsAs(x, KeyOf(s, t[0])[0], CellText(x, KeyOf(s, t[0])[0]));
    }
  }

  /** A key is refused when there is one key field and the key, given as a whole, is empty; or there are
      several and one of them is missing or empty. */
  lemma EmptyKeyIsRefused(s: Schema, key: Key)
    requires SchemaOk(s)
    ensures KeyCells(s, key) == Err(MissingKey)
       <==> if |s.keyFields| == 1 then key.Whole? && key.whole in {Undefined, Null, Str("")}
            else key.Whole? || exists f :: f in s.keyFields && At(key.fields, f) in {Undefined, Null, Str("")}
  {
  }
}
