/** Overlapping operations on one table: each is a statement that reads, and later one that writes, and
    statements of other operations may run in between. */
module SqliteOverlap {
  import opened Options
  import opened Json
  import opened SqliteCollection

  datatype Phase = Waits(pending: Pending) | Done(reply: Reply)

  /** One call of the collection. */
  datatype Call = Call(op: Op, phase: Phase)

  datatype State = State(table: Table, calls: seq<Call>)

  /** `Begin`: a call checks and reads what it has to.  `Finish`: the writing statement of a call. */
  datatype Event = Begin(op: Op) | Finish(call: nat)

  function Advance(x: Texts, s: Schema, st: State, e: Event): State
    requires SchemaOk(s)
  {
    match e
    case Begin(op) =>
      var phase := match StartOp(x, s, st.table, op) case Answered(reply) => Done(reply) case Pends(p) => Waits(p);
      st.(calls := st.calls + [Call(op, phase)])
    case Finish(i) =>
      if i >= |st.calls| || st.calls[i].phase.Done? then st
      else
        var (table, reply) := FinishOp(s, st.table, st.calls[i].phase.pending);
        State(table, st.calls[i := st.calls[i].(phase := Done(reply))])
  }

  function Run(x: Texts, s: Schema, t: Table, events: seq<Event>): State
    requires SchemaOk(s)
    decreases |events|
  {
    if events == [] then State(t, [])
    else Advance(x, s, Run(x, s, t, events[..|events| - 1]), events[|events| - 1])
  }

  function ContentsAt(x: Texts, s: Schema, t: Table, events: seq<Event>, n: nat): Contents
    requires SchemaOk(s) && n <= |events|
  {
    ContentsOf(s, Run(x, s, t, events[..n]).table)
  }

  // ---------------------------------------------------------------- every interleaving keeps the table sound

  ghost predicate Sound(s: Schema, st: State) {
    TableOk(s, st.table) && forall c | c in st.calls && c.phase.Waits? :: PendingOk(s, c.phase.pending)
  }

  lemma AdvanceKeepsSound(x: Texts, s: Schema, st: State, e: Event)
    requires Sound(s, st) && Laws(x) && |st.table| < Limit
    ensures Sound(s, Advance(x, s, st, e)) && |Advance(x, s, st, e).table| <= |st.table| + 1
  {
    match e
    case Begin(op) => if StartOp(x, s, st.table, op).Pends? { StartIsOk(x, s, st.table, op); }
    case Finish(i) =>
      if i < |st.calls| && st.calls[i].phase.Waits? {
        assert st.calls[i] in st.calls;
        FinishRefines(s, st.table, st.calls[i].phase.pending);
      }
  }

  /** In every interleaving of the statements the table stays sound: rows fit, keys are distinct. */
  lemma {:induction false} RunKeepsSound(x: Texts, s: Schema, t: Table, events: seq<Event>)
    requires TableOk(s, t) && Laws(x) && |t| + |events| < Limit
    ensures Sound(s, Run(x, s, t, events)) && |Run(x, s, t, events).table| <= |t| + |events|
    decreases |events|
  {
    if events != [] {
      var before := events[..|events| - 1];
      RunKeepsSound(x, s, t, before);
      AdvanceKeepsSound(x, s, Run(x, s, t, before), events[|events| - 1]);
    }
  }

  // ---------------------------------------------------------------- who put a key there

  /** What an event writes, if it writes. */
  function WriteOf(st: State, e: Event): Option<Pending> {
    match e
    case Begin(_) => None
    case Finish(i) => if i < |st.calls| && st.calls[i].phase.Waits? then Some(st.calls[i].phase.pending) else None
  }

  function WritesAt(x: Texts, s: Schema, t: Table, events: seq<Event>, j: nat): Option<Pending>
    requires SchemaOk(s) && j < |events|
  {
    WriteOf(Run(x, s, t, events[..j]), events[j])
  }

  predicate Puts(s: Schema, w: Option<Pending>, k: seq<Cell>) {
    w.Some? && w.value.Insertion? && KeyOf(s, Serialized(s, w.value.next)) == k
  }

  predicate Takes(w: Option<Pending>, k: seq<Cell>) {
    w == Some(Removal(k))
  }

  predicate Alters(w: Option<Pending>, k: seq<Cell>) {
    w.Some? && w.value.Change? && w.value.k == k
  }

  /** What one event does to one key. */
  lemma KeyOfAdvance(x: Texts, s: Schema, st: State, e: Event, k: seq<Cell>)
    requires Sound(s, st)
    ensures var before, after := ContentsOf(s, st.table), ContentsOf(s, Advance(x, s, st, e).table);
            var w := WriteOf(st, e);
            && (k in after <==> Puts(s, w, k) || (k in before && !Takes(w, k)))
            && (k in before && k in after && !Alters(w, k) ==> after[k] == before[k])
  {
    if WriteOf(st, e).Some? {
      assert st.calls[e.call] in st.calls;
      var p := st.calls[e.call].phase.pending;
      FinishRefines(s, st.table, p);
      WroteKey(s, ContentsOf(s, st.table), p, ContentsOf(s, FinishOp(s, st.table, p).0), FinishOp(s, st.table, p).1, k);
    }
  }

  lemma WroteKey(s: Schema, before: Contents, p: Pending, after: Contents, reply: Reply, k: seq<Cell>)
    requires Wrote(s, before, p, after, reply)
    ensures k in after <==> Puts(s, Some(p), k) || (k in before && !Takes(Some(p), k))
    ensures k in before && k in after && !Alters(Some(p), k) ==> after[k] == before[k]
  {
  }

  predicate InsertsAt(x: Texts, s: Schema, t: Table, events: seq<Event>, j: nat, k: seq<Cell>)
    requires SchemaOk(s) && j < |events|
  {
    Puts(s, WritesAt(x, s, t, events, j), k)
  }

  predicate RemovesAt(x: Texts, s: Schema, t: Table, events: seq<Event>, j: nat, k: seq<Cell>)
    requires SchemaOk(s) && j < |events|
  {
    Takes(WritesAt(x, s, t, events, j), k)
  }

  predicate ChangesAt(x: Texts, s: Schema, t: Table, events: seq<Event>, j: nat, k: seq<Cell>)
    requires SchemaOk(s) && j < |events|
  {
    Alters(WritesAt(x, s, t, events, j), k)
  }

  lemma RunOneMore(x: Texts, s: Schema, t: Table, events: seq<Event>, j: nat)
    requires SchemaOk(s) && j < |events|
    ensures Run(x, s, t, events[..j + 1]) == Advance(x, s, Run(x, s, t, events[..j]), events[j])
  {
    assert events[..j + 1][..j] == events[..j] && events[..j + 1][j] == events[j];
  }

  lemma KeyStep(x: Texts, s: Schema, t: Table, events: seq<Event>, j: nat, k: seq<Cell>)
    requires TableOk(s, t) && Laws(x) && |t| + |events| < Limit && j < |events|
    ensures k in ContentsAt(x, s, t, events, j + 1)
       <==> || InsertsAt(x, s, t, events, j, k)
            || (k in ContentsAt(x, s, t, events, j) && !RemovesAt(x, s, t, events, j, k))
    ensures k in ContentsAt(x, s, t, events, j) && k in ContentsAt(x, s, t, events, j + 1)
            && !ChangesAt(x, s, t, events, j, k)
            ==> ContentsAt(x, s, t, events, j + 1)[k] == ContentsAt(x, s, t, events, j)[k]
  {
    RunOneMore(x, s, t, events, j);
    RunKeepsSound(x, s, t, events[..j]);
    KeyOfAdvance(x, s, Run(x, s, t, events[..j]), events[j], k);
  }

  /** Event `j` inserts `k`, and no event after it, before event `n`, removes it. */
  ghost predicate InsertedAndKept(x: Texts, s: Schema, t: Table, events: seq<Event>, j: nat, n: nat, k: seq<Cell>)
    requires SchemaOk(s) && n <= |events|
  {
    j < n && InsertsAt(x, s, t, events, j, k) && forall m: nat | j < m < n :: !RemovesAt(x, s, t, events, m, k)
  }

  lemma KeptOneLonger(x: Texts, s: Schema, t: Table, events: seq<Event>, j: nat, n: nat, k: seq<Cell>)
    requires SchemaOk(s) && n < |events|
    ensures InsertedAndKept(x, s, t, events, j, n + 1, k)
       <==> if j == n then InsertsAt(x, s, t, events, n, k)
            else InsertedAndKept(x, s, t, events, j, n, k) && !RemovesAt(x, s, t, events, n, k)
  {
  }

  /** `k` was inserted by one of the events from `b` on, and not removed again before event `n`. */
  ghost predicate InsertedSince(x: Texts, s: Schema, t: Table, events: seq<Event>, b: nat, n: nat, k: seq<Cell>)
    requires SchemaOk(s) && n <= |events|
  {
    exists j: nat :: b <= j && InsertedAndKept(x, s, t, events, j, n, k)
  }

  lemma SinceOneLonger(x: Texts, s: Schema, t: Table, events: seq<Event>, b: nat, n: nat, k: seq<Cell>)
    requires SchemaOk(s) && b <= n < |events|
    ensures InsertedSince(x, s, t, events, b, n + 1, k)
       <==> InsertsAt(x, s, t, events, n, k)
            || (InsertedSince(x, s, t, events, b, n, k) && !RemovesAt(x, s, t, events, n, k))
  {
    if InsertedSince(x, s, t, events, b, n + 1, k) {
      var j: nat :| b <= j && InsertedAndKept(x, s, t, events, j, n + 1, k);
      KeptOneLonger(x, s, t, events, j, n, k);
    }
    if InsertsAt(x, s, t, events, n, k) { KeptOneLonger(x, s, t, events, n, n, k); }
    if InsertedSince(x, s, t, events, b, n, k) {
      var j: nat :| b <= j && InsertedAndKept(x, s, t, events, j, n, k);
      KeptOneLonger(x, s, t, events, j, n, k);
    }
  }

  lemma NothingSince(x: Texts, s: Schema, t: Table, events: seq<Event>, b: nat, k: seq<Cell>)
    requires SchemaOk(s) && b <= |events|
    ensures !InsertedSince(x, s, t, events, b, b, k)
  {
  }

  /** A key that is free when event `b` happens is in use at event `n` exactly when it was inserted in
      between and not removed again. */
  lemma {:induction false} InUseExactly(x: Texts, s: Schema, t: Table, events: seq<Event>, b: nat, n: nat, k: seq<Cell>)
    requires TableOk(s, t) && Laws(x) && |t| + |events| < Limit && b <= n <= |events|
    requires k !in ContentsAt(x, s, t, events, b)
    ensures k in ContentsAt(x, s, t, events, n) <==> InsertedSince(x, s, t, events, b, n, k)
    decreases n
  {
    if n == b {
      NothingSince(x, s, t, events, b, k);
    } else {
      InUseExactly(x, s, t, events, b, n - 1, k);
      KeyStep(x, s, t, events, n - 1, k);
      SinceOneLonger(x, s, t, events, b, n - 1, k);
    }
  }

  // ---------------------------------------------------------------- a waiting call

  /** Call `i` is the one event `b` began. */
  predicate BegunAt(x: Texts, s: Schema, t: Table, events: seq<Event>, b: nat, i: nat)
    requires SchemaOk(s)
  {
    b < |events| && events[b].Begin? && |Run(x, s, t, events[..b]).calls| == i
  }

  lemma CallGoesOn(x: Texts, s: Schema, st: State, e: Event, i: nat)
    requires SchemaOk(s) && i < |st.calls|
    ensures var v := Advance(x, s, st, e);
            i < |v.calls| && v.calls[i].op == st.calls[i].op && (v.calls[i].phase.Waits? ==> v.calls[i] == st.calls[i])
  {
  }

  /** A call that still waits is about to write what it decided when it began. */
  lemma {:induction false} DecidedAtBegin(x: Texts, s: Schema, t: Table, events: seq<Event>, b: nat, i: nat, n: nat)
    requires SchemaOk(s) && BegunAt(x, s, t, events, b, i) && b < n <= |events|
    ensures var st := Run(x, s, t, events[..n]);
            && i < |st.calls| && st.calls[i].op == events[b].op
            && (st.calls[i].phase.Waits? ==>
                  StartOp(x, s, Run(x, s, t, events[..b]).table, events[b].op) == Pends(st.calls[i].phase.pending))
    decreases n
  {
    assert events[..n][..n - 1] == events[..n - 1] && events[..n][n - 1] == events[n - 1];
    if n > b + 1 {
      DecidedAtBegin(x, s, t, events, b, i, n - 1);
      CallGoesOn(x, s, Run(x, s, t, events[..n - 1]), events[n - 1], i);
    }
  }

  /** In every interleaving: a create that got its id generated, with a scalar key, fails as a duplicate
      exactly when a record with that id was inserted after its ids were read, and not removed again
      before its own insert. */
  lemma {:induction false} GeneratedIdCollidesExactly(x: Texts, s: Schema, t: Table, events: seq<Event>, b: nat,
                                                      i: nat, next: Record)
    requires TableOk(s, t) && Laws(x) && |t| + |events| < Limit
    requires BegunAt(x, s, t, events, b, i) && (events[b].op.Create? || events[b].op.Append?)
    requires NeedsId(s, Prepared(s, events[b].op.r)) && s.columns[s.keyFields[0]].kind == Scalar
    requires i < |Run(x, s, t, events).calls| && Run(x, s, t, events).calls[i].phase == Waits(Insertion(next))
    ensures Replies(x, s, t, events, i, Failed(Duplicate))
       <==> InsertedSince(x, s, t, events, b, |events|, KeyOf(s, Serialized(s, next)))
  {
    var st0, st := Run(x, s, t, events[..b]), Run(x, s, t, events);
    var k := KeyOf(s, Serialized(s, next));
    assert events[..|events|] == events;
    DecidedAtBegin(x, s, t, events, b, i, |events|);
    RunKeepsSound(x, s, t, events[..b]);
    GeneratedIsFree(x, s, st0.table, events[b].op, next);
    InUseExactly(x, s, t, events, b, |events|, k);
    SelectIsLookup(s, st.table, k);
  }

  /** Call `i` is answered so when its writing statement comes next. */
  predicate Replies(x: Texts, s: Schema, t: Table, events: seq<Event>, i: nat, reply: Reply)
    requires SchemaOk(s)
  {
    var st := Run(x, s, t, events);
    i < |st.calls| && st.calls[i].phase.Waits? && Advance(x, s, st, Finish(i)).calls[i].phase == Done(reply)
  }

  lemma GeneratedIsFree(x: Texts, s: Schema, t: Table, op: Op, next: Record)
    requires TableOk(s, t) && Laws(x) && |t| < Limit
    requires op.Create? || op.Append?
    requires NeedsId(s, Prepared(s, op.r)) && s.columns[s.keyFields[0]].kind == Scalar
    requires StartOp(x, s, t, op) == Pends(Insertion(next))
    ensures KeyOf(s, Serialized(s, next)) !in ContentsOf(s, t)
  {
    GeneratedDuplicateExactly(x, s, t, op.r);
  }

  /** Two creates that read the same ids: the second to write fails as a duplicate, on every table and
      for every record without an id. */
  lemma OverlappingCreatesCollide(x: Texts, s: Schema, t: Table, given: Record)
    requires TableOk(s, t) && Laws(x) && |t| + 3 < Limit
    requires NeedsId(s, Prepared(s, given)) && StartOp(x, s, t, Append(given)).Pends?
    requires Insert(x, s, t, given).1.Found?
    ensures var events := [Begin(Append(given)), Begin(Append(given)), Finish(0)];
            Replies(x, s, t, events, 1, Failed(Duplicate))
  {
    var p := StartOp(x, s, t, Append(given)).pending;
    var call := Call(Append(given), Waits(p));
    TwoBegun(x, s, t, Append(given), Append(given));
    InsertIsBoth(x, s, t, given);
    StartIsOk(x, s, t, Append(given));
    FinishRefines(s, t, p);
    var u := FinishOp(s, t, p).0;
    SelectIsLookup(s, u, KeyOf(s, Serialized(s, p.next)));
    assert [call, call][0 := call.(phase := Done(Found(p.next)))][1] == call;
  }

  /** Two operations that both read before the first of them writes. */
  lemma TwoBegun(x: Texts, s: Schema, t: Table, first: Op, second: Op)
    requires SchemaOk(s) && StartOp(x, s, t, first).Pends? && StartOp(x, s, t, second).Pends?
    ensures var one := Call(first, Waits(StartOp(x, s, t, first).pending));
            var two := Call(second, Waits(StartOp(x, s, t, second).pending));
            && Run(x, s, t, [Begin(first), Begin(second)]) == State(t, [one, two])
            && Run(x, s, t, [Begin(first), Begin(second), Finish(0)]) == Advance(x, s, State(t, [one, two]), Finish(0))
  {
    var events := [Begin(first), Begin(second), Finish(0)];
    var one := Call(first, Waits(StartOp(x, s, t, first).pending));
    var two := Call(second, Waits(StartOp(x, s, t, second).pending));
    assert events[..2] == [events[0], events[1]] && events[..2][..1] == [events[0]] && [events[0]][..0] == [];
    assert [] + [one] == [one] && [one] + [two] == [one, two];
    assert Run(x, s, t, [events[0]]) == State(t, [one]);
  }

  // ---------------------------------------------------------------- overlapping patches

  lemma PatchIsChange(x: Texts, s: Schema, t: Table, op: Op)
    requires SchemaOk(s) && op.Patch? && StartOp(x, s, t, op).Pends?
    ensures StartOp(x, s, t, op).pending.Change?
  {
  }

  /** A patch that was begun reads the row under its key. */
  lemma PatchReads(x: Texts, s: Schema, t: Table, op: Op, k: seq<Cell>, next: Record)
    requires TableOk(s, t) && op.Patch? && StartOp(x, s, t, op) == Pends(Change(k, next))
    ensures KeyCells(s, op.key) == Ok(k)
    ensures k in ContentsOf(s, t) && next == Merged(s, Deserialized(s, ContentsOf(s, t)[k]), op.r)
    ensures RowOk(s, ContentsOf(s, t)[k])
  {
    var key := KeyCells(s, op.key).value;
    SelectIsLookup(s, t, key);
    KeyOfStored(s, ContentsOf(s, t)[key]);
  }

  /** A column outside the key that the patch does not name is written back as it was read. */
  lemma UnnamedIsWrittenBack(s: Schema, before: Row, now: Row, patch: Record, f: string)
    requires SchemaOk(s) && RowOk(s, before) && f in s.columns && f !in s.keyFields && f !in patch
    ensures Assigned(s, now, Serialized(s, Merged(s, Deserialized(s, before), patch)))[f] == before[f]
  {
    CellReturns(s.columns[f].kind, before[f]);
  }

  /** In every interleaving: when a patch writes, each column it does not name gets what it held when the
      patch read the record, and so stays as it is exactly when it still holds that; and when the record
      is gone by then, the patch says that it was made and changes nothing. */
  lemma PatchKeepsExactly(x: Texts, s: Schema, t: Table, events: seq<Event>, b: nat, i: nat, k: seq<Cell>, next: Record)
    requires TableOk(s, t) && Laws(x) && |t| + |events| < Limit
    requires BegunAt(x, s, t, events, b, i) && events[b].op.Patch?
    requires i < |Run(x, s, t, events).calls| && Run(x, s, t, events).calls[i].phase == Waits(Change(k, next))
    ensures k in ContentsAt(x, s, t, events, b) && Replies(x, s, t, events, i, Found(next))
    ensures var before, now := ContentsAt(x, s, t, events, b)[k], ContentsOf(s, Run(x, s, t, events).table);
            var after := ContentsOf(s, Advance(x, s, Run(x, s, t, events), Finish(i)).table);
            if k !in now then after == now
            else
              && k in after && after == now[k := after[k]]
              && forall f | f in s.columns && f !in s.keyFields && f !in events[b].op.r ::
                   && f in now[k] && f in after[k] && f in before && after[k][f] == before[f]
                   && (after[k][f] == now[k][f] <==> now[k][f] == before[f])
  {
    var st0, st := Run(x, s, t, events[..b]), Run(x, s, t, events);
    assert events[..|events|] == events;
    DecidedAtBegin(x, s, t, events, b, i, |events|);
    RunKeepsSound(x, s, t, events[..b]);
    RunKeepsSound(x, s, t, events);
    PatchReads(x, s, st0.table, events[b].op, k, next);
    assert st.calls[i] in st.calls;
    PatchWrites(x, s, st, i, ContentsOf(s, st0.table)[k], events[b].op.r, k);
  }

  lemma PatchWrites(x: Texts, s: Schema, st: State, i: nat, before: Row, patch: Record, k: seq<Cell>)
    requires Sound(s, st) && i < |st.calls| && RowOk(s, before)
    requires st.calls[i].phase == Waits(Change(k, Merged(s, Deserialized(s, before), patch)))
    ensures var now, after := ContentsOf(s, st.table), ContentsOf(s, Advance(x, s, st, Finish(i)).table);
            if k !in now then after == now
            else
              && k in after && after == now[k := after[k]]
              && forall f | f in s.columns && f !in s.keyFields && f !in patch ::
                   && f in now[k] && f in after[k] && f in before && after[k][f] == before[f]
                   && (after[k][f] == now[k][f] <==> now[k][f] == before[f])
  {
    var next := Merged(s, Deserialized(s, before), patch);
    assert st.calls[i] in st.calls;
    FinishRefines(s, st.table, Change(k, next));
    var now := ContentsOf(s, st.table);
    if k in now {
      SelectIsLookup(s, st.table, k);
      assert RowOk(s, now[k]);
      forall f | f in s.columns && f !in s.keyFields && f !in patch
        ensures Assigned(s, now[k], Serialized(s, next))[f] == before[f] {
        UnnamedIsWrittenBack(s, before, now[k], patch, f);
      }
    }
  }

  /** A row that is neither removed nor changed in between is still there as it was. */
  lemma {:induction false} UntouchedRow(x: Texts, s: Schema, t: Table, events: seq<Event>, b: nat, n: nat, k: seq<Cell>)
    requires TableOk(s, t) && Laws(x) && |t| + |events| < Limit && b <= n <= |events|
    requires k in ContentsAt(x, s, t, events, b)
    requires forall j: nat | b <= j < n :: !RemovesAt(x, s, t, events, j, k) && !ChangesAt(x, s, t, events, j, k)
    ensures k in ContentsAt(x, s, t, events, n) && ContentsAt(x, s, t, events, n)[k]
        == ContentsAt(x, s, t, events, b)[k]
    decreases n
  {
    if n > b {
      UntouchedRow(x, s, t, events, b, n - 1, k);
      KeyStep(x, s, t, events, n - 1, k);
    }
  }

  /** Two patches of one record that both read before the first of them writes: what the first one set
      in a column the second does not name is lost. */
  lemma OverlappingPatchesLose(x: Texts, s: Schema, t: Table, key: Key, first: Record, second: Record, f: string)
    requires TableOk(s, t) && Laws(x) && |t| + 4 < Limit
    requires StartOp(x, s, t, Patch(key, first)).Pends? && StartOp(x, s, t, Patch(key, second)).Pends?
    requires f in s.columns && f !in s.keyFields && f !in second
    ensures var k := KeyCells(s, key).value;
            var st := Run(x, s, t, [Begin(Patch(key, first)), Begin(Patch(key, second)), Finish(0)]);
            var after := ContentsOf(s, Advance(x, s, st, Finish(1)).table);
            && k in ContentsOf(s, t) && f in ContentsOf(s, t)[k]
            && k in after && f in after[k] && after[k][f] == ContentsOf(s, t)[k][f]
  {
    var p, q := StartOp(x, s, t, Patch(key, first)).pending, StartOp(x, s, t, Patch(key, second)).pending;
    BothWritten(x, s, t, Patch(key, first), Patch(key, second));
    PatchIsChange(x, s, t, Patch(key, first));
    PatchIsChange(x, s, t, Patch(key, second));
    PatchReads(x, s, t, Patch(key, first), p.k, p.next);
    PatchReads(x, s, t, Patch(key, second), q.k, q.next);
    StartIsOk(x, s, t, Patch(key, first));
    StartIsOk(x, s, t, Patch(key, second));
    SecondWriteStays(s, t, p, q, second, f);
  }

  lemma BothWritten(x: Texts, s: Schema, t: Table, first: Op, second: Op)
    requires SchemaOk(s) && StartOp(x, s, t, first).Pends? && StartOp(x, s, t, second).Pends?
    ensures var p, q := StartOp(x, s, t, first).pending, StartOp(x, s, t, second).pending;
            var st := Run(x, s, t, [Begin(first), Begin(second), Finish(0)]);
            Advance(x, s, st, Finish(1)).table == FinishOp(s, FinishOp(s, t, p).0, q).0
  {
    TwoBegun(x, s, t, first, second);
  }

  lemma SecondWriteStays(s: Schema, t: Table, p: Pending, q: Pending, second: Record, f: string)
    requires TableOk(s, t) && PendingOk(s, p) && PendingOk(s, q) && p.Change? && q.Change? && p.k == q.k
    requires q.k in ContentsOf(s, t) && RowOk(s, ContentsOf(s, t)[q.k])
    requires q.next == Merged(s, Deserialized(s, ContentsOf(s, t)[q.k]), second)
    requires f in s.columns && f !in s.keyFields && f !in second
    ensures var after := ContentsOf(s, FinishOp(s, FinishOp(s, t, p).0, q).0);
            && f in ContentsOf(s, t)[q.k] && q.k in after && f in after[q.k]
            && after[q.k][f] == ContentsOf(s, t)[q.k][f]
  {
    FinishRefines(s, t, p);
    var u := FinishOp(s, t, p).0;
    FinishRefines(s, u, q);
    UnnamedIsWrittenBack(s, ContentsOf(s, t)[q.k], ContentsOf(s, u)[q.k], second, f);
  }
}
