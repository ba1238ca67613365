/** The per-resource write queue of the SQLite store (`withResourceWrite`): a chain of promises
    serialises the writes of one key, whatever the interleaving and whichever of them fail. */
module WriteQueue {
  import opened Options

  datatype Phase<+V> = Waiting | Running(snapshot: V) | Settled(ok: bool)

  /** One queued operation.  `previous` is the operation whose stored promise it is chained on;
      `stored` says that its own stored promise has settled, `cleaned` that the `finally` callback
      of that promise has run. */
  datatype Op<+V> = Op(key: string, previous: Option<nat>, phase: Phase<V>, stored: bool, cleaned: bool)

  datatype State<+V> = State(queues: map<string, nat>, ops: seq<Op<V>>, values: map<string, V>)

  datatype Event =
    | Submit(key: string)
    | Start(op: nat)
    | Finish(op: nat, ok: bool)
    | StoredSettles(op: nat)
    | Cleanup(op: nat)

  /** What the resources hold at first, and what operation number `i` stores after reading `v`. */
  datatype Work<!V> = Work(initial: V, effect: (nat, V) -> V)

  function ValueOf<V>(w: Work<V>, s: State<V>, key: string): V {
    if key in s.values then s.values[key] else w.initial
  }

  function WithResourceWrite<V>(s: State<V>, key: string): State<V> {
    var previous := if key in s.queues then Some(s.queues[key]) else None;
    s.(queues := s.queues[key := |s.ops|], ops := s.ops + [Op(key, previous, Waiting, false, false)])
  }

  /** `previous.then(operation, operation)`: the previous stored promise has settled, either way. */
  predicate MayStart<V>(s: State<V>, i: nat) {
    && i < |s.ops| && s.ops[i].phase.Waiting?
    && match s.ops[i].previous
       case None => true
       case Some(p) => p < |s.ops| && s.ops[p].stored
  }

  predicate Enabled<V>(s: State<V>, e: Event) {
    match e
    case Submit(_) => true
    case Start(i) => MayStart(s, i)
    case Finish(i, _) => i < |s.ops| && s.ops[i].phase.Running?
    case StoredSettles(i) => i < |s.ops| && s.ops[i].phase.Settled?
    case Cleanup(i) => i < |s.ops| && s.ops[i].stored && !s.ops[i].cleaned
  }

  function Do<V>(w: Work<V>, s: State<V>, e: Event): State<V>
    requires Enabled(s, e)
  {
    match e
    case Submit(key) => WithResourceWrite(s, key)
    case Start(i) => s.(ops := s.ops[i := s.ops[i].(phase := Running(ValueOf(w, s, s.ops[i].key)))])
    case Finish(i, ok) =>
      s.(ops := s.ops[i := s.ops[i].(phase := Settled(ok))],
         values := if ok then s.values[s.ops[i].key := w.effect(i, s.ops[i].phase.snapshot)] else s.values)
    case StoredSettles(i) => s.(ops := s.ops[i := s.ops[i].(stored := true)])
    case Cleanup(i) =>
      s.(ops := s.ops[i := s.ops[i].(cleaned := true)],
         queues := if s.ops[i].key in s.queues && s.queues[s.ops[i].key] == i then s.queues - {s.ops[i].key}
             else s.queues)
  }

  /** An event that cannot happen leaves the state alone. */
  function Step<V>(w: Work<V>, s: State<V>, e: Event): State<V> {
    if Enabled(s, e) then Do(w, s, e) else s
  }

  function Run<V>(w: Work<V>, events: seq<Event>): State<V> {
    if events == [] then State(map[], [], map[])
    else Step(w, Run(w, events[..|events| - 1]), events[|events| - 1])
  }

  // ---------------------------------------------------------------- what every run keeps

  /** The successful operations on `key` among the first `n`, applied in submission order. */
  function Fold<V>(w: Work<V>, ops: seq<Op<V>>, key: string, n: nat): V
    requires n <= |ops|
  {
    if n == 0 then w.initial
    else
      var before := Fold(w, ops, key, n - 1);
      if ops[n - 1].key == key && ops[n - 1].phase == Settled(true) then w.effect(n - 1, before) else before
  }

  ghost predicate Before<V>(s: State<V>, i: int, j: int) {
    0 <= i < j < |s.ops| && s.ops[i].key == s.ops[j].key
  }

  /** A queue names the last operation of its key; no queue means nothing of the key is left. */
  ghost predicate QueuesExact<V>(s: State<V>) {
    && (forall key | key in s.queues :: s.queues[key] < |s.ops| && s.ops[s.queues[key]].key == key)
    && (forall i | 0 <= i < |s.ops| :: if s.ops[i].key in s.queues then i <= s.queues[s.ops[i].key]
        else s.ops[i].stored)
  }

  /** `previous` is an earlier operation on the key, and whatever came between has settled. */
  ghost predicate Linked<V>(s: State<V>) {
    && (forall j | 0 <= j < |s.ops| && s.ops[j].previous.Some? :: Before(s, s.ops[j].previous.value, j))
    && (forall i, j | Before(s, i, j) ::
          s.ops[i].stored || (s.ops[j].previous.Some? && i <= s.ops[j].previous.value))
  }

  ghost predicate StoredAfterSettled<V>(s: State<V>) {
    forall i | 0 <= i < |s.ops| && s.ops[i].stored :: s.ops[i].phase.Settled?
  }

  /** One at a time, in submission order. */
  ghost predicate Ordered<V>(s: State<V>) {
    forall i, j | Before(s, i, j) && !s.ops[j].phase.Waiting? :: s.ops[i].stored
  }

  ghost predicate Serial<V>(w: Work<V>, s: State<V>) {
    && (forall key :: ValueOf(w, s, key) == Fold(w, s.ops, key, |s.ops|))
    && (forall i | 0 <= i < |s.ops| && s.ops[i].phase.Running? :: s.ops[i].phase.snapshot
         == ValueOf(w, s, s.ops[i].key))
  }

  ghost predicate Inv<V>(w: Work<V>, s: State<V>) {
    QueuesExact(s) && Linked(s) && StoredAfterSettled(s) && Ordered(s) && Serial(w, s)
  }

  /** All but `Submit` change no key and no `previous`, and un-settle nothing. */
  ghost predicate Progress<V>(s: State<V>, t: State<V>) {
    && |t.ops| == |s.ops|
    && forall i | 0 <= i < |s.ops| ::
         t.ops[i].key == s.ops[i].key && t.ops[i].previous == s.ops[i].previous && (s.ops[i].stored ==> t.ops[i].stored)
  }

  lemma QueuesStep<V>(w: Work<V>, s: State<V>, e: Event)
    requires QueuesExact(s) && StoredAfterSettled(s) && Ordered(s) && Enabled(s, e)
    ensures QueuesExact(Do(w, s, e))
  {
    var t := Do(w, s, e);
    match e
    case Submit(key) =>
    case Cleanup(k) =>
      forall i | 0 <= i < |t.ops|
        ensures if t.ops[i].key in t.queues then i <= t.queues[t.ops[i].key] else t.ops[i].stored {
        assert t.ops[i].key == s.ops[i].key && t.ops[i].stored == s.ops[i].stored;
        if t.ops[i].key !in t.queues && s.ops[i].key in s.queues {
          StoredUpTo(s, k, i);
        }
      }
    case _ =>
      assert Progress(s, t);
  }

  lemma StoredUpTo<V>(s: State<V>, k: nat, i: nat)
    requires QueuesExact(s) && StoredAfterSettled(s) && Ordered(s)
    requires k < |s.ops| && s.ops[k].key in s.queues && s.queues[s.ops[k].key] == k && s.ops[k].stored
    requires i < |s.ops| && s.ops[i].key == s.ops[k].key
    ensures s.ops[i].stored
  {
    if i < k { assert Before(s, i, k); }
  }

  lemma LinkedSubmit<V>(s: State<V>, key: string)
    requires QueuesExact(s) && Linked(s)
    ensures Linked(WithResourceWrite(s, key))
  {
    var t := WithResourceWrite(s, key);
    forall j | 0 <= j < |t.ops| && t.ops[j].previous.Some? ensures Before(t, t.ops[j].previous.value, j) {
      if j < |s.ops| { assert Before(s, s.ops[j].previous.value, j); }
    }
    forall i, j | Before(t, i, j)
      ensures t.ops[i].stored || (t.ops[j].previous.Some? && i <= t.ops[j].previous.value) {
      if j < |s.ops| { assert Before(s, i, j); }
    }
  }

  lemma LinkedOther<V>(s: State<V>, t: State<V>)
    requires Linked(s) && Progress(s, t)
    ensures Linked(t)
  {
    forall j | 0 <= j < |t.ops| && t.ops[j].previous.Some? ensures Before(t, t.ops[j].previous.value, j) {
      assert Before(s, s.ops[j].previous.value, j);
    }
    forall i, j | Before(t, i, j)
      ensures t.ops[i].stored || (t.ops[j].previous.Some? && i <= t.ops[j].previous.value) {
      assert Before(s, i, j);
    }
  }

  lemma OrderedStep<V>(w: Work<V>, s: State<V>, e: Event)
    requires Linked(s) && StoredAfterSettled(s) && Ordered(s) && Enabled(s, e)
    ensures Ordered(Do(w, s, e)) && StoredAfterSettled(Do(w, s, e))
  {
    var t := Do(w, s, e);
    forall i, j | Before(t, i, j) && !t.ops[j].phase.Waiting? ensures t.ops[i].stored {
      assert Before(s, i, j);
      match e {
        case Start(k) => if k == j { StartedInOrder(s, i, j); }
        case _ =>
      }
    }
  }

  lemma StartedInOrder<V>(s: State<V>, i: nat, j: nat)
    requires Linked(s) && StoredAfterSettled(s) && Ordered(s) && Before(s, i, j) && MayStart(s, j)
    ensures s.ops[i].stored
  {
    match s.ops[j].previous
    case None =>
    case Some(p) => if i < p { assert Before(s, i, p); }
  }

  lemma {:induction false} FoldSame<V>(w: Work<V>, ops: seq<Op<V>>, more: seq<Op<V>>, key: string, n: nat)
    requires n <= |ops| && n <= |more|
    requires forall i | 0 <= i < n ::
        more[i].key == ops[i].key
        && (ops[i].key == key ==> (more[i].phase == Settled(true) <==> ops[i].phase == Settled(true)))
    ensures Fold(w, more, key, n) == Fold(w, ops, key, n)
  {
    if n > 0 { FoldSame(w, ops, more, key, n - 1); }
  }

  /** Operations on `key` from `m` on that have not succeeded add nothing. */
  lemma {:induction false} FoldSkips<V>(w: Work<V>, ops: seq<Op<V>>, key: string, m: nat, n: nat)
    requires m <= n <= |ops|
    requires forall i | m <= i < n && ops[i].key == key :: ops[i].phase != Settled(true)
    ensures Fold(w, ops, key, n) == Fold(w, ops, key, m)
  {
    if m < n { FoldSkips(w, ops, key, m, n - 1); }
  }

  lemma RunningAlone<V>(s: State<V>, i: nat, j: nat)
    requires StoredAfterSettled(s) && Ordered(s)
    requires i < |s.ops| && j < |s.ops| && s.ops[i].key == s.ops[j].key
    requires s.ops[i].phase.Running? && s.ops[j].phase.Running?
    ensures i == j
  {
    assert i < j ==> Before(s, i, j);
    assert j < i ==> Before(s, j, i);
  }

  lemma FinishFold<V>(w: Work<V>, s: State<V>, i: nat, ok: bool)
    requires StoredAfterSettled(s) && Ordered(s) && Serial(w, s)
    requires Enabled(s, Finish(i, ok))
    ensures var t := Do(w, s, Finish(i, ok));
            ValueOf(w, t, s.ops[i].key) == Fold(w, t.ops, s.ops[i].key, |t.ops|)
  {
    var t, key := Do(w, s, Finish(i, ok)), s.ops[i].key;
    forall j | i < j < |s.ops| && s.ops[j].key == key ensures s.ops[j].phase == Waiting {
      assert Before(s, i, j);
    }
    FoldSame(w, s.ops, t.ops, key, i);
    FoldSkips(w, s.ops, key, i, |s.ops|);
    FoldSkips(w, t.ops, key, i + 1, |t.ops|);
    assert s.ops[i].phase.snapshot == Fold(w, s.ops, key, i);
  }

  lemma FoldStep<V>(w: Work<V>, s: State<V>, e: Event, key: string)
    requires StoredAfterSettled(s) && Ordered(s) && Serial(w, s) && Enabled(s, e)
    ensures ValueOf(w, Do(w, s, e), key) == Fold(w, Do(w, s, e).ops, key, |Do(w, s, e).ops|)
  {
    var t := Do(w, s, e);
    if e.Finish? && s.ops[e.op].key == key {
      FinishFold(w, s, e.op, e.ok);
    } else {
      FoldSame(w, s.ops, t.ops, key, |s.ops|);
    }
  }

  lemma SnapshotsStep<V>(w: Work<V>, s: State<V>, e: Event, i: nat)
    requires StoredAfterSettled(s) && Ordered(s) && Serial(w, s) && Enabled(s, e)
    requires i < |Do(w, s, e).ops| && Do(w, s, e).ops[i].phase.Running?
    ensures Do(w, s, e).ops[i].phase.snapshot == ValueOf(w, Do(w, s, e), Do(w, s, e).ops[i].key)
  {
    match e
    case Finish(k, _) => if s.ops[k].key == s.ops[i].key { RunningAlone(s, i, k); }
    case _ =>
  }

  lemma StepKeeps<V>(w: Work<V>, s: State<V>, e: Event)
    requires Inv(w, s)
    ensures Inv(w, Step(w, s, e))
  {
    if Enabled(s, e) {
      QueuesStep(w, s, e);
      OrderedStep(w, s, e);
      LinkedStep(w, s, e);
      SerialStep(w, s, e);
    }
  }

  lemma LinkedStep<V>(w: Work<V>, s: State<V>, e: Event)
    requires QueuesExact(s) && Linked(s) && Enabled(s, e)
    ensures Linked(Do(w, s, e))
  {
    match e
    case Submit(key) => LinkedSubmit(s, key);
    case _ => LinkedOther(s, Do(w, s, e));
  }

  lemma SerialStep<V>(w: Work<V>, s: State<V>, e: Event)
    requires StoredAfterSettled(s) && Ordered(s) && Serial(w, s) && Enabled(s, e)
    ensures Serial(w, Do(w, s, e))
  {
    var t := Do(w, s, e);
    forall key ensures ValueOf(w, t, key) == Fold(w, t.ops, key, |t.ops|) { FoldStep(w, s, e, key); }
    forall i | 0 <= i < |t.ops| && t.ops[i].phase.Running?
      ensures t.ops[i].phase.snapshot == ValueOf(w, t, t.ops[i].key) { SnapshotsStep(w, s, e, i); }
  }

  lemma {:induction false} RunKeeps<V>(w: Work<V>, events: seq<Event>)
    ensures Inv(w, Run(w, events))
  {
    if events != [] {
      RunKeeps(w, events[..|events| - 1]);
      StepKeeps(w, Run(w, events[..|events| - 1]), events[|events| - 1]);
    }
  }

  // ---------------------------------------------------------------- main results

  /** In every interleaving an operation starts only when every earlier one on its key has settled,
      successfully or not; so two operations on one key never run together. */
  lemma WritesAreSerialised<V>(w: Work<V>, events: seq<Event>, i: nat, j: nat)
    requires i < j < |Run(w, events).ops|
    requires Run(w, events).ops[i].key == Run(w, events).ops[j].key
    requires !Run(w, events).ops[j].phase.Waiting?
    ensures Run(w, events).ops[i].phase.Settled?
  {
    RunKeeps(w, events);
    assert Before(Run(w, events), i, j);
  }

  /** ... and each resource holds the fold of its successful operations in submission order: no
      update is lost. */
  lemma ValueIsFoldOfSuccesses<V>(w: Work<V>, events: seq<Event>, key: string)
    ensures var s := Run(w, events);
            ValueOf(w, s, key) == Fold(w, s.ops, key, |s.ops|)
  {
    RunKeeps(w, events);
  }

  /** A queue entry is removed only when the last operation submitted on its key has settled, and
      with it all of them. */
  lemma QueueRemovedWhenDone<V>(w: Work<V>, events: seq<Event>, i: nat)
    requires i < |Run(w, events).ops|
    requires Run(w, events).ops[i].key !in Run(w, events).queues
    ensures Run(w, events).ops[i].phase.Settled?
  {
    RunKeeps(w, events);
  }

  /** No operation waits for ever on one that is done: the first operation of a key that has not
      settled may start, is running, or has only its own bookkeeping ahead of it. */
  lemma {:induction false} QueueNeverBlocks<V>(w: Work<V>, events: seq<Event>, j: nat)
    requires j < |Run(w, events).ops| && Run(w, events).ops[j].phase.Waiting?
    requires forall i | 0 <= i < j && Run(w, events).ops[i].key == Run(w, events).ops[j].key ::
        Run(w, events).ops[i].stored
    ensures MayStart(Run(w, events), j)
  {
    var s := Run(w, events);
    RunKeeps(w, events);
    if s.ops[j].previous.Some? { assert Before(s, s.ops[j].previous.value, j); }
  }

  // ---------------------------------------------------------------- the store's map

  class Store<V> {
    var writeQueues: map<string, nat>
    var ops: seq<Op<V>>
    var values: map<string, V>

    constructor ()
      ensures Contents() == State(map[], [], map[])
    {
      writeQueues, ops, values := map[], [], map[];
    }

    function Contents(): State<V>
      reads this
    {
      State(writeQueues, ops, values)
    }

    method Enqueue(key: string) returns (current: nat)
      modifies this
      ensures Contents() == WithResourceWrite(old(Contents()), key)
      ensures current == old(|ops|)
    {
      var previous := None;
      if key in writeQueues {
        previous := Some(writeQueues[key]);
      }
      current := |ops|;
      ops := ops + [Op(key, previous, Waiting, false, false)];
      writeQueues := writeQueues[key := current];
    }

    /** The `finally` callback of a stored promise. */
    method AfterStored(w: Work<V>, current: nat)
      requires Enabled(Contents(), Cleanup(current))
      modifies this
      ensures Contents() == Do(w, old(Contents()), Cleanup(current))
    {
      var key := ops[current].key;
      ops := ops[current := ops[current].(cleaned := true)];
      if key in writeQueues && writeQueues[key] == current {
        writeQueues := writeQueues - {key};
      }
    }
  }

  /** An operation that may start comes to an end: it reads, and if it succeeds its effect on what it read
      is the value; then it is settled and stored, and the next in the queue may start. */
  lemma OperationCompletes<V>(w: Work<V>, s: State<V>, i: nat, ok: bool)
    requires MayStart(s, i) && !s.ops[i].stored && !s.ops[i].cleaned
    ensures var key := s.ops[i].key;
            var s1 := Step(w, Step(w, s, Start(i)), Finish(i, ok));
            var s2 := Step(w, s1, StoredSettles(i));
            && s1.ops[i].phase == Settled(ok)
            && s1.values == (if ok then s.values[key := w.effect(i, ValueOf(w, s, key))] else s.values)
            && s2.ops[i].stored && s2.values == s1.values
            && (forall j | 0 <= j < |s.ops| && s.ops[j].previous == Some(i) && s.ops[j].phase.Waiting? && j != i ::
                  MayStart(s2, j))
            && Step(w, s2, Cleanup(i)).ops[i].cleaned
            && Step(w, s2, Cleanup(i)).queues
               == (if key in s.queues && s.queues[key] == i then s.queues - {key} else s.queues)
  {
  }
}
