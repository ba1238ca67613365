/** The request queue of the HTTP client (`createQueue`, `groupQueuedItems`): requests wait for a
    timer, equal reads between two writes are sent once, and every answer is fanned back out. */
module Batcher {
  import opened Sequences
  import opened Options
  import opened Json
  import opened CanonicalText

  datatype DedupeMode = Off | Reads | All

  /** A waiting call: `id` stands for the promise it will settle. */
  datatype Item = Item(id: nat, request: Value)

  datatype Group = Group(request: Value, queued: seq<Item>)

  /** The groups made so far, and where in them the reads since the last write are. */
  datatype Grouping = Grouping(groups: seq<Group>, segment: map<string, nat>)

  datatype Settlement<+A> = Resolved(value: Option<A>) | Rejected(error: string)

  datatype Settled<+A> = Settled(item: Item, outcome: Settlement<A>)

  datatype Reply<+A> = Results(results: seq<A>) | Failed(error: string)

  predicate ShouldDedupe(mode: DedupeMode, safe: Value -> bool, request: Value) {
    mode.All? || (mode.Reads? && safe(request))
  }

  // ---------------------------------------------------------------- grouping

  function AddItem(g: Grouping, item: Item, canDedupe: Value -> bool): Grouping {
    if !canDedupe(item.request) then
      Grouping(g.groups + [Group(item.request, [item])], map[])
    else
      var key := Stringify(item.request);
      if key in g.segment && g.segment[key] < |g.groups| then
        var i := g.segment[key];
        Grouping(g.groups[i := g.groups[i].(queued := g.groups[i].queued + [item])], g.segment)
      else
        Grouping(g.groups + [Group(item.request, [item])], g.segment[key := |g.groups|])
  }

  function Grouped(items: seq<Item>, canDedupe: Value -> bool): Grouping {
    if items == [] then Grouping([], map[])
    else AddItem(Grouped(items[..|items| - 1], canDedupe), items[|items| - 1], canDedupe)
  }

  method GroupQueuedItems(items: seq<Item>, canDedupe: Value -> bool) returns (groups: seq<Group>)
    ensures groups == Grouped(items, canDedupe).groups
  {
    groups := [];
    var readSegment: map<string, nat> := map[];
    for n := 0 to |items|
      invariant Grouping(groups, readSegment) == Grouped(items[..n], canDedupe)
      invariant forall key | key in readSegment :: readSegment[key] < |groups|
    {
      var item := items[n];
      assert items[..n + 1][..n] == items[..n];
      if !canDedupe(item.request) {
        groups := groups + [Group(item.request, [item])];
        readSegment := map[];
        continue;
      }
      var key := Stringify(item.request);
      if key in readSegment {
        var i := readSegment[key];
        groups := groups[i := groups[i].(queued := groups[i].queued + [item])];
      } else {
        readSegment := readSegment[key := |groups|];
        groups := groups + [Group(item.request, [item])];
      }
    }
    assert items[..|items|] == items;
  }

  function Singletons(items: seq<Item>): (r: seq<Group>)
    ensures |r| == |items|
    ensures forall i | 0 <= i < |items| :: r[i] == Group(items[i].request, [items[i]])
  {
    seq(|items|, i requires 0 <= i < |items| => Group(items[i].request, [items[i]]))
  }

  /** The groups a flush sends. */
  function GroupsFor(items: seq<Item>, mode: DedupeMode, safe: Value -> bool): seq<Group> {
    if mode.Off? then Singletons(items)
    else Grouped(items, request => ShouldDedupe(mode, safe, request)).groups
  }

  // ---------------------------------------------------------------- fanning answers out

  /** Every item settles alike. */
  function SettleAll<A>(items: seq<Item>, outcome: Settlement<A>): (r: seq<Settled<A>>)
    ensures |r| == |items|
    ensures forall i | 0 <= i < |items| :: r[i] == Settled(items[i], outcome)
  {
    seq(|items|, i requires 0 <= i < |items| => Settled(items[i], outcome))
  }

  /** Group `i` resolves with `results[i]`, which is undefined when the reply is too short. */
  function FanOut<A>(groups: seq<Group>, results: seq<A>): seq<Settled<A>> {
    if groups == [] then []
    else
      SettleAll(groups[0].queued, Resolved(if results == [] then None else Some(results[0])))
      + FanOut(groups[1..], if results == [] then [] else results[1..])
  }

  function ItemsOf<A>(settled: seq<Settled<A>>): (r: seq<Item>)
    ensures |r| == |settled|
    ensures forall i | 0 <= i < |settled| :: r[i] == settled[i].item
  {
    seq(|settled|, i requires 0 <= i < |settled| => settled[i].item)
  }

  function Queued(groups: seq<Group>): seq<Item> {
    if groups == [] then [] else groups[0].queued + Queued(groups[1..])
  }

  // ---------------------------------------------------------------- the queue

  datatype Batch = Batch(items: seq<Item>, groups: seq<Group>)

  function Waiting(batches: seq<Batch>): seq<Item> {
    if batches == [] then [] else batches[0].items + Waiting(batches[1..])
  }

  ghost predicate Conserved<A>(submitted: seq<Item>, pending: seq<Item>, inflight: seq<Batch>,
                               settled: seq<Settled<A>>) {
    multiset(submitted) == multiset(pending) + multiset(Waiting(inflight)) + multiset(ItemsOf(settled))
  }

  class Queue<A(!new)> {
    const mode: DedupeMode
    const safe: Value -> bool
    var pending: seq<Item>
    var timer: bool
    var inflight: seq<Batch>
    var settled: seq<Settled<A>>
    var submitted: seq<Item>

    /** The timer is armed exactly while calls wait; every call ever made is pending, in a batch
        that has not been answered, or settled once. */
    ghost predicate Valid()
      reads this
    {
      && (timer <==> pending != [])
      && (forall i | 0 <= i < |submitted| :: submitted[i].id == i)
      && (forall b | b in inflight :: b.groups == GroupsFor(b.items, mode, safe))
      && Conserved(submitted, pending, inflight, settled)
    }

    constructor (mode: DedupeMode, safe: Value -> bool)
      ensures Valid()
      ensures this.mode == mode && this.safe == safe
      ensures pending == [] && inflight == [] && settled == [] && submitted == []
    {
      this.mode, this.safe := mode, safe;
      pending, timer, inflight, settled, submitted := [], false, [], [], [];
    }

    method Submit(request: Value) returns (item: Item)
      requires Valid()
      modifies this
      ensures Valid()
      ensures item == Item(old(|submitted|), request) && submitted == old(submitted) + [item]
      ensures pending == old(pending) + [item] && timer
      ensures inflight == old(inflight) && settled == old(settled)
    {
      item := Item(|submitted|, request);
      assert Conserved(submitted + [item], pending + [item], inflight, settled);
      submitted := submitted + [item];
      pending := pending + [item];
      if !timer {
        timer := true;
      }
    }

    /** The timer callback up to the call of `flush`; `requests` is what goes over the wire. */
    method Fire() returns (requests: seq<Value>)
      requires Valid() && timer
      modifies this
      ensures Valid()
      ensures pending == [] && !timer && submitted == old(submitted) && settled == old(settled)
      ensures inflight == old(inflight) + [Batch(old(pending), GroupsFor(old(pending), mode, safe))]
      ensures requests == Requests(GroupsFor(old(pending), mode, safe))
    {
      var items := pending;
      pending := [];
      timer := false;
      var groups;
      if mode == Off {
        groups := Singletons(items);
      } else {
        var m, s := mode, safe;
        groups := GroupQueuedItems(items, request => ShouldDedupe(m, s, request));
      }
      FireConserves(submitted, items, inflight, settled, Batch(items, groups));
      inflight := inflight + [Batch(items, groups)];
      requests := Requests(groups);
    }

    /** The rest of the timer callback, when batch `b` is answered or its request failed. */
    method Answer(b: nat, reply: Reply<A>)
      requires Valid() && b < |inflight|
      modifies this
      ensures Valid()
      ensures pending == old(pending) && timer == old(timer) && submitted == old(submitted)
      ensures inflight == old(inflight)[..b] + old(inflight)[b + 1..]
      ensures old(settled) <= settled && SettledBy(old(inflight)[b], reply, settled[|old(settled)|..])
    {
      var batch := inflight[b];
      OutcomesSettle(batch, reply);
      assert (settled + Outcomes(batch, reply))[|settled|..] == Outcomes(batch, reply);
      AnswerConserves(submitted, pending, inflight, settled, b, mode, safe, reply);
      inflight := inflight[..b] + inflight[b + 1..];
      settled := settled + Outcomes(batch, reply);
    }
  }

  function Requests(groups: seq<Group>): (r: seq<Value>)
    ensures |r| == |groups|
    ensures forall i | 0 <= i < |groups| :: r[i] == groups[i].request
  {
    seq(|groups|, i requires 0 <= i < |groups| => groups[i].request)
  }

  function ItemRequests(items: seq<Item>): (r: seq<Value>)
    ensures |r| == |items|
    ensures forall i | 0 <= i < |items| :: r[i] == items[i].request
  {
    seq(|items|, i requires 0 <= i < |items| => items[i].request)
  }

  function Outcomes<A>(batch: Batch, reply: Reply<A>): seq<Settled<A>> {
    match reply
    case Results(results) => FanOut(batch.groups, results)
    case Failed(error) => SettleAll(batch.items, Rejected(error))
  }

  /** What becomes of the calls of a batch.  When the request failed each of them is rejected with the
      error.  When it was answered each call of group `i` is resolved with result `i`, or with nothing if
      there are fewer results; and none is rejected. */
  ghost predicate SettledBy<A>(batch: Batch, reply: Reply<A>, settled: seq<Settled<A>>) {
    match reply
    case Failed(error) =>
      && |settled| == |batch.items|
      && forall i | 0 <= i < |settled| :: settled[i] == Settled(batch.items[i], Rejected(error))
    case Results(results) =>
      && ItemsOf(settled) == Queued(batch.groups)
      && (forall s | s in settled :: ResolvedInGroup(batch.groups, results, s))
      && forall i | 0 <= i < |batch.groups| :: GroupResolved(batch.groups[i], results, i, settled)
  }

  predicate ResolvedInGroup<A(==)>(groups: seq<Group>, results: seq<A>, s: Settled<A>) {
    exists i | 0 <= i < |groups| :: s.item in groups[i].queued && s.outcome == Resolved(ResultAt(results, i))
  }

  predicate GroupResolved<A(==)>(g: Group, results: seq<A>, i: nat, settled: seq<Settled<A>>) {
    forall item | item in g.queued :: Settled(item, Resolved(ResultAt(results, i))) in settled
  }

  function ResultAt<A>(results: seq<A>, i: nat): Option<A> {
    if i < |results| then Some(results[i]) else None
  }

  lemma OutcomesSettle<A>(batch: Batch, reply: Reply<A>)
    ensures SettledBy(batch, reply, Outcomes(batch, reply))
  {
    match reply
    case Failed(_) =>
    case Results(results) =>
      FanOutItems(batch.groups, results);
      forall s | s in FanOut(batch.groups, results) ensures ResolvedInGroup(batch.groups, results, s) {
        FanOutResolves(batch.groups, results, s);
      }
      forall i | 0 <= i < |batch.groups|
        ensures GroupResolved(batch.groups[i], results, i, FanOut(batch.groups, results))
      {
        FanOutReaches(batch.groups, results, i);
      }
  }

  lemma {:induction false} FanOutResolves<A>(groups: seq<Group>, results: seq<A>, s: Settled<A>)
    requires s in FanOut(groups, results)
    ensures ResolvedInGroup(groups, results, s)
  {
    var rest := if results == [] then [] else results[1..];
    if s in SettleAll(groups[0].queued, Resolved(ResultAt(results, 0))) {
      assert s.item in groups[0].queued;
    } else {
      FanOutResolves(groups[1..], rest, s);
      var i :| 0 <= i < |groups[1..]| && s.item in groups[1..][i].queued && s.outcome == Resolved(ResultAt(rest, i));
      assert s.item in groups[i + 1].queued && ResultAt(results, i + 1) == ResultAt(rest, i);
    }
  }

  lemma {:induction false} FanOutReaches<A>(groups: seq<Group>, results: seq<A>, i: nat)
    requires i < |groups|
    ensures GroupResolved(groups[i], results, i, FanOut(groups, results))
  {
    if i == 0 {
      var first := SettleAll(groups[0].queued, Resolved(ResultAt(results, 0)));
      forall item | item in groups[0].queued ensures Settled(item, Resolved(ResultAt(results, 0))) in first {
        var j :| 0 <= j < |groups[0].queued| && groups[0].queued[j] == item;
        assert first[j] in first;
      }
    } else {
      var rest := if results == [] then [] else results[1..];
      FanOutReaches(groups[1..], rest, i - 1);
      assert ResultAt(results, i) == ResultAt(rest, i - 1);
    }
  }

  // ---------------------------------------------------------------- each call settles once

  lemma {:induction false} WaitingAppend(batches: seq<Batch>, b: Batch)
    ensures Waiting(batches + [b]) == Waiting(batches) + b.items
  {
    if batches == [] {
      assert Waiting([b]) == b.items + Waiting([]);
    } else {
      assert (batches + [b])[1..] == batches[1..] + [b];
      WaitingAppend(batches[1..], b);
    }
  }

  lemma {:induction false} WaitingRemove(batches: seq<Batch>, b: nat)
    requires b < |batches|
    ensures multiset(Waiting(batches)) == multiset(Waiting(batches[..b] + batches[b + 1..]))
        + multiset(batches[b].items)
  {
    var r := batches[..b] + batches[b + 1..];
    if b == 0 {
      assert r == batches[1..];
    } else {
      assert r[1..] == batches[1..][..b - 1] + batches[1..][b..];
      WaitingRemove(batches[1..], b - 1);
    }
  }

  lemma ItemsOfAppend<A>(a: seq<Settled<A>>, b: seq<Settled<A>>)
    ensures ItemsOf(a + b) == ItemsOf(a) + ItemsOf(b)
  {
  }

  lemma {:induction false} FanOutItems<A>(groups: seq<Group>, results: seq<A>)
    ensures ItemsOf(FanOut(groups, results)) == Queued(groups)
  {
    if groups != [] {
      var answer := if results == [] then None else Some(results[0]);
      var rest := if results == [] then [] else results[1..];
      FanOutItems(groups[1..], rest);
      ItemsOfAppend(SettleAll(groups[0].queued, Resolved(answer)), FanOut(groups[1..], rest));
      assert ItemsOf(SettleAll(groups[0].queued, Resolved(answer))) == groups[0].queued;
    }
  }

  lemma {:induction false} QueuedAppend(groups: seq<Group>, g: Group)
    ensures Queued(groups + [g]) == Queued(groups) + g.queued
  {
    if groups == [] {
      assert Queued([g]) == g.queued + Queued([]);
    } else {
      assert (groups + [g])[1..] == groups[1..] + [g];
      QueuedAppend(groups[1..], g);
    }
  }

  lemma {:induction false} QueuedJoin(groups: seq<Group>, i: nat, item: Item)
    requires i < |groups|
    ensures multiset(Queued(groups[i := groups[i].(queued := groups[i].queued + [item])]))
         == multiset(Queued(groups)) + multiset([item])
  {
    var g := groups[i].(queued := groups[i].queued + [item]);
    if i == 0 {
      assert groups[i := g][1..] == groups[1..];
    } else {
      assert groups[i := g][1..] == groups[1..][i - 1 := g];
      QueuedJoin(groups[1..], i - 1, item);
    }
  }

  /** Grouping loses no call and repeats none. */
  lemma {:induction false} GroupingKeepsItems(items: seq<Item>, canDedupe: Value -> bool)
    ensures multiset(Queued(Grouped(items, canDedupe).groups)) == multiset(items)
  {
    if items != [] {
      var n := |items| - 1;
      var g, item := Grouped(items[..n], canDedupe), items[n];
      GroupingKeepsItems(items[..n], canDedupe);
      assert items == items[..n] + [item];
      QueuedAppend(g.groups, Group(item.request, [item]));
      var key := Stringify(item.request);
      if canDedupe(item.request) && key in g.segment && g.segment[key] < |g.groups| {
        QueuedJoin(g.groups, g.segment[key], item);
      }
    }
  }

  lemma {:induction false} SingletonsQueued(items: seq<Item>)
    ensures Queued(Singletons(items)) == items
  {
    if items != [] {
      SingletonsQueued(items[1..]);
      assert Singletons(items)[1..] == Singletons(items[1..]);
    }
  }

  /** Whatever the reply, the calls of a batch are settled once each. */
  lemma OutcomesCoverBatch<A>(batch: Batch, mode: DedupeMode, safe: Value -> bool, reply: Reply<A>)
    requires batch.groups == GroupsFor(batch.items, mode, safe)
    ensures multiset(ItemsOf(Outcomes(batch, reply))) == multiset(batch.items)
  {
    match reply
    case Results(results) =>
      FanOutItems(batch.groups, results);
      if mode.Off? {
        SingletonsQueued(batch.items);
      } else {
        GroupingKeepsItems(batch.items, request => ShouldDedupe(mode, safe, request));
      }
    case Failed(error) =>
      assert ItemsOf(SettleAll<A>(batch.items, Rejected(error))) == batch.items;
  }

  lemma FireConserves<A>(submitted: seq<Item>, pending: seq<Item>, inflight: seq<Batch>, settled: seq<Settled<A>>,
                         b: Batch)
    requires Conserved(submitted, pending, inflight, settled) && b.items == pending
    ensures Conserved(submitted, [], inflight + [b], settled)
  {
    WaitingAppend(inflight, b);
  }

  lemma AnswerConserves<A>(submitted: seq<Item>, pending: seq<Item>, inflight: seq<Batch>, settled: seq<Settled<A>>,
                           b: nat, mode: DedupeMode, safe: Value -> bool, reply: Reply<A>)
    requires Conserved(submitted, pending, inflight, settled)
    requires b < |inflight| && inflight[b].groups == GroupsFor(inflight[b].items, mode, safe)
    ensures Conserved(submitted, pending, inflight[..b] + inflight[b + 1..], settled + Outcomes(inflight[b], reply))
  {
    OutcomesCoverBatch(inflight[b], mode, safe, reply);
    WaitingRemove(inflight, b);
    ItemsOfAppend(settled, Outcomes(inflight[b], reply));
  }

  // ---------------------------------------------------------------- the server

  /** A deterministic server: a request takes a state to the next state and an answer. */
  type Step<!S, A> = (S, Value) -> (S, A)

  /** No key twice, and no array `[undefined]`, which the text takes for `[]`. */
  predicate Sendable(r: Value) {
    WellFormed(r) && NoLoneUndefined(r)
  }

  /** Of the requests `rs`, those that pass for reads change nothing and mean the same under any order of
      their keys.  Nothing is asked of other requests, or of requests nobody makes. */
  ghost predicate Lawful<S(!new), A(!new)>(step: Step<S, A>, safe: Value -> bool, rs: seq<Value>) {
    && (forall s, r | r in rs && safe(r) :: step(s, r).0 == s)
    && (forall s, a, b | a in rs && b in rs && safe(a) && safe(b) && Reordered(a, b) :: step(s, a) == step(s, b))
  }

  /** And they can be told apart by their text. */
  ghost predicate Batchable<S(!new), A(!new)>(step: Step<S, A>, safe: Value -> bool, rs: seq<Value>) {
    Lawful(step, safe, rs) && forall r | r in rs && safe(r) :: Sendable(r)
  }

  lemma BatchableForFewer<S(!new), A(!new)>(step: Step<S, A>, safe: Value -> bool, rs: seq<Value>, fewer: seq<Value>)
    requires Batchable(step, safe, rs) && forall r | r in fewer :: r in rs
    ensures Batchable(step, safe, fewer)
  {
  }

  function StateAfter<S, A>(step: Step<S, A>, s: S, requests: seq<Value>): S {
    if requests == [] then s
    else step(StateAfter(step, s, requests[..|requests| - 1]), requests[|requests| - 1]).0
  }

  /** The answers when the requests run one by one, in order. */
  function Answers<S, A>(step: Step<S, A>, s: S, requests: seq<Value>): (r: seq<A>)
    ensures |r| == |requests|
  {
    if requests == [] then []
    else
      var n := |requests| - 1;
      Answers(step, s, requests[..n]) + [step(StateAfter(step, s, requests[..n]), requests[n]).1]
  }

  lemma RunSnoc<S, A>(step: Step<S, A>, s: S, requests: seq<Value>, r: Value)
    ensures StateAfter(step, s, requests + [r]) == step(StateAfter(step, s, requests), r).0
    ensures Answers(step, s, requests + [r])
         == Answers(step, s, requests) + [step(StateAfter(step, s, requests), r).1]
  {
    assert (requests + [r])[..|requests|] == requests;
  }

  lemma {:induction false} RunConcat<S, A>(step: Step<S, A>, s: S, a: seq<Value>, b: seq<Value>)
    ensures StateAfter(step, s, a + b) == StateAfter(step, StateAfter(step, s, a), b)
    ensures Answers(step, s, a + b) == Answers(step, s, a) + Answers(step, StateAfter(step, s, a), b)
  {
    if b == [] {
      assert a + b == a;
    } else {
      var n := |b| - 1;
      RunConcat(step, s, a, b[..n]);
      assert a + b == (a + b[..n]) + [b[n]];
      RunSnoc(step, s, a + b[..n], b[n]);
    }
  }

  /** Each call with the answer it gets when all of them run one by one. */
  function Expected<S, A>(step: Step<S, A>, s: S, items: seq<Item>): (r: seq<Settled<A>>)
    ensures |r| == |items|
  {
    var answers := Answers(step, s, ItemRequests(items));
    seq(|items|, i requires 0 <= i < |items| => Settled(items[i], Resolved(Some(answers[i]))))
  }

  // ---------------------------------------------------------------- batching preserves meaning

  lemma {:induction false} FanOutSnoc<A>(groups: seq<Group>, results: seq<A>, g: Group, answer: A)
    requires |groups| == |results|
    ensures FanOut(groups + [g], results + [answer])
         == FanOut(groups, results) + SettleAll(g.queued, Resolved(Some(answer)))
  {
    if groups == [] {
      assert FanOut([g], [answer]) == SettleAll(g.queued, Resolved(Some(answer))) + FanOut([], []);
    } else {
      assert (groups + [g])[1..] == groups[1..] + [g];
      assert (results + [answer])[1..] == results[1..] + [answer];
      FanOutSnoc(groups[1..], results[1..], g, answer);
    }
  }

  lemma {:induction false} FanOutJoin<A>(groups: seq<Group>, results: seq<A>, i: nat, item: Item)
    requires |groups| == |results| && i < |groups|
    ensures multiset(FanOut(groups[i := groups[i].(queued := groups[i].queued + [item])], results))
         == multiset(FanOut(groups, results)) + multiset([Settled(item, Resolved(Some(results[i])))])
  {
    var g := groups[i].(queued := groups[i].queued + [item]);
    if i == 0 {
      assert groups[i := g][1..] == groups[1..];
      assert SettleAll(g.queued, Resolved(Some(results[0])))
          == SettleAll(groups[0].queued, Resolved(Some(results[0]))) + [Settled(item, Resolved(Some(results[0])))];
    } else {
      assert groups[i := g][1..] == groups[1..][i - 1 := g];
      FanOutJoin(groups[1..], results[1..], i - 1, item);
    }
  }

  /** What grouping keeps true: the server state agrees, the answers agree, and every read of the
      current segment would be answered now as its group was. */
  ghost predicate Agrees<S(!new), A(!new)>(step: Step<S, A>, safe: Value -> bool, s: S, items: seq<Item>,
                                           g: Grouping) {
    && StateAfter(step, s, Requests(g.groups)) == StateAfter(step, s, ItemRequests(items))
    && AnswersAgree(step, s, items, g.groups)
    && (forall r | r in Requests(g.groups) :: r in ItemRequests(items))
    && forall key | key in g.segment :: Current(step, safe, s, Requests(g.groups), g.segment[key], key)
  }

  ghost predicate AnswersAgree<S(!new), A(!new)>(step: Step<S, A>, s: S, items: seq<Item>, groups: seq<Group>) {
    multiset(FanOut(groups, Answers(step, s, Requests(groups)))) == multiset(Expected(step, s, items))
  }

  /** Request `i`, whose text is `key`, would be answered now as it was answered then. */
  ghost predicate Current<S(!new), A(!new)>(step: Step<S, A>, safe: Value -> bool, s: S, reqs: seq<Value>, i: nat,
                                            key: string) {
    && i < |reqs|
    && safe(reqs[i])
    && Stringify(reqs[i]) == key
    && Answers(step, s, reqs)[i] == step(StateAfter(step, s, reqs), reqs[i]).1
  }

  lemma {:induction false} AppendGroup<S(!new), A(!new)>(step: Step<S, A>, safe: Value -> bool, s: S,
                                                         items: seq<Item>, g: Grouping, item: Item,
                                                         segment: map<string, nat>)
    requires Agrees(step, safe, s, items, g)
    requires forall key | key in segment ::
      Current(step, safe, s, Requests(g.groups) + [item.request], segment[key], key)
    ensures Agrees(step, safe, s, items + [item], Grouping(g.groups + [Group(item.request, [item])], segment))
  {
    RequestsSnoc(g.groups, Group(item.request, [item]));
    ItemRequestsConcat(items, [item]);
    RunSnoc(step, s, Requests(g.groups), item.request);
    RunSnoc(step, s, ItemRequests(items), item.request);
    AppendAnswers(step, s, items, g.groups, item);
  }

  lemma RequestsSnoc(groups: seq<Group>, g: Group)
    ensures Requests(groups + [g]) == Requests(groups) + [g.request]
  {
  }

  lemma ItemRequestsConcat(a: seq<Item>, b: seq<Item>)
    ensures ItemRequests(a + b) == ItemRequests(a) + ItemRequests(b)
    ensures forall item: Item :: b == [item] ==> ItemRequests(b) == [item.request]
  {
  }

  lemma AppendAnswers<S(!new), A(!new)>(step: Step<S, A>, s: S, items: seq<Item>, groups: seq<Group>, item: Item)
    requires AnswersAgree(step, s, items, groups)
    requires StateAfter(step, s, Requests(groups)) == StateAfter(step, s, ItemRequests(items))
    ensures AnswersAgree(step, s, items + [item], groups + [Group(item.request, [item])])
  {
    var group := Group(item.request, [item]);
    var answer := step(StateAfter(step, s, Requests(groups)), item.request).1;
    RequestsSnoc(groups, group);
    RunSnoc(step, s, Requests(groups), item.request);
    FanOutSnoc(groups, Answers(step, s, Requests(groups)), group, answer);
    ExpectedSnoc(step, s, items, item);
    assert SettleAll([item], Resolved(Some(answer))) == [Settled(item, Resolved(Some(answer)))];
  }

  lemma ExpectedConcat<S, A>(step: Step<S, A>, s: S, a: seq<Item>, b: seq<Item>)
    ensures Expected(step, s, a + b) == Expected(step, s, a) + Expected(step, StateAfter(step, s, ItemRequests(a)), b)
  {
    ItemRequestsConcat(a, b);
    RunConcat(step, s, ItemRequests(a), ItemRequests(b));
  }

  lemma ExpectedSnoc<S, A>(step: Step<S, A>, s: S, items: seq<Item>, item: Item)
    ensures Expected(step, s, items + [item]) == Expected(step, s, items)
         + [Settled(item, Resolved(Some(step(StateAfter(step, s, ItemRequests(items)), item.request).1)))]
  {
    ItemRequestsConcat(items, [item]);
    RunSnoc(step, s, ItemRequests(items), item.request);
  }

  lemma JoinGroup<S(!new), A(!new)>(step: Step<S, A>, safe: Value -> bool, s: S, items: seq<Item>, g: Grouping,
                                    item: Item, i: nat)
    requires Agrees(step, safe, s, items, g)
    requires i < |g.groups|
    requires step(StateAfter(step, s, Requests(g.groups)), item.request)
          == (StateAfter(step, s, Requests(g.groups)), Answers(step, s, Requests(g.groups))[i])
    ensures Agrees(step, safe, s, items + [item],
                   Grouping(g.groups[i := g.groups[i].(queued := g.groups[i].queued + [item])], g.segment))
  {
    var reqs := Requests(g.groups);
    var joined := g.groups[i := g.groups[i].(queued := g.groups[i].queued + [item])];
    assert Requests(joined) == reqs;
    ItemRequestsConcat(items, [item]);
    RunSnoc(step, s, ItemRequests(items), item.request);
    FanOutJoin(g.groups, Answers(step, s, reqs), i, item);
    ExpectedSnoc(step, s, items, item);
  }

  /** A safe request gets the answer that the request with its text got. */
  lemma AnsweredAlike<S(!new), A(!new)>(step: Step<S, A>, safe: Value -> bool, s: S, reqs: seq<Value>, i: nat, r: Value)
    requires Batchable(step, safe, reqs + [r]) && safe(r) && Current(step, safe, s, reqs, i, Stringify(r))
    ensures step(StateAfter(step, s, reqs), r) == (StateAfter(step, s, reqs), Answers(step, s, reqs)[i])
  {
    assert reqs[i] in reqs + [r] && r in reqs + [r];
    StringifyIsReordering(r, reqs[i]);
  }

  lemma {:induction false} OpenGroup<S(!new), A(!new)>(step: Step<S, A>, safe: Value -> bool, s: S, items: seq<Item>,
                                                       g: Grouping, item: Item)
    requires Agrees(step, safe, s, items, g) && safe(item.request)
    requires step(StateAfter(step, s, Requests(g.groups)), item.request).0 == StateAfter(step, s, Requests(g.groups))
    ensures Agrees(step, safe, s, items + [item],
                   Grouping(g.groups + [Group(item.request, [item])], g.segment[Stringify(item.request) := |g.groups|]))
  {
    var key, reqs := Stringify(item.request), Requests(g.groups);
    var segment := g.segment[key := |g.groups|];
    RunSnoc(step, s, reqs, item.request);
    forall k | k in segment ensures Current(step, safe, s, reqs + [item.request], segment[k], k) {
      if k != key { assert Current(step, safe, s, reqs, segment[k], k); }
    }
    AppendGroup(step, safe, s, items, g, item, segment);
  }

  /** A safe request joins the group that its text opened. */
  lemma ReadJoins<S(!new), A(!new)>(step: Step<S, A>, safe: Value -> bool, s: S, items: seq<Item>, g: Grouping,
                                    item: Item)
    requires Batchable(step, safe, ItemRequests(items) + [item.request]) && Agrees(step, safe, s, items, g)
    requires safe(item.request) && Stringify(item.request) in g.segment
    ensures Agrees(step, safe, s, items + [item], AddItem(g, item, request => ShouldDedupe(Reads, safe, request)))
  {
    var key, reqs := Stringify(item.request), Requests(g.groups);
    assert Current(step, safe, s, reqs, g.segment[key], key);
    BatchableForFewer(step, safe, ItemRequests(items) + [item.request], reqs + [item.request]);
    AnsweredAlike(step, safe, s, reqs, g.segment[key], item.request);
    JoinGroup(step, safe, s, items, g, item, g.segment[key]);
  }

  lemma {:induction false} ItemAgrees<S(!new), A(!new)>(step: Step<S, A>, safe: Value -> bool, s: S, items: seq<Item>,
                                                        g: Grouping, item: Item)
    requires Batchable(step, safe, ItemRequests(items) + [item.request]) && Agrees(step, safe, s, items, g)
    ensures Agrees(step, safe, s, items + [item], AddItem(g, item, request => ShouldDedupe(Reads, safe, request)))
  {
    if !safe(item.request) {
      AppendGroup(step, safe, s, items, g, item, map[]);
    } else if Stringify(item.request) in g.segment {
      ReadJoins(step, safe, s, items, g, item);
    } else {
      assert item.request in ItemRequests(items) + [item.request];
      OpenGroup(step, safe, s, items, g, item);
    }
  }

  lemma {:induction false} GroupingAgrees<S(!new), A(!new)>(step: Step<S, A>, safe: Value -> bool, s: S,
      items: seq<Item>)
    requires Batchable(step, safe, ItemRequests(items))
    ensures Agrees(step, safe, s, items, Grouped(items, request => ShouldDedupe(Reads, safe, request)))
  {
    if items != [] {
      var n := |items| - 1;
      assert items == items[..n] + [items[n]];
      ItemRequestsConcat(items[..n], [items[n]]);
      BatchableForFewer(step, safe, ItemRequests(items), ItemRequests(items[..n]));
      GroupingAgrees(step, safe, s, items[..n]);
      ItemAgrees(step, safe, s, items[..n], Grouped(items[..n], request => ShouldDedupe(Reads, safe, request)),
          items[n]);
    }
  }

  lemma {:induction false} SingletonsAgree<S(!new), A(!new)>(step: Step<S, A>, safe: Value -> bool, s: S,
                                                             items: seq<Item>)
    ensures Agrees(step, safe, s, items, Grouping(Singletons(items), map[]))
  {
    if items != [] {
      var n := |items| - 1;
      SingletonsAgree(step, safe, s, items[..n]);
      assert items == items[..n] + [items[n]];
      assert Singletons(items) == Singletons(items[..n]) + [Group(items[n].request, [items[n]])];
      AppendGroup(step, safe, s, items[..n], Grouping(Singletons(items[..n]), map[]), items[n], map[]);
    }
  }

  /** One batch: the server ends where running every call in arrival order would leave it, and
      every call is resolved once, with the answer it would have got then. */
  lemma {:induction false} BatchPreservesMeaning<S(!new), A(!new)>(step: Step<S, A>, safe: Value -> bool, s: S,
      items: seq<Item>, mode: DedupeMode)
    requires mode != All
    requires Batchable(step, safe, ItemRequests(items))
    ensures var sent := Requests(GroupsFor(items, mode, safe));
            && StateAfter(step, s, sent) == StateAfter(step, s, ItemRequests(items))
            && multiset(FanOut(GroupsFor(items, mode, safe), Answers(step, s, sent)))
                == multiset(Expected(step, s, items))
  {
    if mode.Off? {
      SingletonsAgree(step, safe, s, items);
    } else {
      GroupingAgrees(step, safe, s, items);
    }
  }

  // ---------------------------------------------------------------- whole runs

  /** Calls arrive; the timer sends what is pending; the server executes the batches under way, in any
      order, since the timer does not wait for the answer to the batch before. */
  datatype Event = Arrive(request: Value) | Send | Execute(batch: nat)

  /** `sent` holds the batches under way, in the order they were sent; `executed` the calls of the
      batches the server has executed, in the order it executed them. */
  datatype World<S, A> = World(server: S, count: nat, pending: seq<Item>, sent: seq<seq<Item>>, executed: seq<Item>,
                               settled: seq<Settled<A>>)

  function Advance<S, A>(step: Step<S, A>, safe: Value -> bool, mode: DedupeMode, w: World<S, A>, e: Event)
    : World<S, A>
  {
    match e
    case Arrive(request) => w.(pending := w.pending + [Item(w.count, request)], count := w.count + 1)
    case Send => if w.pending == [] then w else w.(pending := [], sent := w.sent + [w.pending])
    case Execute(b) =>
      if b >= |w.sent| then w
      else
        var groups := GroupsFor(w.sent[b], mode, safe);
        w.(server := StateAfter(step, w.server, Requests(groups)),
           sent := w.sent[..b] + w.sent[b + 1..],
           executed := w.executed + w.sent[b],
           settled := w.settled + FanOut(groups, Answers(step, w.server, Requests(groups))))
  }

  function Play<S, A>(step: Step<S, A>, safe: Value -> bool, mode: DedupeMode, s: S, events: seq<Event>): World<S, A> {
    if events == [] then World(s, 0, [], [], [], [])
    else Advance(step, safe, mode, Play(step, safe, mode, s, events[..|events| - 1]), events[|events| - 1])
  }

  function Arrivals(events: seq<Event>): seq<Value> {
    if events == [] then []
    else
      var n := |events| - 1;
      Arrivals(events[..n]) + match events[n] case Arrive(request) => [request] case _ => []
  }

  /** The calls of the arrivals, numbered in arrival order. */
  function Calls(arrivals: seq<Value>): seq<Item> {
    seq(|arrivals|, i requires 0 <= i < |arrivals| => Item(i, arrivals[i]))
  }

  function Flat(batches: seq<seq<Item>>): seq<Item> {
    if batches == [] then [] else batches[0] + Flat(batches[1..])
  }

  /** The server executed some calls one by one, and each of them has its answer, once. */
  ghost predicate Sequential<S(!new), A(!new)>(step: Step<S, A>, s: S, executed: seq<Item>, w: World<S, A>) {
    && w.server == StateAfter(step, s, ItemRequests(executed))
    && multiset(w.settled) == multiset(Expected(step, s, executed))
  }

  /** Every call is pending, under way or executed, once. */
  ghost predicate Accounted<S(!new), A(!new)>(arrivals: seq<Value>, w: World<S, A>) {
    && w.count == |arrivals|
    && multiset(w.executed) + multiset(Flat(w.sent)) + multiset(w.pending) == multiset(Calls(arrivals))
  }

  lemma {:induction false} FlatConcat(a: seq<seq<Item>>, b: seq<seq<Item>>)
    ensures Flat(a + b) == Flat(a) + Flat(b)
  {
    if a == [] {
      assert a + b == b;
    } else {
      assert (a + b)[1..] == a[1..] + b;
      FlatConcat(a[1..], b);
      Regroup(a[0], Flat(a[1..]), Flat(b));
    }
  }

  lemma FlatOne(batch: seq<Item>)
    ensures Flat([batch]) == batch
  {
    assert [batch][1..] == [] && batch + [] == batch;
  }

  /** A batch under way, between those sent before it and those sent after it. */
  lemma FlatSplit(batches: seq<seq<Item>>, b: nat)
    requires b < |batches|
    ensures Flat(batches) == Flat(batches[..b]) + (batches[b] + Flat(batches[b + 1..]))
    ensures Flat(batches[..b] + batches[b + 1..]) == Flat(batches[..b]) + Flat(batches[b + 1..])
  {
    var before, one, after := batches[..b], [batches[b]], batches[b + 1..];
    SplitAt(batches, b);
    FlatConcat(before, one + after);
    FlatConcat(one, after);
    FlatConcat(before, after);
    FlatOne(batches[b]);
  }

  lemma CallsSnoc(arrivals: seq<Value>, r: Value)
    ensures Calls(arrivals + [r]) == Calls(arrivals) + [Item(|arrivals|, r)]
  {
  }

  lemma ArriveAccounted<S(!new), A(!new)>(arrivals: seq<Value>, w: World<S, A>, r: Value)
    requires Accounted(arrivals, w)
    ensures Accounted(arrivals + [r], w.(pending := w.pending + [Item(w.count, r)], count := w.count + 1))
  {
    CallsSnoc(arrivals, r);
  }

  lemma SendAccounted<S(!new), A(!new)>(arrivals: seq<Value>, w: World<S, A>)
    requires Accounted(arrivals, w)
    ensures Accounted(arrivals, w.(pending := [], sent := w.sent + [w.pending]))
  {
    FlatConcat(w.sent, [w.pending]);
    FlatOne(w.pending);
  }

  lemma ExecuteAccounted<S(!new), A(!new)>(arrivals: seq<Value>, w: World<S, A>, v: World<S, A>, b: nat)
    requires Accounted(arrivals, w) && b < |w.sent|
    requires v.count == w.count && v.pending == w.pending
    requires v.executed == w.executed + w.sent[b] && v.sent == w.sent[..b] + w.sent[b + 1..]
    ensures Accounted(arrivals, v)
  {
    FlatSplit(w.sent, b);
  }

  lemma {:induction false} RunAccounted<S(!new), A(!new)>(step: Step<S, A>, safe: Value -> bool, mode: DedupeMode, s: S,
                                                          events: seq<Event>)
    ensures Accounted(Arrivals(events), Play(step, safe, mode, s, events))
  {
    if events == [] {
      assert Calls([]) == [];
    } else {
      var n := |events| - 1;
      RunAccounted(step, safe, mode, s, events[..n]);
      var w, arrivals := Play(step, safe, mode, s, events[..n]), Arrivals(events[..n]);
      match events[n]
      case Arrive(r) => ArriveAccounted(arrivals, w, r);
      case Send =>
        assert Arrivals(events) == arrivals;
        SendAccounted(arrivals, w);
      case Execute(b) =>
        assert Arrivals(events) == arrivals;
        if b < |w.sent| { ExecuteAccounted(arrivals, w, Advance(step, safe, mode, w, events[n]), b); }
    }
  }

  /** Whatever is under way are arrivals. */
  lemma BatchArrived<S(!new), A(!new)>(arrivals: seq<Value>, w: World<S, A>, b: nat)
    requires Accounted(arrivals, w) && b < |w.sent|
    ensures forall r | r in ItemRequests(w.sent[b]) :: r in arrivals
  {
    FlatSplit(w.sent, b);
    forall item | item in w.sent[b] ensures item.request in arrivals {
      assert item in Flat(w.sent);
      assert item in multiset(Calls(arrivals));
      var i :| 0 <= i < |Calls(arrivals)| && Calls(arrivals)[i] == item;
      assert arrivals[i] in arrivals;
    }
  }

  lemma {:induction false} ExecuteSequential<S(!new), A(!new)>(step: Step<S, A>, safe: Value -> bool,
                                                               mode: DedupeMode, s: S, w: World<S, A>, b: nat)
    requires mode != All && b < |w.sent| && Batchable(step, safe, ItemRequests(w.sent[b]))
    requires Sequential(step, s, w.executed, w)
    ensures var v := Advance(step, safe, mode, w, Execute(b)); Sequential(step, s, v.executed, v)
  {
    BatchPreservesMeaning(step, safe, w.server, w.sent[b], mode);
    MoreExecuted(step, s, w.executed, w.sent[b]);
  }

  lemma MoreExecuted<S(!new), A(!new)>(step: Step<S, A>, s: S, executed: seq<Item>, batch: seq<Item>)
    ensures var server := StateAfter(step, s, ItemRequests(executed));
            && StateAfter(step, s, ItemRequests(executed + batch)) == StateAfter(step, server, ItemRequests(batch))
            && Expected(step, s, executed + batch) == Expected(step, s, executed) + Expected(step, server, batch)
  {
    ExpectedConcat(step, s, executed, batch);
    ItemRequestsConcat(executed, batch);
    RunConcat(step, s, ItemRequests(executed), ItemRequests(batch));
  }

  /** In every run, with calls arriving, batches sent and batches executed at any moments and in any
      order: the server is where the executed calls leave it when they run one by one, in the order
      their batches were executed and within a batch in arrival order; each has been resolved once,
      with the answer it gets then; and no call is lost or repeated. */
  lemma {:induction false} RunsAreSequential<S(!new), A(!new)>(
      step: Step<S, A>, safe: Value -> bool, mode: DedupeMode, s: S, events: seq<Event>)
    requires mode != All
    requires Batchable(step, safe, Arrivals(events))
    ensures var w := Play(step, safe, mode, s, events);
            Sequential(step, s, w.executed, w) && Accounted(Arrivals(events), w)
  {
    RunAccounted(step, safe, mode, s, events);
    if events == [] {
      assert Expected(step, s, []) == [];
    } else {
      var n := |events| - 1;
      BatchableForFewer(step, safe, Arrivals(events), Arrivals(events[..n]));
      RunsAreSequential(step, safe, mode, s, events[..n]);
      var w := Play(step, safe, mode, s, events[..n]);
      match events[n]
      case Execute(b) =>
        if b < |w.sent| {
          BatchArrived(Arrivals(events[..n]), w, b);
          BatchableForFewer(step, safe, Arrivals(events), ItemRequests(w.sent[b]));
          ExecuteSequential(step, safe, mode, s, w, b);
        }
      case _ =>
    }
  }

  /** At some moment the server executes a batch before one that was sent earlier. */
  ghost predicate Overtakes<S(!new), A(!new)>(step: Step<S, A>, safe: Value -> bool, mode: DedupeMode, s: S,
                                              events: seq<Event>) {
    exists i | 0 <= i < |events| :: OvertakesAt(step, safe, mode, s, events, i)
  }

  ghost predicate OvertakesAt<S(!new), A(!new)>(step: Step<S, A>, safe: Value -> bool, mode: DedupeMode, s: S,
                                                events: seq<Event>, i: nat)
    requires i < |events|
  {
    events[i].Execute? && 0 < events[i].batch < |Play(step, safe, mode, s, events[..i]).sent|
  }

  /** What was executed, what is under way and what is pending are the calls in the order they were
      made. */
  ghost predicate InArrivalOrder<S(!new), A(!new)>(arrivals: seq<Value>, w: World<S, A>) {
    w.executed + (Flat(w.sent) + w.pending) == Calls(arrivals) && w.count == |arrivals|
  }

  lemma {:induction false} AdvanceInOrder<S(!new), A(!new)>(step: Step<S, A>, safe: Value -> bool, mode: DedupeMode,
                                                            arrivals: seq<Value>, w: World<S, A>, e: Event)
    requires InArrivalOrder(arrivals, w) && !(e.Execute? && 0 < e.batch < |w.sent|)
    ensures InArrivalOrder(arrivals + match e case Arrive(request) => [request] case _ => [],
                           Advance(step, safe, mode, w, e))
  {
    match e
    case Arrive(r) =>
      CallsSnoc(arrivals, r);
      Regroup(Flat(w.sent), w.pending, [Item(w.count, r)]);
      Regroup(w.executed, Flat(w.sent) + w.pending, [Item(w.count, r)]);
    case Send =>
      FlatConcat(w.sent, [w.pending]);
      FlatOne(w.pending);
      assert (Flat(w.sent) + w.pending) + [] == Flat(w.sent) + w.pending;
      assert arrivals + [] == arrivals;
    case Execute(b) =>
      assert arrivals + [] == arrivals;
      if b < |w.sent| {
        FlatSplit(w.sent, 0);
        assert Flat(w.sent[..0]) == [] && w.sent[..0] + w.sent[1..] == w.sent[1..];
        assert [] + (w.sent[0] + Flat(w.sent[1..])) == w.sent[0] + Flat(w.sent[1..]);
        Regroup(w.sent[0], Flat(w.sent[1..]), w.pending);
        Regroup(w.executed, w.sent[0], Flat(w.sent[1..]) + w.pending);
      }
  }

  /** Some executed call does not stand where it arrived. */
  ghost predicate OutOfOrder<S(!new), A(!new)>(w: World<S, A>) {
    exists k: nat | k < |w.executed| :: w.executed[k].id != k
  }

  lemma ArrivalOrderIsNumbered<S(!new), A(!new)>(arrivals: seq<Value>, w: World<S, A>)
    requires InArrivalOrder(arrivals, w)
    ensures !OutOfOrder(w)
  {
    forall k: nat | k < |w.executed| ensures w.executed[k].id == k {
      assert w.executed[k] == (w.executed + (Flat(w.sent) + w.pending))[k] == Calls(arrivals)[k];
    }
  }

  /** No batch under way is empty. */
  ghost predicate NoneEmpty(batches: seq<seq<Item>>) {
    forall b | 0 <= b < |batches| :: batches[b] != []
  }

  lemma {:induction false} FlatBefore(batches: seq<seq<Item>>, b: nat)
    requires NoneEmpty(batches) && 0 < b < |batches|
    ensures exists i | 0 < i < |Flat(batches)| :: Flat(batches)[i] == batches[b][0]
  {
    FlatSplit(batches, b);
    assert Flat(batches[..b]) == batches[..b][0] + Flat(batches[..b][1..]);
    var i := |Flat(batches[..b])|;
    assert Flat(batches)[i] == batches[b][0];
  }

  /** A batch that overtakes puts its first call where another call arrived. */
  lemma OvertakingBreaks<S(!new), A(!new)>(step: Step<S, A>, safe: Value -> bool, mode: DedupeMode,
                                           arrivals: seq<Value>, w: World<S, A>, b: nat)
    requires InArrivalOrder(arrivals, w) && NoneEmpty(w.sent) && 0 < b < |w.sent|
    ensures OutOfOrder(Advance(step, safe, mode, w, Execute(b)))
  {
    FlatBefore(w.sent, b);
    var i :| 0 < i < |Flat(w.sent)| && Flat(w.sent)[i] == w.sent[b][0];
    var k := |w.executed|;
    assert (w.executed + (Flat(w.sent) + w.pending))[k + i] == Flat(w.sent)[i];
    assert Calls(arrivals)[k + i].id == k + i;
    assert Advance(step, safe, mode, w, Execute(b)).executed[k].id == k + i;
  }

  lemma StaysOutOfOrder<S(!new), A(!new)>(step: Step<S, A>, safe: Value -> bool, mode: DedupeMode, w: World<S, A>,
                                          e: Event)
    requires OutOfOrder(w)
    ensures OutOfOrder(Advance(step, safe, mode, w, e))
  {
    var k: nat :| k < |w.executed| && w.executed[k].id != k;
    assert Advance(step, safe, mode, w, e).executed[k] == w.executed[k];
  }

  lemma AdvanceNoneEmpty<S(!new), A(!new)>(step: Step<S, A>, safe: Value -> bool, mode: DedupeMode, w: World<S, A>,
                                           e: Event)
    requires NoneEmpty(w.sent)
    ensures NoneEmpty(Advance(step, safe, mode, w, e).sent)
  {
  }

  lemma {:induction false} SentNoneEmpty<S(!new), A(!new)>(step: Step<S, A>, safe: Value -> bool, mode: DedupeMode,
                                                           s: S, events: seq<Event>)
    ensures NoneEmpty(Play(step, safe, mode, s, events).sent)
  {
    if events != [] {
      var n := |events| - 1;
      SentNoneEmpty(step, safe, mode, s, events[..n]);
      AdvanceNoneEmpty(step, safe, mode, Play(step, safe, mode, s, events[..n]), events[n]);
    }
  }

  lemma {:induction false} OrderOfRun<S(!new), A(!new)>(step: Step<S, A>, safe: Value -> bool, mode: DedupeMode, s: S,
                                                        events: seq<Event>)
    ensures var w := Play(step, safe, mode, s, events);
            if Overtakes(step, safe, mode, s, events) then OutOfOrder(w) else InArrivalOrder(Arrivals(events), w)
  {
    if events == [] {
      assert Calls([]) == [];
    } else {
      var n := |events| - 1;
      var before := events[..n];
      var w := Play(step, safe, mode, s, before);
      OrderOfRun(step, safe, mode, s, before);
      OvertakesSnoc(step, safe, mode, s, events);
      if Overtakes(step, safe, mode, s, before) {
        StaysOutOfOrder(step, safe, mode, w, events[n]);
      } else if OvertakesAt(step, safe, mode, s, events, n) {
        SentNoneEmpty(step, safe, mode, s, before);
        OvertakingBreaks(step, safe, mode, Arrivals(before), w, events[n].batch);
      } else {
        AdvanceInOrder(step, safe, mode, Arrivals(before), w, events[n]);
      }
    }
  }

  lemma OvertakesSnoc<S(!new), A(!new)>(step: Step<S, A>, safe: Value -> bool, mode: DedupeMode, s: S,
                                        events: seq<Event>)
    requires events != []
    ensures Overtakes(step, safe, mode, s, events)
       <==> Overtakes(step, safe, mode, s, events[..|events| - 1])
            || OvertakesAt(step, safe, mode, s, events, |events| - 1)
  {
    var before := events[..|events| - 1];
    forall i | 0 <= i < |before|
      ensures OvertakesAt(step, safe, mode, s, before, i) <==> OvertakesAt(step, safe, mode, s, events, i)
    {
      assert before[..i] == events[..i];
    }
  }

  /** The order of execution is the order of arrival exactly in the runs in which no batch overtakes
      another. */
  lemma InOrderIsArrivalOrder<S(!new), A(!new)>(step: Step<S, A>, safe: Value -> bool, mode: DedupeMode, s: S,
                                                events: seq<Event>)
    ensures InArrivalOrder(Arrivals(events), Play(step, safe, mode, s, events))
       <==> !Overtakes(step, safe, mode, s, events)
  {
    OrderOfRun(step, safe, mode, s, events);
    var w := Play(step, safe, mode, s, events);
    if InArrivalOrder(Arrivals(events), w) { ArrivalOrderIsNumbered(Arrivals(events), w); }
  }

  lemma PlaySnoc<S(!new), A(!new)>(step: Step<S, A>, safe: Value -> bool, mode: DedupeMode, s: S, events: seq<Event>,
                                   e: Event)
    ensures Play(step, safe, mode, s, events + [e]) == Advance(step, safe, mode, Play(step, safe, mode, s, events), e)
  {
    assert (events + [e])[..|events|] == events;
  }

  /** Two calls, each sent in a batch of its own. */
  lemma TwoSent<S(!new), A(!new)>(step: Step<S, A>, safe: Value -> bool, mode: DedupeMode, s: S, first: Value,
                                  second: Value)
    ensures var w := Play(step, safe, mode, s, [Arrive(first), Send, Arrive(second), Send]);
            w.sent == [[Item(0, first)], [Item(1, second)]] && w.pending == [] && w.executed == []
  {
    var es := [Arrive(first), Send, Arrive(second), Send];
    PlaySnoc(step, safe, mode, s, [], es[0]);
    PlaySnoc(step, safe, mode, s, [es[0]], es[1]);
    PlaySnoc(step, safe, mode, s, [es[0], es[1]], es[2]);
    PlaySnoc(step, safe, mode, s, [es[0], es[1], es[2]], es[3]);
    assert [] + [es[0]] == [es[0]] && [es[0]] + [es[1]] == [es[0], es[1]];
    assert [es[0], es[1]] + [es[2]] == [es[0], es[1], es[2]] && [es[0], es[1], es[2]] + [es[3]] == es;
    var a, b := [Item(0, first)], [Item(1, second)];
    assert [] + a == a && [] + b == b && [] + [a] == [a] && [a] + [b] == [a, b];
    assert Play(step, safe, mode, s, [es[0]]) == World(s, 1, a, [], [], []);
    assert Play(step, safe, mode, s, [es[0], es[1]]) == World(s, 1, [], [a], [], []);
    assert Play(step, safe, mode, s, [es[0], es[1], es[2]]) == World(s, 2, b, [a], [], []);
  }

  lemma SecondFirst<S(!new), A(!new)>(step: Step<S, A>, safe: Value -> bool, mode: DedupeMode, s: S, first: Value,
                                      second: Value)
    ensures Play(step, safe, mode, s, [Arrive(first), Send, Arrive(second), Send] + [Execute(1)]
        + [Execute(0)]).executed
         == [Item(1, second), Item(0, first)]
  {
    TwoSent(step, safe, mode, s, first, second);
    SecondThenFirst(step, safe, mode, s, [Arrive(first), Send, Arrive(second), Send], [Item(0, first)],
                    [Item(1, second)]);
  }

  lemma SecondThenFirst<S(!new), A(!new)>(step: Step<S, A>, safe: Value -> bool, mode: DedupeMode, s: S,
                                          events: seq<Event>, first: seq<Item>, second: seq<Item>)
    requires Play(step, safe, mode, s, events).sent == [first, second]
    ensures Play(step, safe, mode, s, events + [Execute(1)] + [Execute(0)]).executed
         == Play(step, safe, mode, s, events).executed + second + first
  {
    PlaySnoc(step, safe, mode, s, events, Execute(1));
    PlaySnoc(step, safe, mode, s, events + [Execute(1)], Execute(0));
    assert Advance(step, safe, mode, Play(step, safe, mode, s, events), Execute(1)).sent == [first];
  }

  /** When the second of two batches overtakes the first, the server executes the second call first. */
  lemma BatchesCanOvertake<S(!new), A(!new)>(step: Step<S, A>, safe: Value -> bool, mode: DedupeMode, s: S,
                                             first: Value, second: Value)
    requires mode != All && Batchable(step, safe, [first, second])
    ensures var events := [Arrive(first), Send, Arrive(second), Send] + [Execute(1)] + [Execute(0)];
            Play(step, safe, mode, s, events).server == StateAfter(step, s, [second, first])
  {
    var events := [Arrive(first), Send, Arrive(second), Send] + [Execute(1)] + [Execute(0)];
    SecondFirst(step, safe, mode, s, first, second);
    assert ItemRequests([Item(1, second), Item(0, first)]) == [second, first];
    ArrivalsOfTwo(first, second);
    RunsAreSequential(step, safe, mode, s, events);
  }

  lemma ArrivalsOfTwo(first: Value, second: Value)
    ensures Arrivals([Arrive(first), Send, Arrive(second), Send] + [Execute(1)] + [Execute(0)]) == [first, second]
  {
    var a, b := Arrive(first), Arrive(second);
    var events := [a, Send, b, Send] + [Execute(1)] + [Execute(0)];
    assert events[..5][..4] == [a, Send, b, Send] && [a, Send, b, Send][..3] == [a, Send, b];
    assert [a, Send, b][..2] == [a, Send] && [a, Send][..1] == [a] && [a][..0] == [];
    assert Arrivals([a]) == [first];
    assert Arrivals([a, Send, b]) == [first] + [second];
    assert Arrivals(events) == Arrivals(events[..5]) + [] == Arrivals([a, Send, b, Send]) + [] + [];
  }

  /** A request that passes for a read and is queued twice makes one group. */
  lemma MergedTwice(r: Value, safe: Value -> bool)
    requires safe(r)
    ensures var items := [Item(0, r), Item(1, r)];
            GroupsFor(items, Reads, safe) == [Group(r, items)] && Requests(GroupsFor(items, Reads, safe)) == [r]
  {
    var items := [Item(0, r), Item(1, r)];
    var canDedupe := request => ShouldDedupe(Reads, safe, request);
    var one := Group(r, [items[0]]);
    assert items[..1] == [items[0]] && items[..1][..0] == [];
    assert Grouped(items[..1], canDedupe) == AddItem(Grouped([], canDedupe), items[0], canDedupe);
    assert [] + [one] == [one] && one.queued + [items[1]] == items;
    assert Grouped(items[..1], canDedupe) == Grouping([one], map[Stringify(r) := 0]);
    assert [one][0 := one.(queued := items)] == [Group(r, items)];
  }

  /** With `dedupe: 'all'` two equal writes become one: a counter counts once. */
  lemma DedupeAllMergesWrites()
    ensures var step: Step<int, int> := (s: int, r: Value) => (s + 1, s + 1);
            var safe := (r: Value) => false;
            var items := [Item(0, Null), Item(1, Null)];
            && Lawful(step, safe, ItemRequests(items))
            && StateAfter(step, 0, Requests(GroupsFor(items, All, safe))) == 1
            && StateAfter(step, 0, ItemRequests(items)) == 2
  {
    var step: Step<int, int> := (s: int, r: Value) => (s + 1, s + 1);
    var safe := (r: Value) => false;
    var items := [Item(0, Null), Item(1, Null)];
    var canDedupe := request => ShouldDedupe(All, safe, request);
    assert items[..1] == [Item(0, Null)] && items[..1][..0] == [];
    assert Grouped([], canDedupe) == Grouping([], map[]);
    assert Grouped(items[..1], canDedupe) == Grouping([Group(Null, [Item(0, Null)])], map["null" := 0]);
    var one := Group(Null, [Item(0, Null)]);
    assert Grouped(items, canDedupe) == AddItem(Grouped(items[..1], canDedupe), items[1], canDedupe);
    assert one.queued + [items[1]] == items;
    assert [one][0 := one.(queued := one.queued + [items[1]])] == [Group(Null, items)];
    assert Requests(Grouped(items, canDedupe).groups) == [Null];
    assert [Null][..0] == [];
    assert ItemRequests(items) == [Null, Null];
    assert [Null, Null][..1] == [Null];
    assert StateAfter(step, 0, [Null]) == 1;
  }

  /** The text takes `[undefined]` for `[]`, so two requests that differ by that are merged, although a
      server that changes nothing and cares about no order of keys can tell them apart. */
  lemma UndefinedItemIsMerged()
    ensures var step: Step<int, int> := (s: int, r: Value) => (s, if r.Arr? then |r.items| else 0);
            var safe := (r: Value) => true;
            var items := [Item(0, Arr([Undefined])), Item(1, Arr([]))];
            && Lawful(step, safe, ItemRequests(items))
            && GroupsFor(items, Reads, safe) == [Group(Arr([Undefined]), items)]
            && Answers(step, 0, ItemRequests(items))[1] != Answers(step, 0, [Arr([Undefined])])[0]
  {
    var step: Step<int, int> := (s: int, r: Value) => (s, if r.Arr? then |r.items| else 0);
    var safe := (r: Value) => true;
    var items := [Item(0, Arr([Undefined])), Item(1, Arr([]))];
    var canDedupe := request => ShouldDedupe(Reads, safe, request);
    UndefinedItemIsLost();
    assert items[..1] == [items[0]] && items[..1][..0] == [];
    var key := Stringify(Arr([]));
    assert Grouped(items[..1], canDedupe) == AddItem(Grouped([], canDedupe), items[0], canDedupe);
    var one := Group(items[0].request, [items[0]]);
    assert [] + [one] == [one];
    assert Grouped(items[..1], canDedupe) == Grouping([one], map[key := 0]);
    assert one.queued + [items[1]] == items;
    assert one.(queued := one.queued + [items[1]]) == Group(Arr([Undefined]), items);
    assert [one][0 := one.(queued := one.queued + [items[1]])] == [Group(Arr([Undefined]), items)];
    assert ItemRequests(items) == [Arr([Undefined]), Arr([])];
    assert [Arr([Undefined]), Arr([])][..1] == [Arr([Undefined])];
  }
}
