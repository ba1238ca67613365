/** How old the data of a cached entry is: the cache and the shared fetches in one run, with every
    store tied to the network call it continues and to the moment that call was sent. */
module FetchedData {
  import opened JsText
  import opened Options
  import opened Json
  import opened EntityStore
  import opened ClientCache
  import opened SharedFetch

  /** What a network call answers with. */
  datatype Answer = RestAnswer(status: int, result: seq<Field>) | GraphqlAnswer(result: seq<Field>)

  /** `Shared`: a step of the fetch protocol.  `Continue`: a reader that was given the outcome goes on
      to `writeResult`, with the target its request has in the manifest.  `Change`: anything else
      that changes the cache. */
  datatype Event =
    | Shared(step: SharedFetch.Event<Answer>)
    | Continue(reader: nat, target: Option<Resource>)
    | Change(op: Op)

  /** When the data of an entry was requested, and when it was stored. */
  datatype Origin = Origin(requested: nat, stored: nat)

  /** `sent` says when each call was sent, `asked` when each reader asked, `done` which readers have
      gone on. */
  datatype World = World(fetches: State<Answer>, sent: seq<nat>, asked: seq<nat>, done: set<nat>,
                         cache: Cache, origins: map<string, Origin>)

  const START := World(State(map[], [], []), [], [], {}, EMPTY, map[])

  function StoreOp(key: string, target: Option<Resource>, answer: Answer): Op {
    match answer
    case RestAnswer(status, result) => StoreRest(key, target, status, result)
    case GraphqlAnswer(result) => StoreGraphql(key, result)
  }

  /** The reader has an answer to store. */
  predicate MayContinue(w: World, i: nat) {
    && i < |w.fetches.callers| && i !in w.done
    && w.fetches.callers[i].got.Some? && w.fetches.callers[i].got.value.Fulfilled?
    && w.fetches.callers[i].call < |w.sent|
  }

  /** Event number `now`; one that cannot happen changes nothing. */
  function Advance(policy: WritePolicy, w: World, e: Event, now: nat): World {
    match e
    case Shared(step) =>
      var next := SharedFetch.Step(w.fetches, step);
      w.(fetches := next,
         sent := if |next.calls| > |w.fetches.calls| then w.sent + [now] else w.sent,
         asked := if |next.callers| > |w.fetches.callers| then w.asked + [now] else w.asked)
    case Continue(i, target) =>
      if !MayContinue(w, i) then w
      else
        var caller := w.fetches.callers[i];
        var op := StoreOp(caller.key, target, caller.got.value.value);
        w.(done := w.done + {i},
           cache := ClientCache.Step(policy, w.cache, op),
           origins := if Stores(op, caller.key) then w.origins[caller.key := Origin(w.sent[caller.call], now)]
                      else w.origins)
    case Change(op) => if op.StoreRest? || op.StoreGraphql? then w
        else w.(cache := ClientCache.Step(policy, w.cache, op))
  }

  function Play(policy: WritePolicy, events: seq<Event>): World {
    if events == [] then START
    else
      var n := |events| - 1;
      Advance(policy, Play(policy, events[..n]), events[n], n)
  }

  /** Event `j` tells the cache that `r` has changed. */
  predicate WriteAt(policy: WritePolicy, events: seq<Event>, j: nat, r: string)
    requires j < |events|
  {
    events[j].Change? && WritesOn(policy, Play(policy, events[..j]).cache, events[j].op, r)
  }

  /** No write on `r` was recorded after event `from` and before event `to`. */
  ghost predicate Quiet(policy: WritePolicy, events: seq<Event>, r: string, from: nat, to: nat) {
    to <= |events| && forall j: nat | from < j < to :: !WriteAt(policy, events, j, r)
  }

  // ---------------------------------------------------------------- what every run keeps

  ghost predicate Timed(w: World, now: nat) {
    && |w.sent| == |w.fetches.calls| && |w.asked| == |w.fetches.callers|
    && (forall c | 0 <= c < |w.sent| :: w.sent[c] < now)
    && EntriesTimed(w.cache, w.origins, now)
  }

  ghost predicate EntriesTimed(c: Cache, origins: map<string, Origin>, now: nat) {
    forall key | key in c.queries ::
      && key in origins && origins[key].requested < origins[key].stored < now
      && c.queries[key].lists <= c.queries[key].resources
  }

  lemma SharedTimed(policy: WritePolicy, w: World, step: SharedFetch.Event<Answer>, now: nat)
    requires Timed(w, now)
    ensures Timed(Advance(policy, w, Shared(step), now), now + 1)
  {
  }

  /** A cache step keeps the invariant of entries, given that what it stores has an origin. */
  lemma StoreTimed(policy: WritePolicy, w: World, i: nat, target: Option<Resource>, now: nat)
    requires Timed(w, now) && MayContinue(w, i)
    ensures Timed(Advance(policy, w, Continue(i, target), now), now + 1)
  {
    var caller := w.fetches.callers[i];
    var op := StoreOp(caller.key, target, caller.got.value.value);
    match op
    case StoreRest(_, t, _, result) => BodyListsAreResources(w.cache.manifest.types, t, Get(result, "body"));
    case StoreGraphql(_, result) => DataListsAreResources(w.cache.manifest, RootFields(Get(result, "data")));
  }

  /** What is no store makes entries stale or forgets them, and changes nothing else about them. */
  lemma ChangeKeepsSets(policy: WritePolicy, c: Cache, op: Op, key: string)
    requires !op.StoreRest? && !op.StoreGraphql? && key in ClientCache.Step(policy, c, op).queries
    ensures key in c.queries
    ensures ClientCache.Step(policy, c, op).queries[key].lists == c.queries[key].lists
    ensures ClientCache.Step(policy, c, op).queries[key].resources == c.queries[key].resources
  {
  }

  lemma ChangeTimed(policy: WritePolicy, w: World, op: Op, now: nat)
    requires Timed(w, now)
    ensures Timed(Advance(policy, w, Change(op), now), now + 1)
  {
    if !op.StoreRest? && !op.StoreGraphql? {
      var next := ClientCache.Step(policy, w.cache, op);
      forall key | key in next.queries ensures key in w.cache.queries
        && next.queries[key].lists == w.cache.queries[key].lists
        && next.queries[key].resources == w.cache.queries[key].resources { ChangeKeepsSets(policy, w.cache, op, key); }
      assert EntriesTimed(next, w.origins, now + 1);
    }
  }

  lemma {:induction false} RunTimed(policy: WritePolicy, events: seq<Event>)
    ensures Timed(Play(policy, events), |events|)
  {
    if events != [] {
      var n := |events| - 1;
      RunTimed(policy, events[..n]);
      var w := Play(policy, events[..n]);
      match events[n]
      case Shared(step) => SharedTimed(policy, w, step, n);
      case Continue(i, target) => if MayContinue(w, i) { StoreTimed(policy, w, i, target, n); }
      case Change(op) => ChangeTimed(policy, w, op, n);
    }
  }

  // ---------------------------------------------------------------- the age of the data

  lemma QuietLonger(policy: WritePolicy, events: seq<Event>, r: string, from: nat)
    requires events != [] && Quiet(policy, events[..|events| - 1], r, from, |events| - 1)
    requires !WriteAt(policy, events, |events| - 1, r)
    ensures Quiet(policy, events, r, from, |events|)
  {
    var before := events[..|events| - 1];
    forall j: nat | from < j < |events| ensures !WriteAt(policy, events, j, r) {
      if j < |before| {
        assert !WriteAt(policy, before, j, r);
        assert before[..j] == events[..j];
      }
    }
  }

  /** In every run a fresh entry that lists `r` was stored, by a reader that was given the answer of
      a call sent before, after the last recorded write on `r`. */
  lemma {:induction false} StoredAfterWrites(policy: WritePolicy, events: seq<Event>, key: string, r: string)
    requires key in Play(policy, events).cache.queries
    requires !Play(policy, events).cache.queries[key].stale && r in Play(policy, events).cache.queries[key].lists
    ensures var w := Play(policy, events);
            && key in w.origins && w.origins[key].requested < w.origins[key].stored < |events|
            && Quiet(policy, events, r, w.origins[key].stored, |events|)
  {
    RunTimed(policy, events);
    var n := |events| - 1;
    var before := events[..n];
    var u := Play(policy, before);
    RunTimed(policy, before);
    match events[n]
    case Shared(_) =>
      StoredAfterWrites(policy, before, key, r);
      QuietLonger(policy, events, r, u.origins[key].stored);
    case Continue(i, target) =>
      if MayContinue(u, i) {
        var op := StoreOp(u.fetches.callers[i].key, target, u.fetches.callers[i].got.value.value);
        FreshStep(policy, u.cache, op, key);
        if !Stores(op, key) {
          StoredAfterWrites(policy, before, key, r);
          QuietLonger(policy, events, r, u.origins[key].stored);
        }
      } else {
        StoredAfterWrites(policy, before, key, r);
        QuietLonger(policy, events, r, u.origins[key].stored);
      }
    case Change(op) =>
      if op.StoreRest? || op.StoreGraphql? {
        assert !WritesOn(policy, u.cache, op, r);
      } else {
        FreshStep(policy, u.cache, op, key);
      }
      StoredAfterWrites(policy, before, key, r);
      QuietLonger(policy, events, r, u.origins[key].stored);
  }

  /** In every run the data of a fresh entry that lists `r` was requested after the last recorded
      write on `r` exactly when no write on `r` was recorded while its call was under way. */
  lemma DataFollowsWrites(policy: WritePolicy, events: seq<Event>, key: string, r: string)
    requires key in Play(policy, events).cache.queries
    requires !Play(policy, events).cache.queries[key].stale && r in Play(policy, events).cache.queries[key].lists
    ensures var w := Play(policy, events);
            && key in w.origins && w.origins[key].requested < w.origins[key].stored < |events|
            && (Quiet(policy, events, r, w.origins[key].requested, |events|)
                <==> Quiet(policy, events, r, w.origins[key].requested, w.origins[key].stored))
  {
    StoredAfterWrites(policy, events, key, r);
    var o := Play(policy, events).origins[key];
    forall j: nat | o.requested < j < |events| && Quiet(policy, events, r, o.requested, o.stored)
      ensures !WriteAt(policy, events, j, r)
    {
      if j == o.stored { StoredByReader(policy, events, key); }
    }
  }

  /** The event that stored an entry is a reader going on, not a write. */
  lemma {:induction false} StoredByReader(policy: WritePolicy, events: seq<Event>, key: string)
    requires key in Play(policy, events).origins
    ensures Play(policy, events).origins[key].stored < |events|
    ensures events[Play(policy, events).origins[key].stored].Continue?
  {
    var n := |events| - 1;
    if key in Play(policy, events[..n]).origins && Play(policy, events).origins[key]
        == Play(policy, events[..n]).origins[key] {
      StoredByReader(policy, events[..n], key);
    }
  }

  // ---------------------------------------------------------------- readers and the calls they join

  ghost predicate AskedAfterSent(w: World, now: nat) {
    && |w.sent| == |w.fetches.calls| && |w.asked| == |w.fetches.callers|
    && (forall c | 0 <= c < |w.sent| :: w.sent[c] < now)
    && forall i | 0 <= i < |w.asked| :: w.fetches.callers[i].call < |w.sent|
        && w.sent[w.fetches.callers[i].call] <= w.asked[i]
  }

  lemma SharedAsked(policy: WritePolicy, w: World, step: SharedFetch.Event<Answer>, now: nat)
    requires AskedAfterSent(w, now) && InflightExact(w.fetches)
    ensures AskedAfterSent(Advance(policy, w, Shared(step), now), now + 1)
  {
  }

  lemma {:induction false} RunAsked(policy: WritePolicy, events: seq<Event>)
    ensures AskedAfterSent(Play(policy, events), |events|)
  {
    if events != [] {
      var n := |events| - 1;
      RunAsked(policy, events[..n]);
      InflightCalls(policy, events[..n]);
      match events[n]
      case Shared(step) => SharedAsked(policy, Play(policy, events[..n]), step, n);
      case _ =>
    }
  }

  lemma {:induction false} InflightCalls(policy: WritePolicy, events: seq<Event>)
    ensures Inv(Play(policy, events).fetches)
  {
    if events != [] {
      var n := |events| - 1;
      InflightCalls(policy, events[..n]);
      match events[n]
      case Shared(step) => StepKeepsInv(Play(policy, events[..n]).fetches, step);
      case _ =>
    }
  }

  /** A read gets data requested when it was made, and not before, exactly when no call for its key is
      under way at that moment. */
  lemma ReadOwnsItsCall(policy: WritePolicy, events: seq<Event>, key: string)
    ensures var u := Play(policy, events);
            var w := Play(policy, events + [Shared(Ask(key))]);
            var reader := |u.fetches.callers|;
            && |w.fetches.callers| == reader + 1 == |w.asked| && w.asked[reader] == |events|
            && w.fetches.callers[reader].call < |w.sent| && w.sent[w.fetches.callers[reader].call] <= |events|
            && (w.sent[w.fetches.callers[reader].call] == |events| <==> key !in u.fetches.inflight)
  {
    var all := events + [Shared(Ask(key))];
    assert all[..|events|] == events;
    RunAsked(policy, events);
    InflightCalls(policy, events);
  }

  // ---------------------------------------------------------------- two runs in which the data is older

  lemma PlaySnoc(policy: WritePolicy, events: seq<Event>, e: Event)
    ensures Play(policy, events + [e]) == Advance(policy, Play(policy, events), e, |events|)
  {
    assert (events + [e])[..|events|] == events;
  }

  /** Call 0 is answered with a list, and its reader number `reader` goes on. */
  function Arrival(reader: nat, users: Resource, body: Value): seq<Event> {
    [Shared(NetworkSettles(0, Fulfilled(RestAnswer(200, [Field("body", body)])))),
     Shared(FinallyRuns(0)),
     Shared(Deliver(reader)),
     Continue(reader, Some(users))]
  }

  /** Call 0 for the key `k` is under way since event 0, and `reader` waits for it. */
  ghost predicate Waits(w: World, reader: nat) {
    && |w.fetches.calls| == |w.sent| == 1 && w.sent[0] == 0 && w.fetches.calls[0] == Call("k", Option.None, false)
    && reader < |w.fetches.callers| && w.fetches.callers[reader] == Caller("k", 0, Option.None) && reader !in w.done
  }

  lemma Arrived(policy: WritePolicy, events: seq<Event>, reader: nat, users: Resource, body: Value)
    requires Waits(Play(policy, events), reader) && users.kind.Collection? && body.Arr?
    ensures var w := Play(policy, events + Arrival(reader, users, body));
            && "k" in w.cache.queries && !w.cache.queries["k"].stale && users.name in w.cache.queries["k"].lists
            && "k" in w.origins && w.origins["k"].requested == 0 && w.asked == Play(policy, events).asked
  {
    var w0, es := Play(policy, events), Arrival(reader, users, body);
    var w1 := Advance(policy, w0, es[0], |events|);
    var w2 := Advance(policy, w1, es[1], |events| + 1);
    var w3 := Advance(policy, w2, es[2], |events| + 2);
    PlaySnoc(policy, events, es[0]);
    PlaySnoc(policy, events + [es[0]], es[1]);
    PlaySnoc(policy, (events + [es[0]]) + [es[1]], es[2]);
    PlaySnoc(policy, ((events + [es[0]]) + [es[1]]) + [es[2]], es[3]);
    assert (((events + [es[0]]) + [es[1]]) + [es[2]]) + [es[3]] == events + es;
    assert w3.fetches.callers[reader] == Caller("k", 0, Some(Fulfilled(RestAnswer(200, [Field("body", body)]))));
    ListStored(policy, w3.cache, users, body);
  }

  lemma ListStored(policy: WritePolicy, c: Cache, users: Resource, body: Value)
    requires users.kind.Collection? && body.Arr?
    ensures var d := ClientCache.Step(policy, c, StoreRest("k", Some(users), 200, [Field("body", body)]));
            "k" in d.queries && !d.queries["k"].stale && users.name in d.queries["k"].lists
  {
    assert Get([Field("body", body)], "body") == body;
  }

  function Post(users: Resource): Event {
    Change(RestWrite("POST", Some(Target(users, Option.None)), 201, Null))
  }

  lemma PostWrites(policy: WritePolicy, events: seq<Event>, users: Resource)
    requires |events| > 1 && events[1] == Post(users)
    ensures WriteAt(policy, events, 1, users.name)
  {
    assert UpperCase("POST")[0] == 'P' && "GET"[0] == 'G';
  }

  /** The call is sent (event 0), then the write recorded (event 1), then the answer arrives: the list
      is fresh, and its data is older than the write. */
  lemma LateAnswerIsOlder(policy: WritePolicy, users: Resource, body: Value)
    requires users.kind.Collection? && body.Arr?
    ensures var events := [Shared(Ask("k")), Post(users)] + Arrival(0, users, body);
            var w := Play(policy, events);
            && "k" in w.cache.queries && !w.cache.queries["k"].stale && users.name in w.cache.queries["k"].lists
            && "k" in w.origins && w.origins["k"].requested == 0 && WriteAt(policy, events, 1, users.name)
  {
    PlaySnoc(policy, [], Shared(Ask("k")));
    PlaySnoc(policy, [Shared(Ask("k"))], Post(users));
    assert [] + [Shared(Ask("k"))] == [Shared(Ask("k"))];
    assert [Shared(Ask("k"))] + [Post(users)] == [Shared(Ask("k")), Post(users)];
    Arrived(policy, [Shared(Ask("k")), Post(users)], 0, users, body);
    PostWrites(policy, [Shared(Ask("k")), Post(users)] + Arrival(0, users, body), users);
  }

  /** The same, for a read that is made after the write (event 2): it joins the call. */
  lemma JoinedAnswerIsOlder(policy: WritePolicy, users: Resource, body: Value)
    requires users.kind.Collection? && body.Arr?
    ensures var events := [Shared(Ask("k")), Post(users), Shared(Ask("k"))] + Arrival(1, users, body);
            var w := Play(policy, events);
            && "k" in w.cache.queries && !w.cache.queries["k"].stale && users.name in w.cache.queries["k"].lists
            && "k" in w.origins && w.origins["k"].requested == 0 && WriteAt(policy, events, 1, users.name)
            && w.asked == [0, 2]
  {
    var ask := Shared(Ask("k"));
    PlaySnoc(policy, [], ask);
    PlaySnoc(policy, [ask], Post(users));
    PlaySnoc(policy, [ask, Post(users)], ask);
    assert [] + [ask] == [ask] && [ask] + [Post(users)] == [ask, Post(users)];
    assert [ask, Post(users)] + [ask] == [ask, Post(users), ask];
    Arrived(policy, [ask, Post(users), ask], 1, users, body);
    PostWrites(policy, [ask, Post(users), ask] + Arrival(1, users, body), users);
  }
}
