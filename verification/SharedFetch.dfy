/** Concurrent fetches for one key are shared (`fetchOnce`): a protocol over the steps of its
    promises, in any interleaving. */
module SharedFetch {
  import opened Options

  datatype Outcome<+T> = Fulfilled(value: T) | Rejected(error: string)

  /** One network call: what the network promise settled with, and whether the promise handed to
      callers, which settles after its `finally` callback, has settled too. */
  datatype Call<+T> = Call(key: string, network: Option<Outcome<T>>, settled: bool)

  /** One `fetchOnce(key)` and what its caller has received. */
  datatype Caller<+T> = Caller(key: string, call: nat, got: Option<Outcome<T>>)

  datatype State<+T> = State(inflight: map<string, nat>, calls: seq<Call<T>>, callers: seq<Caller<T>>)

  datatype Event<+T> =
    | Ask(key: string)
    | NetworkSettles(call: nat, outcome: Outcome<T>)
    | FinallyRuns(call: nat)
    | Deliver(caller: nat)

  function FetchOnce<T>(s: State<T>, key: string): State<T> {
    if key in s.inflight then
      s.(callers := s.callers + [Caller(key, s.inflight[key], None)])
    else
      State(s.inflight[key := |s.calls|],
            s.calls + [Call(key, None, false)],
            s.callers + [Caller(key, |s.calls|, None)])
  }

  /** An event that cannot happen in `s` leaves it alone. */
  function Step<T>(s: State<T>, e: Event<T>): State<T> {
    match e
    case Ask(key) => FetchOnce(s, key)
    case NetworkSettles(c, outcome) =>
      if c < |s.calls| && s.calls[c].network.None? then
        s.(calls := s.calls[c := s.calls[c].(network := Some(outcome))])
      else s
    case FinallyRuns(c) =>
      if c < |s.calls| && s.calls[c].network.Some? && !s.calls[c].settled then
        s.(inflight := s.inflight - {s.calls[c].key}, calls := s.calls[c := s.calls[c].(settled := true)])
      else s
    case Deliver(i) =>
      if i < |s.callers| && s.callers[i].got.None? && s.callers[i].call < |s.calls|
          && s.calls[s.callers[i].call].settled then
        s.(callers := s.callers[i := s.callers[i].(got := s.calls[s.callers[i].call].network)])
      else s
  }

  function Run<T>(events: seq<Event<T>>): State<T> {
    if events == [] then State(map[], [], [])
    else Step(Run(events[..|events| - 1]), events[|events| - 1])
  }

  /** The in-flight map holds exactly the calls that have not settled, one per key. */
  ghost predicate InflightExact<T>(s: State<T>) {
    && (forall key | key in s.inflight ::
          s.inflight[key] < |s.calls| && s.calls[s.inflight[key]].key == key && !s.calls[s.inflight[key]].settled)
    && (forall c | 0 <= c < |s.calls| && !s.calls[c].settled ::
          s.calls[c].key in s.inflight && s.inflight[s.calls[c].key] == c)
  }

  /** Caller `i` waits for, or has received the outcome of, a call for its key. */
  ghost predicate Served<T>(s: State<T>, i: nat) {
    i < |s.callers|
    && var caller := s.callers[i];
       && caller.call < |s.calls|
       && s.calls[caller.call].key == caller.key
       && (caller.got.Some? ==> s.calls[caller.call].settled && caller.got == s.calls[caller.call].network)
  }

  ghost predicate Inv<T>(s: State<T>) {
    && InflightExact(s)
    && (forall c | 0 <= c < |s.calls| && s.calls[c].settled :: s.calls[c].network.Some?)
    && (forall i | 0 <= i < |s.callers| :: Served(s, i))
  }

  lemma StepKeepsExact<T>(s: State<T>, e: Event<T>)
    requires InflightExact(s)
    ensures InflightExact(Step(s, e))
  {
  }

  lemma StepKeepsServed<T>(s: State<T>, e: Event<T>, i: nat)
    requires Inv(s) && i < |Step(s, e).callers|
    ensures Served(Step(s, e), i)
  {
    if i < |s.callers| { assert Served(s, i); }
  }

  lemma StepKeepsInv<T>(s: State<T>, e: Event<T>)
    requires Inv(s)
    ensures Inv(Step(s, e))
  {
    StepKeepsExact(s, e);
    forall i | 0 <= i < |Step(s, e).callers| ensures Served(Step(s, e), i) {
      StepKeepsServed(s, e, i);
    }
  }

  lemma {:induction false} RunKeepsInv<T>(events: seq<Event<T>>)
    ensures Inv(Run(events))
  {
    if events != [] {
      RunKeepsInv(events[..|events| - 1]);
      StepKeepsInv(Run(events[..|events| - 1]), events[|events| - 1]);
    }
  }

  /** In every interleaving at most one network call per key is outstanding, and the in-flight map
      names it. */
  lemma OneCallPerKey<T>(events: seq<Event<T>>, c: nat, d: nat)
    requires c < |Run(events).calls| && d < |Run(events).calls|
    requires Run(events).calls[c].key == Run(events).calls[d].key
    requires !Run(events).calls[c].settled && !Run(events).calls[d].settled
    ensures c == d && Run(events).calls[c].key in Run(events).inflight
  {
    RunKeepsInv(events);
  }

  /** Callers that asked for one key while its call was outstanding share that call; two of them
      that have been answered were given the same outcome. */
  lemma JoinersShareOutcome<T>(events: seq<Event<T>>, key: string)
    requires key in Run(events).inflight
    ensures var s := Run(events);
            var t := Step(s, Ask(key));
            t.calls == s.calls && t.callers[|s.callers|].call == s.inflight[key]
    ensures forall i, j | 0 <= i < |Run(events).callers| && 0 <= j < |Run(events).callers| ::
              var s := Run(events);
              s.callers[i].call == s.callers[j].call && s.callers[i].got.Some? && s.callers[j].got.Some?
              ==> s.callers[i].got == s.callers[j].got
  {
    RunKeepsInv(events);
    var s := Run(events);
    forall i, j | 0 <= i < |s.callers| && 0 <= j < |s.callers| && s.callers[i].call == s.callers[j].call
                  && s.callers[i].got.Some? && s.callers[j].got.Some?
      ensures s.callers[i].got == s.callers[j].got {
      assert Served(s, i) && Served(s, j);
    }
  }

  /** The map of the cache object. */
  class Fetches<T> {
    var inflight: map<string, nat>
    var calls: seq<Call<T>>
    var callers: seq<Caller<T>>

    function Contents(): State<T>
      reads this
    {
      State(inflight, calls, callers)
    }

    constructor ()
      ensures Contents() == Run([])
    {
      inflight, calls, callers := map[], [], [];
    }

    /** Returns the promise, that is, the call the caller will hear from. */
    method Fetch(key: string) returns (call: nat)
      requires Inv(Contents())
      modifies this
      ensures Inv(Contents())
      ensures Contents() == Step(old(Contents()), Ask(key))
      ensures call < |calls| && calls[call].key == key && !calls[call].settled
      ensures key in old(inflight) ==> call == old(inflight)[key] && calls == old(calls)
    {
      StepKeepsInv(Contents(), Ask(key));
      if key in inflight {
        call := inflight[key];
      } else {
        call := |calls|;
        calls := calls + [Call(key, None, false)];
        inflight := inflight[key := call];
      }
      callers := callers + [Caller(key, call, None)];
    }

    method Finally(call: nat)
      requires Inv(Contents())
      requires call < |calls| && calls[call].network.Some? && !calls[call].settled
      modifies this
      ensures Inv(Contents())
      ensures Contents() == Step(old(Contents()), FinallyRuns(call))
    {
      StepKeepsInv(Contents(), FinallyRuns(call));
      inflight := inflight - {calls[call].key};
      calls := calls[call := calls[call].(settled := true)];
    }
  }

  /** Calls come to an end: when the network answers a call that is under way, its callback runs and the
      answer is delivered, the key is free again and the caller has the answer. */
  lemma FetchCompletes<T>(s: State<T>, c: nat, outcome: Outcome<T>, i: nat)
    requires InflightExact(s) && c < |s.calls| && s.calls[c].network.None? && !s.calls[c].settled
    requires i < |s.callers| && s.callers[i].call == c && s.callers[i].got.None?
    ensures var s1 := Step(Step(s, NetworkSettles(c, outcome)), FinallyRuns(c));
            && s1.calls[c] == s.calls[c].(network := Some(outcome), settled := true)
            && s1.inflight == s.inflight - {s.calls[c].key}
            && Step(s1, Deliver(i)).callers[i].got == Some(outcome)
            && forall d | 0 <= d < |s.calls| && d != c :: s1.calls[d] == s.calls[d]
  {
  }

  /** A fetch for a key with no call under way sends one, whatever was fetched for it before. */
  lemma FreeKeySends<T>(s: State<T>, key: string)
    requires key !in s.inflight
    ensures var s1 := Step(s, Ask(key));
            && s1.calls == s.calls + [Call(key, None, false)]
            && s1.callers == s.callers + [Caller(key, |s.calls|, None)]
            && key in s1.inflight && s1.inflight[key] == |s.calls|
  {
  }
}
