/** Where a cached read takes its answer from (`executeRead`). */
module ReadPolicy {
  import opened ClientCache

  datatype Policy = CacheFirst | CacheAndNetwork | NetworkFirst | NetworkOnly | CacheOnly

  datatype Cached = Missing | Hit(entry: Entry)

  /** An entry of the cache, the result of the network call, `null`, or the error of the call. */
  datatype Reply = FromCache(entry: Entry) | FromNetwork | Nothing | Thrown

  /** `fetches`: `fetchOnce` is called, which sends a call or joins the one under way for the key;
      `background`: the answer does not wait for it. */
  datatype Outcome = Outcome(reply: Reply, fetches: bool, background: bool)

  function ReadCached(c: Cache, key: string): Cached {
    if key in c.queries then Hit(c.queries[key]) else Missing
  }

  /** The cache is `now` when the read is made, and `later` when the network call, if any, has settled;
      `answered` tells whether it succeeded. */
  method ExecuteRead(policy: Policy, key: string, now: Cache, later: Cache, answered: bool) returns (r: Outcome)
    ensures policy == NetworkOnly ==> !r.reply.FromCache?
    ensures policy == CacheOnly ==> !r.fetches
    ensures r.reply.FromNetwork? ==> r.fetches && answered
    ensures r.reply.Thrown? ==> r.fetches && !answered && (policy == NetworkFirst ==> key !in later.queries)
    ensures r.reply.Nothing? <==> policy == CacheOnly && key !in now.queries
    ensures r.reply.FromCache? && policy == NetworkFirst ==>
              !answered && key in later.queries && r.reply.entry == later.queries[key]
    ensures r.reply.FromCache? && policy != NetworkFirst ==>
              && key in now.queries && r.reply.entry == now.queries[key]
              && (policy != CacheOnly ==> !r.reply.entry.stale)
    ensures r.fetches
       <==> policy != CacheOnly && !(policy == CacheFirst && key in now.queries && !now.queries[key].stale)
    ensures r.background <==> policy == CacheAndNetwork && r.reply.FromCache?
  {
    if policy == NetworkFirst {
      if answered {
        return Outcome(FromNetwork, true, false);
      }
      var cached := ReadCached(later, key);
      if cached.Hit? {
        return Outcome(FromCache(cached.entry), true, false);
      }
      return Outcome(Thrown, true, false);
    }
    if policy != NetworkOnly {
      var cached := ReadCached(now, key);
      if cached.Hit? && !cached.entry.stale {
        return Outcome(FromCache(cached.entry), policy == CacheAndNetwork, policy == CacheAndNetwork);
      }
      if policy == CacheOnly {
        return Outcome(if cached.Hit? then FromCache(cached.entry) else Nothing, false, false);
      }
    }
    return Outcome(if answered then FromNetwork else Thrown, true, false);
  }

  /** In every run, whatever the other calls in between: an answer from the cache that lists `r` was
      stored after the last recorded write on `r`, unless the policy is to take stale answers: from
      the cache only, or when the network fails. */
  method ReadFollowsWrites(writes: WritePolicy, ops: seq<Op>, during: seq<Op>, policy: Policy, key: string,
                           answered: bool)
    returns (r: Outcome)
    requires policy != CacheOnly && (policy == NetworkFirst ==> answered)
    ensures r.reply.FromCache? ==> forall name | name in r.reply.entry.lists ::
        StoredAfterLast(writes, ops, key, name, false)
    ensures r.reply.FromCache? ==> forall name | name in r.reply.entry.resources ::
        StoredAfterLast(writes, ops, key, name, true)
  {
    r := ExecuteRead(policy, key, Run(writes, ops), Run(writes, ops + during), answered);
    if r.reply.FromCache? {
      forall name | name in r.reply.entry.lists ensures StoredAfterLast(writes, ops, key, name, false) {
        FreshEntriesFollowWrites(writes, ops, key, name);
      }
      forall name | name in r.reply.entry.resources ensures StoredAfterLast(writes, ops, key, name, true) {
        FreshEntriesFollowWrites(writes, ops, key, name);
      }
    }
  }
}
