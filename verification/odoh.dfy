/** Oblivious DoH exchanges over a cached target configuration (RFC 9230). */
module ObliviousExchange {
  import opened Names

  type Target = nat
  type Relay = nat
  type Config = nat

  /** What comes back from one relay POST. */
  datatype Reply =
    | Status(code: nat)     // the relay or target answered with an error status
    | NetworkError
    | Malformed             // not an oblivious message
    | Undecryptable         // an oblivious message that the query's secret does not open
    | Answer(payload: string)

  /** The two signals that the cached key may have been rotated. */
  predicate IsStaleSignal(r: Reply) { r == Status(400) || r.Undecryptable? }

  datatype Post = Post(relay: Relay, target: Target, config: Config, reply: Reply)

  datatype Event =
    | Fetched(target: Target, config: Config)
    | Cleared(target: Target)
    | Posted(post: Post)

  /** Everything that has happened, latest event outermost. */
  datatype History = Start | Then(past: History, event: Event)

  function Fetches(h: History, t: Target): nat {
    if h.Start? then 0 else Fetches(h.past, t) + (if h.event.Fetched? && h.event.target == t then 1 else 0)
  }

  /** Stale-key signals received for a target. */
  function StaleSignals(h: History, t: Target): nat {
    if h.Start? then 0
    else StaleSignals(h.past, t)
         + (if h.event.Posted? && h.event.post.target == t && IsStaleSignal(h.event.post.reply) then 1 else 0)
  }

  function Clears(h: History, t: Target): nat {
    if h.Start? then 0 else Clears(h.past, t) + (if h.event.Cleared? && h.event.target == t then 1 else 0)
  }

  /** The configuration that the cache holds after `h`. */
  function CachedAfter(h: History, t: Target): Option<Config> {
    match h
    case Start => None
    case Then(past, Fetched(u, c)) => if u == t then Some(c) else CachedAfter(past, t)
    case Then(past, Cleared(u)) => if u == t then None else CachedAfter(past, t)
    case Then(past, Posted(_)) => CachedAfter(past, t)
  }

  /** The discipline of the cache: a fetch only on an empty cache, a clear only right after a
      stale-key signal for that target, a post only under the cached configuration. */
  predicate Disciplined(h: History) {
    h.Then? ==>
      && Disciplined(h.past)
      && match h.event
         case Fetched(t, _) => CachedAfter(h.past, t).None?
         case Cleared(t) =>
           && h.past.Then? && h.past.event.Posted? && h.past.event.post.target == t
           && IsStaleSignal(h.past.event.post.reply) && CachedAfter(h.past, t).Some?
         case Posted(p) => CachedAfter(h.past, p.target) == Some(p.config)
  }

  /** Every fetch beyond the first was paid for by a clear. */
  lemma {:induction false} FetchesAreClearsPlusCached(h: History, t: Target)
    requires Disciplined(h)
    ensures Fetches(h, t) == Clears(h, t) + (if CachedAfter(h, t).Some? then 1 else 0)
  {
    if h.Then? { FetchesAreClearsPlusCached(h.past, t); }
  }

  /** No two clears share a stale-key signal. */
  lemma {:induction false} ClearsAreSignalled(h: History, t: Target)
    requires Disciplined(h)
    ensures Clears(h, t) <= StaleSignals(h, t)
    ensures h.Then? && h.event.Posted? && h.event.post.target == t && IsStaleSignal(h.event.post.reply) ==>
              Clears(h, t) < StaleSignals(h, t)
  {
    if h.Then? { ClearsAreSignalled(h.past, t); }
  }

  /** Over every run, successful configuration fetches for a target number at most one more
      than the stale-key signals received for it: a throttling relay cannot turn queries into
      a fetch loop. */
  lemma {:induction false} FetchBudget(h: History, t: Target)
    requires Disciplined(h)
    ensures Fetches(h, t) <= 1 + StaleSignals(h, t)
  {
    FetchesAreClearsPlusCached(h, t);
    ClearsAreSignalled(h, t);
  }

  // ---------------------------------------------------------------------------
  // The transport
  // ---------------------------------------------------------------------------

  /** What the network and the cipher do in one attempt. */
  datatype Attempt = Attempt(fetch: Option<Config>, encryptOk: bool, reply: Reply)

  /** `later` continues `earlier` by the given posts (and any fetches and clears). */
  predicate PostsSince(earlier: History, later: History, posts: seq<Post>) {
    if later == earlier then posts == []
    else
      && later.Then?
      && if later.event.Posted?
         then posts != [] && posts[|posts| - 1] == later.event.post && PostsSince(earlier, later.past, posts[..|posts| - 1])
         else PostsSince(earlier, later.past, posts)
  }

  function Depth(h: History): nat { if h.Start? then 0 else Depth(h.past) + 1 }

  lemma {:induction false} LaterIsDeeper(a: History, b: History, ps: seq<Post>)
    requires PostsSince(a, b, ps)
    ensures Depth(a) <= Depth(b)
    decreases b
  {
    if b != a { LaterIsDeeper(a, b.past, if b.event.Posted? then ps[..|ps| - 1] else ps); }
  }

  /** Posts of consecutive stretches add up. */
  lemma {:induction false} PostsAppend(a: History, b: History, c: History, ps: seq<Post>, qs: seq<Post>)
    requires PostsSince(a, b, ps) && PostsSince(b, c, qs)
    ensures PostsSince(a, c, ps + qs)
    decreases c
  {
    LaterIsDeeper(a, b, ps);
    if c == b {
      assert ps + qs == ps;
    } else {
      var front := if c.event.Posted? then qs[..|qs| - 1] else qs;
      LaterIsDeeper(b, c.past, front);
      PostsAppend(a, b, c.past, ps, front);
      if c.event.Posted? { assert (ps + qs)[..|ps + qs| - 1] == ps + front; }
    }
  }

  lemma {:induction false} PostsAfterOne(a: History, h: History, ps: seq<Post>, e: Event)
    requires PostsSince(a, h, ps)
    ensures PostsSince(a, Then(h, e), if e.Posted? then ps + [e.post] else ps)
  {
    LaterIsDeeper(a, h, ps);
    assert Depth(Then(h, e)) == Depth(h) + 1;
    if e.Posted? { assert (ps + [e.post])[..|ps|] == ps; }
  }

  class Transport {
    var cache: map<Target, Config>
    ghost var log: History

    ghost predicate Valid()
      reads this
    {
      && Disciplined(log)
      && forall t :: CachedAfter(log, t) == if t in cache then Some(cache[t]) else None
    }

    constructor ()
      ensures Valid() && log == Start
    {
      cache := map[];
      log := Start;
    }

    /** `config_for`: the cached configuration, or a freshly fetched one that is then cached. */
    method ConfigFor(target: Target, fetch: Option<Config>) returns (config: Option<Config>)
      requires Valid()
      modifies this
      ensures Valid()
      ensures config == CachedAfter(log, target)
      ensures log == if CachedAfter(old(log), target).None? && fetch.Some?
                     then Then(old(log), Fetched(target, fetch.value)) else old(log)
    {
      if target in cache { return Some(cache[target]); }
      if fetch.None? { return None; }
      cache := cache[target := fetch.value];
      log := Then(log, Fetched(target, fetch.value));
      return fetch;
    }

    /** One pass of the retry loop: the answer, whether to try again, and the post made. */
    method Try(target: Target, relay: Relay, a: Attempt, mayRetry: bool)
      returns (answer: Option<string>, again: bool, ghost post: Option<Post>)
      requires Valid()
      modifies this
      ensures Valid()
      ensures post.Some? <==> a.encryptOk && (CachedAfter(old(log), target).Some? || a.fetch.Some?)
      ensures answer == if post.Some? && a.reply.Answer? then Some(a.reply.payload) else None
      ensures post.Some? ==> post.value.relay == relay && post.value.target == target && post.value.reply == a.reply
      ensures post.Some? && CachedAfter(old(log), target).Some? ==> CachedAfter(old(log), target) == Some(post.value.config)
      ensures post.Some? && CachedAfter(old(log), target).None? ==> a.fetch == Some(post.value.config)
      ensures again <==> mayRetry && post.Some? && IsStaleSignal(post.value.reply)
      ensures again ==> CachedAfter(log, target).None?
      ensures PostsSince(old(log), log, if post.Some? then [post.value] else [])
    {
      answer, again, post := None, false, None;
      ghost var start := log;
      if CachedAfter(log, target).None? && a.fetch.Some? {
        PostsAfterOne(start, start, [], Fetched(target, a.fetch.value));
      }
      var config := ConfigFor(target, a.fetch);
      if config.None? { return; }
      if !a.encryptOk { return; }
      post := Some(Post(relay, target, config.value, a.reply));
      PostsAfterOne(start, log, [], Posted(post.value));
      PostsAfterOne(start, Then(log, Posted(post.value)), [post.value], Cleared(target));
      log := Then(log, Posted(post.value));
      match a.reply
      case Answer(payload) => answer := Some(payload);
      case Undecryptable =>
        if mayRetry {
          cache := cache - {target};
          log := Then(log, Cleared(target));
          again := true;
        }
      case Status(code) =>
        if mayRetry && code == 400 {
          cache := cache - {target};
          log := Then(log, Cleared(target));
          again := true;
        }
      case NetworkError =>
      case Malformed =>
    }

    /** `exchange`: at most two posts, both to one relay; the second only after a stale-key
        signal and only under a configuration fetched after the cache was cleared; an answer is
        returned only if the last post brought it. */
    method Exchange(target: Target, relay: Relay, attempts: (Attempt, Attempt))
      returns (answer: Option<string>, ghost posts: seq<Post>)
      requires Valid()
      modifies this
      ensures Valid() && PostsSince(old(log), log, posts)
      ensures |posts| <= 2 && forall i :: 0 <= i < |posts| ==> posts[i].relay == relay && posts[i].target == target
      ensures |posts| == 2 ==> IsStaleSignal(posts[0].reply) && attempts.1.fetch == Some(posts[1].config)
      ensures posts != [] && IsStaleSignal(posts[0].reply) && attempts.1.encryptOk && attempts.1.fetch.Some? ==> |posts| == 2
      ensures answer == if posts != [] && posts[|posts| - 1].reply.Answer?
                        then Some(posts[|posts| - 1].reply.payload) else None
    {
      posts := [];
      var attempt := 0;
      var again := true;
      answer := None;
      while attempt < 2 && again
        invariant 0 <= attempt <= 2 && Valid()
        invariant PostsSince(old(log), log, posts)
        invariant |posts| <= attempt
        invariant forall i :: 0 <= i < |posts| ==> posts[i].relay == relay && posts[i].target == target
        invariant again ==> |posts| == attempt && (posts != [] ==> IsStaleSignal(posts[|posts| - 1].reply))
        invariant again && attempt == 1 ==> IsStaleSignal(posts[0].reply) && CachedAfter(log, target).None?
        invariant |posts| == 2 ==> IsStaleSignal(posts[0].reply) && attempts.1.fetch == Some(posts[1].config)
        invariant posts != [] && IsStaleSignal(posts[0].reply) && attempts.1.encryptOk && attempts.1.fetch.Some? ==>
                    |posts| == 2 || (again && attempt == 1)
        invariant answer == if posts != [] && posts[|posts| - 1].reply.Answer?
                            then Some(posts[|posts| - 1].reply.payload) else None
        decreases 2 - attempt
      {
        ghost var post: Option<Post>;
        ghost var before := log;
        answer, again, post := Try(target, relay, if attempt == 0 then attempts.0 else attempts.1, attempt == 0);
        if post.Some? {
          PostsAppend(old(log), before, log, posts, [post.value]);
          posts := posts + [post.value];
        } else {
          PostsAppend(old(log), before, log, posts, []);
          assert posts + [] == posts;
        }
        attempt := attempt + 1;
      }
    }

    /** Any sequence of exchanges keeps the discipline, so the fetch budget holds for every
        target at its end. */
    method RunExchanges(requests: seq<(Target, Relay, (Attempt, Attempt))>)
      requires Valid()
      modifies this
      ensures Valid()
      ensures forall t :: Fetches(log, t) <= 1 + StaleSignals(log, t)
    {
      for i := 0 to |requests|
        invariant Valid()
      {
        var _, _ := Exchange(requests[i].0, requests[i].1, requests[i].2);
      }
      forall t ensures Fetches(log, t) <= 1 + StaleSignals(log, t) { FetchBudget(log, t); }
    }
  }
}
