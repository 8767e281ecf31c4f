/** The blocklist loader: rounds of reads and fetches that fall back to each source's last
    good content. */
module BlocklistLoader {
  import opened Names
  import opened Sorting
  import opened BlocklistEngine

  /** One read or fetch of a configured source; None is a failure. */
  datatype Attempt = Attempt(key: string, trusted: bool, outcome: Option<string>)

  // ---------------------------------------------------------------------------
  // What a history of attempts says
  // ---------------------------------------------------------------------------

  /** The content of the most recent success for `key`. */
  function Latest(history: seq<Attempt>, key: string): Option<string> {
    if history == [] then None
    else
      var a := history[|history| - 1];
      if a.key == key && a.outcome.Some? then a.outcome else Latest(history[..|history| - 1], key)
  }

  lemma {:induction false} LatestSnoc(history: seq<Attempt>, a: Attempt, key: string)
    ensures Latest(history + [a], key) == if a.key == key && a.outcome.Some? then a.outcome else Latest(history, key)
  {
    assert (history + [a])[..|history|] == history;
  }

  /** `Latest` is what its name says. */
  lemma {:induction false} LatestIsMostRecentSuccess(history: seq<Attempt>, key: string)
    ensures Latest(history, key).None? <==> forall i :: 0 <= i < |history| && history[i].key == key ==> history[i].outcome.None?
    ensures Latest(history, key).Some? ==>
              exists i :: && 0 <= i < |history| && history[i].key == key && history[i].outcome == Latest(history, key)
                          && forall j :: i < j < |history| && history[j].key == key ==> history[j].outcome.None?
  {
    if history != [] {
      var n := |history| - 1;
      var front, a := history[..n], history[n];
      assert forall i :: 0 <= i < n ==> front[i] == history[i];
      LatestIsMostRecentSuccess(front, key);
      if a.key == key && a.outcome.Some? {
        assert history[n].outcome == Latest(history, key);
      } else if Latest(front, key).Some? {
        var i :| && 0 <= i < |front| && front[i].key == key && front[i].outcome == Latest(front, key)
                 && forall j :: i < j < |front| && front[j].key == key ==> front[j].outcome.None?;
        assert history[i].key == key && history[i].outcome == Latest(history, key);
      }
    }
  }

  /** Attempts on other keys do not matter. */
  lemma {:induction false} LatestIgnoresOthers(history: seq<Attempt>, more: seq<Attempt>, key: string)
    requires forall i :: 0 <= i < |more| ==> more[i].key != key
    ensures Latest(history + more, key) == Latest(history, key)
  {
    if more == [] {
      assert history + more == history;
    } else {
      var front, a := more[..|more| - 1], more[|more| - 1];
      LatestIgnoresOthers(history, front, key);
      LatestSnoc(history + front, a, key);
      assert (history + front) + [a] == history + more;
    }
  }

  /** The sources a round hands over: in order, each with the latest content known when it is
      processed; a source without any is left out. */
  function HandedOver(history: seq<Attempt>, round: seq<Attempt>): seq<Source> {
    if round == [] then []
    else
      var a := round[|round| - 1];
      var content := Latest(history + round, a.key);
      HandedOver(history, round[..|round| - 1]) + (if content.Some? then [Source(content.value, a.trusted)] else [])
  }

  function FailedCount(history: seq<Attempt>, round: seq<Attempt>): nat {
    if round == [] then 0
    else
      FailedCount(history, round[..|round| - 1])
      + (if Latest(history + round, round[|round| - 1].key).None? then 1 else 0)
  }

  lemma {:induction false} HandedOverSnoc(history: seq<Attempt>, round: seq<Attempt>, a: Attempt)
    ensures var content := Latest(history + round + [a], a.key);
            && HandedOver(history, round + [a])
               == HandedOver(history, round) + (if content.Some? then [Source(content.value, a.trusted)] else [])
            && FailedCount(history, round + [a])
               == FailedCount(history, round) + (if content.None? then 1 else 0)
  {
    assert (round + [a])[..|round|] == round;
    assert history + (round + [a]) == history + round + [a];
  }

  /** Something that the attempts of a round determine. */
  type Report<T> = seq<Attempt> -> T

  /** `given` and `lost` say what a round after `past` hands over and how many it loses. */
  ghost predicate Reports(past: seq<Attempt>, given: Report<seq<Source>>, lost: Report<nat>) {
    forall d {:trigger HandedOver(past, d)} :: given(d) == HandedOver(past, d) && lost(d) == FailedCount(past, d)
  }

  predicate DistinctKeys(round: seq<Attempt>) {
    forall i, j :: 0 <= i < j < |round| ==> round[i].key != round[j].key
  }

  /** With distinct keys, a round hands over exactly the sources that ever succeeded, in
      configuration order, each with its trust tag and the content of its most recent success
      up to and including this round; the failures are exactly the others. */
  function Survivors(history: seq<Attempt>, round: seq<Attempt>): seq<Attempt> {
    if round == [] then []
    else
      var a := round[|round| - 1];
      Survivors(history, round[..|round| - 1]) + (if Latest(history, a.key).Some? then [a] else [])
  }

  lemma {:induction false} SurvivorsAfter(history: seq<Attempt>, round: seq<Attempt>, a: Attempt)
    requires forall i :: 0 <= i < |round| ==> round[i].key != a.key
    ensures Survivors(history + [a], round) == Survivors(history, round)
  {
    if round != [] {
      SurvivorsAfter(history, round[..|round| - 1], a);
      LatestSnoc(history, a, round[|round| - 1].key);
    }
  }

  /** The sources are the kept attempts' latest contents, with their tags. */
  predicate Delivers(done: seq<Attempt>, kept: seq<Attempt>, handed: seq<Source>) {
    && |handed| == |kept|
    && forall i :: 0 <= i < |kept| ==>
         && Latest(done, kept[i].key).Some?
         && handed[i] == Source(Latest(done, kept[i].key).value, kept[i].trusted)
  }

  lemma {:induction false} DeliversLater(done: seq<Attempt>, later: seq<Attempt>, kept: seq<Attempt>, handed: seq<Source>)
    requires Delivers(done, kept, handed)
    requires forall i :: 0 <= i < |kept| ==> Latest(later, kept[i].key) == Latest(done, kept[i].key)
    ensures Delivers(later, kept, handed)
  {
  }

  lemma {:induction false} DeliversOneMore(done: seq<Attempt>, kept: seq<Attempt>, handed: seq<Source>, a: Attempt)
    requires Delivers(done, kept, handed) && Latest(done, a.key).Some?
    ensures Delivers(done, kept + [a], handed + [Source(Latest(done, a.key).value, a.trusted)])
  {
  }

  lemma {:induction false} RoundHandsOverLatest(history: seq<Attempt>, round: seq<Attempt>)
    requires DistinctKeys(round)
    ensures var kept := Survivors(history + round, round);
            && Delivers(history + round, kept, HandedOver(history, round))
            && FailedCount(history, round) == |round| - |kept|
  {
    if round != [] {
      var front, a := round[..|round| - 1], round[|round| - 1];
      var before, done := history + front, history + round;
      RoundHandsOverLatest(history, front);
      assert done == before + [a];
      SurvivorsAfter(before, front, a);
      KeptIsUnchanged(before, front, a);
      var kept, handed := Survivors(before, front), HandedOver(history, front);
      DeliversLater(before, done, kept, handed);
      if Latest(done, a.key).Some? { DeliversOneMore(done, kept, handed, a); }
    }
  }

  lemma {:induction false} KeptIsUnchanged(done: seq<Attempt>, front: seq<Attempt>, a: Attempt)
    requires forall i :: 0 <= i < |front| ==> front[i].key != a.key
    ensures forall i :: 0 <= i < |Survivors(done, front)| ==>
              Latest(done + [a], Survivors(done, front)[i].key) == Latest(done, Survivors(done, front)[i].key)
  {
    var kept := Survivors(done, front);
    SurvivorsAreFromRound(done, front);
    forall i | 0 <= i < |kept| ensures Latest(done + [a], kept[i].key) == Latest(done, kept[i].key) {
      assert kept[i] in front;
      LatestSnoc(done, a, kept[i].key);
    }
  }

  lemma {:induction false} SurvivorsAreFromRound(history: seq<Attempt>, round: seq<Attempt>)
    ensures forall a :: a in Survivors(history, round) <==> a in round && Latest(history, a.key).Some?
  {
    if round != [] {
      SurvivorsAreFromRound(history, round[..|round| - 1]);
      assert round == round[..|round| - 1] + [round[|round| - 1]];
    }
  }

  /** A source that has succeeded once is handed over in every later round. */
  lemma {:induction false} SuccessIsNeverForgotten(history: seq<Attempt>, round: seq<Attempt>, a: Attempt)
    requires a in round && Latest(history, a.key).Some?
    ensures Latest(history + round, a.key).Some?
    ensures DistinctKeys(round) ==>
              Source(Latest(history + round, a.key).value, a.trusted) in HandedOver(history, round)
  {
    LatestMonotone(history, round, a.key);
    if DistinctKeys(round) {
      RoundHandsOverLatest(history, round);
      SurvivorsAreFromRound(history + round, round);
      var kept := Survivors(history + round, round);
      var i :| 0 <= i < |kept| && kept[i] == a;
      assert HandedOver(history, round)[i] == Source(Latest(history + round, a.key).value, a.trusted);
    }
  }

  lemma {:induction false} LatestMonotone(history: seq<Attempt>, more: seq<Attempt>, key: string)
    requires Latest(history, key).Some?
    ensures Latest(history + more, key).Some?
  {
    if more == [] {
      assert history + more == history;
    } else {
      var front, a := more[..|more| - 1], more[|more| - 1];
      LatestMonotone(history, front, key);
      assert history + more == (history + front) + [a];
      LatestSnoc(history + front, a, key);
    }
  }

  // ---------------------------------------------------------------------------
  // Completion order
  // ---------------------------------------------------------------------------

  /** A read of a configured file, and a fetch of a configured URL; None is a failure. */
  datatype LocalRead = LocalRead(path: string, outcome: Option<string>)
  datatype RemoteFetch = RemoteFetch(url: string, outcome: Option<string>)

  /** A local file is always trusted. */
  function LocalAttempt(r: LocalRead): Attempt { Attempt(r.path, true, r.outcome) }

  /** A URL is trusted exactly when the operator lists it. */
  function RemoteAttempt(trustedUrls: seq<string>, f: RemoteFetch): Attempt { Attempt(f.url, f.url in trustedUrls, f.outcome) }

  function LocalAttempts(rs: seq<LocalRead>): seq<Attempt> {
    if rs == [] then [] else LocalAttempts(rs[..|rs| - 1]) + [LocalAttempt(rs[|rs| - 1])]
  }

  function RemoteAttempts(trustedUrls: seq<string>, fs: seq<RemoteFetch>): seq<Attempt> {
    if fs == [] then [] else RemoteAttempts(trustedUrls, fs[..|fs| - 1]) + [RemoteAttempt(trustedUrls, fs[|fs| - 1])]
  }

  lemma {:induction false} LocalAttemptsExact(rs: seq<LocalRead>, a: Attempt)
    ensures a in LocalAttempts(rs) <==> exists r :: r in rs && a == LocalAttempt(r)
  {
    if rs != [] {
      LocalAttemptsExact(rs[..|rs| - 1], a);
      assert rs == rs[..|rs| - 1] + [rs[|rs| - 1]];
    }
  }

  lemma {:induction false} RemoteAttemptsExact(trustedUrls: seq<string>, fs: seq<RemoteFetch>, a: Attempt)
    ensures a in RemoteAttempts(trustedUrls, fs) <==> exists f :: f in fs && a == RemoteAttempt(trustedUrls, f)
  {
    if fs != [] {
      RemoteAttemptsExact(trustedUrls, fs[..|fs| - 1], a);
      assert fs == fs[..|fs| - 1] + [fs[|fs| - 1]];
    }
  }

  /** A finished fetch with the position of its source in the configuration. */
  datatype Fetched = Fetched(idx: nat, fetch: RemoteFetch)

  predicate ByIndex(fs: seq<Fetched>) { forall i, j :: 0 <= i < j < |fs| ==> fs[i].idx <= fs[j].idx }

  const INDEX: Fetched -> int := (f: Fetched) => f.idx

  /** `sort_by_key` on the configuration index. */
  function SortByIndex(fs: seq<Fetched>): (out: seq<Fetched>)
    ensures ByIndex(out) && multiset(out) == multiset(fs)
  {
    var out := SortBy(INDEX, fs);
    assert forall i, j :: 0 <= i < j < |out| ==> INDEX(out[i]) <= INDEX(out[j]);
    out
  }

  /** The fetches in configuration order. */
  function InConfigOrder(remote: seq<RemoteFetch>): seq<Fetched> {
    seq(|remote|, i requires 0 <= i < |remote| => Fetched(i, remote[i]))
  }

  predicate Numbered(fs: seq<Fetched>) { forall i :: 0 <= i < |fs| ==> fs[i].idx == i }

  lemma {:induction false} DropLastCounts<T>(s: seq<T>)
    requires s != []
    ensures multiset(s[..|s| - 1]) == multiset(s) - multiset{s[|s| - 1]}
  {
    assert s == s[..|s| - 1] + [s[|s| - 1]];
  }

  lemma {:induction false} DropLastBoth<T>(a: seq<T>, b: seq<T>)
    requires a != [] && b != [] && multiset(a) == multiset(b) && a[|a| - 1] == b[|b| - 1]
    ensures multiset(a[..|a| - 1]) == multiset(b[..|b| - 1])
  {
    DropLastCounts(a);
    DropLastCounts(b);
  }

  /** A sorted rearrangement of numbered fetches is the numbered order itself. */
  lemma {:induction false} SortedIsNumbered(fs: seq<Fetched>, canon: seq<Fetched>)
    requires Numbered(canon) && |fs| == |canon| && ByIndex(fs) && multiset(fs) == multiset(canon)
    ensures fs == canon
  {
    if fs != [] {
      var n := |fs| - 1;
      LastIsLargest(fs, canon);
      DropLastBoth(fs, canon);
      SortedIsNumbered(fs[..n], canon[..n]);
      SameFrontSameLast(fs, canon, n);
    }
  }

  lemma {:induction false} SameFrontSameLast<T>(a: seq<T>, b: seq<T>, n: nat)
    requires |a| == n + 1 == |b| && a[..n] == b[..n] && a[n] == b[n]
    ensures a == b
  {
    assert a == a[..n] + [a[n]] && b == b[..n] + [b[n]];
  }

  lemma {:induction false} LastIsLargest(fs: seq<Fetched>, canon: seq<Fetched>)
    requires Numbered(canon) && fs != [] && |fs| == |canon| && ByIndex(fs) && multiset(fs) == multiset(canon)
    ensures fs[|fs| - 1] == canon[|fs| - 1]
  {
    var n := |fs| - 1;
    assert canon[n] in multiset(fs);
    var k :| 0 <= k < |fs| && fs[k] == canon[n];
    assert fs[n] in multiset(canon);
    var j :| 0 <= j < |canon| && canon[j] == fs[n];
    assert fs[k].idx <= fs[n].idx;
  }

  lemma {:induction false} SameCounts<T>(a: seq<T>, b: seq<T>)
    requires multiset(a) == multiset(b)
    ensures |a| == |b|
  {
    assert |multiset(a)| == |a| && |multiset(b)| == |b|;
  }

  /** Whatever order the concurrent fetches complete in, sorting restores the configuration's. */
  lemma {:induction false} CompletionOrderIsIrrelevant(completed: seq<Fetched>, remote: seq<RemoteFetch>)
    requires multiset(completed) == multiset(InConfigOrder(remote))
    ensures SortByIndex(completed) == InConfigOrder(remote)
  {
    SameCounts(SortByIndex(completed), InConfigOrder(remote));
    SortedIsNumbered(SortByIndex(completed), InConfigOrder(remote));
  }

  // ---------------------------------------------------------------------------
  // The loader
  // ---------------------------------------------------------------------------

  class Loader {
    var lastGood: map<string, string>
    ghost var history: seq<Attempt>

    /** The retained content of every source is that of its most recent success. */
    ghost predicate Valid()
      reads this
    {
      forall key :: Latest(history, key) == if key in lastGood then Some(lastGood[key]) else None
    }

    constructor ()
      ensures Valid() && history == []
    {
      lastGood := map[];
      history := [];
    }

    /** One source: refresh the retained content, or fall back to it without consuming it. */
    method Settle(a: Attempt) returns (content: Option<string>)
      requires Valid()
      modifies this
      ensures Valid() && history == old(history) + [a]
      ensures content == Latest(history, a.key)
    {
      forall key
        ensures Latest(history + [a], key) == if a.key == key && a.outcome.Some? then a.outcome else Latest(history, key)
      {
        LatestSnoc(history, a, key);
      }
      history := history + [a];
      if a.outcome.Some? {
        lastGood := lastGood[a.key := a.outcome.value];
        return a.outcome;
      }
      return if a.key in lastGood then Some(lastGood[a.key]) else None;
    }

    /** One turn of a loop over the sources, after `done`. */
    method SettleNext(a: Attempt, ghost past: seq<Attempt>, ghost done: seq<Attempt>, sources: seq<Source>, failed: nat,
                      ghost given: Report<seq<Source>>, ghost lost: Report<nat>)
      returns (sources': seq<Source>, failed': nat)
      requires Valid() && history == past + done && Reports(past, given, lost)
      requires sources == given(done) && failed == lost(done)
      modifies this
      ensures Valid() && history == past + (done + [a])
      ensures sources' == given(done + [a]) && failed' == lost(done + [a])
    {
      HandedOverSnoc(past, done, a);
      assert past + (done + [a]) == past + done + [a];
      var content := Settle(a);
      sources', failed' := sources, failed;
      if content.Some? {
        sources' := sources + [Source(content.value, a.trusted)];
      } else {
        failed' := failed + 1;
      }
    }

    /** The loop itself. */
    method SettleEach(round: seq<Attempt>, ghost past: seq<Attempt>, ghost done: seq<Attempt>, sources: seq<Source>, failed: nat,
                      ghost given: Report<seq<Source>>, ghost lost: Report<nat>)
      returns (sources': seq<Source>, failed': nat)
      requires Valid() && history == past + done && Reports(past, given, lost)
      requires sources == given(done) && failed == lost(done)
      modifies this
      ensures Valid() && history == past + (done + round)
      ensures sources' == given(done + round) && failed' == lost(done + round)
    {
      sources', failed' := sources, failed;
      ghost var sofar := done;
      assert sofar == done + round[..0];
      for i := 0 to |round|
        invariant Valid() && history == past + sofar && sofar == done + round[..i]
        invariant sources' == given(sofar) && failed' == lost(sofar)
      {
        sources', failed' := SettleNext(round[i], past, sofar, sources', failed', given, lost);
        sofar := sofar + [round[i]];
      }
      assert sofar == done + round;
    }

    method SettleAll(round: seq<Attempt>, ghost past: seq<Attempt>, ghost done: seq<Attempt>, sources: seq<Source>, failed: nat)
      returns (sources': seq<Source>, failed': nat)
      requires Valid() && history == past + done
      requires sources == HandedOver(past, done) && failed == FailedCount(past, done)
      modifies this
      ensures Valid() && history == past + (done + round)
      ensures sources' == HandedOver(past, done + round) && failed' == FailedCount(past, done + round)
    {
      sources', failed' := SettleEach(round, past, done, sources, failed, d => HandedOver(past, d), d => FailedCount(past, d));
    }

    /** `gather`: local files first, then the remote fetches, which `completed` lists in the
        order they happened to finish; files are trusted, and URLs if the operator lists them. */
    method Gather(round: Round) returns (sources: seq<Source>, failed: nat)
      requires Valid() && round.WellFormed()
      modifies this
      ensures Valid() && history == old(history) + round.Attempts()
      ensures sources == HandedOver(old(history), round.Attempts())
      ensures failed == FailedCount(old(history), round.Attempts())
    {
      var local := TagLocal(round.local);
      assert history + [] == history && [] + local == local;
      sources, failed := SettleAll(local, history, [], [], 0);
      CompletionOrderIsIrrelevant(round.completed, round.remote);
      var remote := TagRemote(round.trustedUrls, round.remote, SortByIndex(round.completed));
      sources, failed := SettleAll(remote, old(history), local, sources, failed);
    }

    /** One group's turn in a reload. */
    method ReloadGroup(engine: Engine, rule: Rules, allowlist: seq<string>, g: GroupRound)
      requires Valid() && g.round.WellFormed()
      modifies this, engine
      ensures Valid() && history == old(history) + g.round.Attempts()
      ensures engine.state == old(engine.state) && engine.groups.Keys == old(engine.groups).Keys
      ensures forall n :: n in engine.groups && n != g.name ==> engine.groups[n] == old(engine.groups)[n]
      ensures g.name in engine.groups ==>
                GroupLoaded(engine.parse, engine.key, rule, allowlist, g.allowlist, HandedOver(old(history), g.round.Attempts()),
                            old(engine.groups)[g.name], engine.groups[g.name])
    {
      var sources, failed := Gather(g.round);
      if sources != [] {
        var base := FromEntries(rule, allowlist + g.allowlist);
        engine.LoadGroup(g.name, sources, base);
      }
    }

    /** The same turn, in terms of any law that a loaded group obeys. */
    method ReloadLawfully(engine: Engine, rule: Rules, allowlist: seq<string>, g: GroupRound,
                          ghost ok: GroupRound -> bool, ghost law: GroupLaw)
      requires Valid() && ok(g) && Vouches(ok) && Obeyed(engine.parse, engine.key, rule, allowlist, law)
      modifies this, engine
      ensures Valid() && history == After(old(history), g)
      ensures engine.state == old(engine.state) && engine.groups.Keys == old(engine.groups).Keys
      ensures forall n :: n in engine.groups && n != g.name ==> engine.groups[n] == old(engine.groups)[n]
      ensures g.name in engine.groups ==> law(g, old(history), old(engine.groups)[g.name], engine.groups[g.name])
    {
      ReloadGroup(engine, rule, allowlist, g);
      assert g.name in engine.groups ==>
          GroupReloaded(engine.parse, engine.key, rule, allowlist, g, old(history), old(engine.groups)[g.name], engine.groups[g.name]);
    }

    /** All groups in turn. */
    method ReloadGroups(engine: Engine, rule: Rules, allowlist: seq<string>, groups: seq<GroupRound>,
                        ghost ok: GroupRound -> bool, ghost law: GroupLaw)
      requires Vouches(ok) && Obeyed(engine.parse, engine.key, rule, allowlist, law)
      requires Valid() && forall i :: 0 <= i < |groups| ==> ok(groups[i])
      requires DistinctNames(groups)
      modifies this, engine
      ensures Valid() && history == HistoryBefore(old(history), groups, |groups|)
      ensures engine.state == old(engine.state) && engine.groups.Keys == old(engine.groups).Keys
      ensures forall i :: 0 <= i < |groups| && groups[i].name in engine.groups ==>
                law(groups[i], HistoryBefore(old(history), groups, i),
                    old(engine.groups)[groups[i].name], engine.groups[groups[i].name])
    {
      for i := 0 to |groups|
        invariant Valid() && history == HistoryBefore(old(history), groups, i)
        invariant engine.state == old(engine.state) && engine.groups.Keys == old(engine.groups).Keys
        invariant Untouched(groups, i, old(engine.groups), engine.groups)
        invariant LoadedBefore(groups, i, old(history), old(engine.groups), engine.groups, law)
      {
        ghost var sofar := engine.groups;
        ReloadLawfully(engine, rule, allowlist, groups[i], ok, law);
        OneGroupMore(groups, i, old(history), old(engine.groups), sofar, engine.groups, law);
      }
    }

    /** `reload`: the global list, then every group; a set with nothing to load keeps its
        previous state. */
    method Reload(engine: Engine, rule: Rules, allowlist: seq<string>, global: Round, groups: seq<GroupRound>)
      returns (loaded: nat, failed: nat)
      requires Valid() && global.WellFormed() && forall i :: 0 <= i < |groups| ==> groups[i].round.WellFormed()
      requires DistinctNames(groups)
      modifies this, engine
      ensures Valid() && history == HistoryBefore(old(history) + global.Attempts(), groups, |groups|)
      ensures engine.groups.Keys == old(engine.groups).Keys
      ensures loaded == |HandedOver(old(history), global.Attempts())|
      ensures failed == FailedCount(old(history), global.Attempts())
      ensures if loaded == 0 then engine.state == old(engine.state)
              else Holds(engine.parse, engine.key, engine.allowlist, HandedOver(old(history), global.Attempts()), engine.state)
      ensures forall i :: 0 <= i < |groups| && groups[i].name in engine.groups ==>
                GroupReloaded(engine.parse, engine.key, rule, allowlist, groups[i],
                              HistoryBefore(old(history) + global.Attempts(), groups, i),
                              old(engine.groups)[groups[i].name], engine.groups[groups[i].name])
    {
      var sources: seq<Source>;
      sources, failed := Gather(global);
      loaded := |sources|;
      if sources != [] { engine.LoadManyWithTrust(sources); }
      ghost var law: GroupLaw := (g, h, b, a) => GroupReloaded(engine.parse, engine.key, rule, allowlist, g, h, b, a);
      ReloadGroups(engine, rule, allowlist, groups, (g: GroupRound) => g.round.WellFormed(), law);
    }
  }

  /** Tag every local read. */
  method TagLocal(rs: seq<LocalRead>) returns (out: seq<Attempt>)
    ensures out == LocalAttempts(rs)
  {
    out := [];
    for i := 0 to |rs|
      invariant out == LocalAttempts(rs[..i])
    {
      assert rs[..i + 1][..i] == rs[..i];
      out := out + [LocalAttempt(rs[i])];
    }
    assert rs[..|rs|] == rs;
  }

  /** Tag every fetch by looking its URL up in the trusted list. */
  method TagRemote(trustedUrls: seq<string>, ghost remote: seq<RemoteFetch>, sorted: seq<Fetched>) returns (out: seq<Attempt>)
    requires sorted == InConfigOrder(remote)
    ensures out == RemoteAttempts(trustedUrls, remote)
  {
    out := [];
    for i := 0 to |sorted|
      invariant out == RemoteAttempts(trustedUrls, remote[..i])
    {
      assert remote[..i + 1][..i] == remote[..i];
      out := out + [RemoteAttempt(trustedUrls, sorted[i].fetch)];
    }
    assert remote[..|remote|] == remote;
  }

  /** The configured files and URLs of one set of sources, what reading and fetching them gave
      in one reload, and the order in which the fetches completed. */
  datatype Round = Round(local: seq<LocalRead>, remote: seq<RemoteFetch>, trustedUrls: seq<string>, completed: seq<Fetched>) {
    function Attempts(): seq<Attempt> { LocalAttempts(local) + RemoteAttempts(trustedUrls, remote) }

    ghost predicate WellFormed() { multiset(completed) == multiset(InConfigOrder(remote)) }
  }

  /** `s` is the latest content of one of the round's files, trusted, or of one of its URLs,
      trusted exactly if the operator lists it. */
  predicate RightlyTagged(done: seq<Attempt>, round: Round, s: Source) {
    || (exists r :: r in round.local && Latest(done, r.path) == Some(s.content) && s.trusted)
    || (exists f :: f in round.remote && Latest(done, f.url) == Some(s.content) && (s.trusted <==> f.url in round.trustedUrls))
  }

  /** Every source that a round hands over carries the tag its configuration gives it. */
  lemma {:induction false} TagsComeFromConfiguration(history: seq<Attempt>, round: Round, s: Source)
    requires DistinctKeys(round.Attempts()) && s in HandedOver(history, round.Attempts())
    ensures RightlyTagged(history + round.Attempts(), round, s)
  {
    var all := round.Attempts();
    var done := history + all;
    RoundHandsOverLatest(history, all);
    SurvivorsAreFromRound(done, all);
    var i :| 0 <= i < |HandedOver(history, all)| && HandedOver(history, all)[i] == s;
    var a := Survivors(done, all)[i];
    LocalAttemptsExact(round.local, a);
    RemoteAttemptsExact(round.trustedUrls, round.remote, a);
    assert a in all && s == Source(Latest(done, a.key).value, a.trusted);
  }

  datatype GroupRound = GroupRound(name: string, allowlist: seq<string>, round: Round)

  function After(history: seq<Attempt>, g: GroupRound): seq<Attempt> { history + g.round.Attempts() }

  /** The history when group `i` is reached. */
  function HistoryBefore(history: seq<Attempt>, groups: seq<GroupRound>, i: nat): seq<Attempt>
    requires i <= |groups|
  {
    if i == 0 then history else After(HistoryBefore(history, groups, i - 1), groups[i - 1])
  }

  /** A group that received sources holds exactly those, over the global and its own allowlist
      together; otherwise it keeps its state. */
  predicate GroupLoaded(parse: Parser, key: string -> string, rule: Rules, allowlist: seq<string>, own: seq<string>,
                        sources: seq<Source>, before: BlocklistState, after: BlocklistState) {
    if sources == [] then after == before
    else Holds(parse, key, AllowlistOf(rule, allowlist + own), sources, after)
  }

  /** A group after its turn in a reload that reached it with `history`. */
  predicate GroupReloaded(parse: Parser, key: string -> string, rule: Rules, allowlist: seq<string>, g: GroupRound,
                          history: seq<Attempt>, before: BlocklistState, after: BlocklistState) {
    GroupLoaded(parse, key, rule, allowlist, g.allowlist, HandedOver(history, g.round.Attempts()), before, after)
  }

  /** What may be said of a group, the history before its turn, and its states around it. */
  type GroupLaw = (GroupRound, seq<Attempt>, BlocklistState, BlocklistState) -> bool

  ghost predicate Obeyed(parse: Parser, key: string -> string, rule: Rules, allowlist: seq<string>, law: GroupLaw) {
    forall g, h, before, after {:trigger GroupReloaded(parse, key, rule, allowlist, g, h, before, after)} ::
      GroupReloaded(parse, key, rule, allowlist, g, h, before, after) ==> law(g, h, before, after)
  }

  /** `ok` holds only of groups whose completed fetches are those of the configuration. */
  ghost predicate Vouches(ok: GroupRound -> bool) {
    forall g: GroupRound {:trigger g.round.WellFormed()} :: ok(g) ==> g.round.WellFormed()
  }

  /** The groups from `i` on are as they were. */
  predicate Untouched(groups: seq<GroupRound>, i: nat, before: map<string, BlocklistState>, now: map<string, BlocklistState>) {
    forall k :: i <= k < |groups| && groups[k].name in now ==>
      groups[k].name in before && now[groups[k].name] == before[groups[k].name]
  }

  /** The groups before `i` obey the law. */
  ghost predicate LoadedBefore(groups: seq<GroupRound>, i: nat, history: seq<Attempt>, before: map<string, BlocklistState>,
                               now: map<string, BlocklistState>, law: GroupLaw)
    requires i <= |groups|
  {
    forall k :: 0 <= k < i && groups[k].name in now ==>
      groups[k].name in before && law(groups[k], HistoryBefore(history, groups, k), before[groups[k].name], now[groups[k].name])
  }

  lemma {:induction false} OneGroupMore(groups: seq<GroupRound>, i: nat, history: seq<Attempt>, before: map<string, BlocklistState>,
                                        sofar: map<string, BlocklistState>, now: map<string, BlocklistState>, law: GroupLaw)
    requires DistinctNames(groups) && i < |groups| && now.Keys == sofar.Keys
    requires Untouched(groups, i, before, sofar) && LoadedBefore(groups, i, history, before, sofar, law)
    requires forall n :: n in now && n != groups[i].name ==> now[n] == sofar[n]
    requires groups[i].name in now ==>
               law(groups[i], HistoryBefore(history, groups, i), sofar[groups[i].name], now[groups[i].name])
    ensures Untouched(groups, i + 1, before, now) && LoadedBefore(groups, i + 1, history, before, now, law)
  {
    forall k | 0 <= k < |groups| && k != i ensures groups[k].name != groups[i].name { }
  }

  predicate DistinctNames(groups: seq<GroupRound>) {
    forall i, j :: 0 <= i < j < |groups| ==> groups[i].name != groups[j].name
  }

  // ---------------------------------------------------------------------------
  // The global allowlist in a group
  // ---------------------------------------------------------------------------

  /** The state of a group at construction. */
  function Unloaded(rule: Rules, own: seq<string>): BlocklistState { BlocklistState({}, {}, AllowlistOf(rule, own), 0) }

  /** The states of a group over successive reloads, of which reload `i` handed it `given[i]`. */
  predicate GroupRun(parse: Parser, key: string -> string, rule: Rules, allowlist: seq<string>, own: seq<string>,
                     given: seq<seq<Source>>, states: seq<BlocklistState>) {
    && |states| == |given| + 1 && states[0] == Unloaded(rule, own)
    && forall i :: 0 <= i < |given| ==> GroupLoaded(parse, key, rule, allowlist, own, given[i], states[i], states[i + 1])
  }

  /** Some reload among the first `n` handed the group a source. */
  predicate HasLoaded(given: seq<seq<Source>>, n: nat)
    requires n <= |given|
  {
    exists i :: 0 <= i < n && given[i] != []
  }

  /** A group that has loaded stands on the global and its own allowlist together, an unloaded
      one on its own alone. */
  lemma {:induction false} GroupStateAfter(parse: Parser, key: string -> string, rule: Rules, allowlist: seq<string>, own: seq<string>,
                                           given: seq<seq<Source>>, states: seq<BlocklistState>, n: nat)
    requires GroupRun(parse, key, rule, allowlist, own, given, states) && n <= |given|
    ensures if HasLoaded(given, n) then exists sources :: Holds(parse, key, AllowlistOf(rule, allowlist + own), sources, states[n])
            else states[n] == Unloaded(rule, own)
  {
    if n > 0 {
      GroupStateAfter(parse, key, rule, allowlist, own, given, states, n - 1);
      assert GroupLoaded(parse, key, rule, allowlist, own, given[n - 1], states[n - 1], states[n]);
      if given[n - 1] != [] { assert HasLoaded(given, n); }
      else { assert HasLoaded(given, n) <==> HasLoaded(given, n - 1); }
    }
  }

  lemma {:induction false} MergedExemption(parse: Parser, key: string -> string, rule: Rules, allowlist: seq<string>, own: seq<string>,
                                           sources: seq<Source>, st: BlocklistState, domain: string)
    requires Holds(parse, key, AllowlistOf(rule, allowlist + own), sources, st) && Exempt(AllowlistOf(rule, allowlist), domain)
    ensures Exempt(st.allow, domain)
  {
    AllowEntriesAddUp(rule, allowlist, own, domain);
  }

  /** A name that the global allowlist exempts: after any reloads it is blocked for a group
      exactly when no reload has handed the group a source yet, its own allowlist does not
      exempt the name, and a regex matches it. */
  lemma {:induction false} GlobalExemptionInGroupsIff(parse: Parser, key: string -> string, rule: Rules, allowlist: seq<string>,
                                                      own: seq<string>, given: seq<seq<Source>>, states: seq<BlocklistState>,
                                                      n: nat, regex: Regex, domain: string)
    requires GroupRun(parse, key, rule, allowlist, own, given, states) && n <= |given|
    requires domain != [] && Exempt(AllowlistOf(rule, allowlist), domain)
    ensures Blocked(states[n], regex, domain) <==>
              !HasLoaded(given, n) && !Exempt(AllowlistOf(rule, own), domain) && regex(domain)
  {
    GroupStateAfter(parse, key, rule, allowlist, own, given, states, n);
    if HasLoaded(given, n) {
      var sources :| Holds(parse, key, AllowlistOf(rule, allowlist + own), sources, states[n]);
      MergedExemption(parse, key, rule, allowlist, own, sources, states[n], domain);
    }
  }
}
