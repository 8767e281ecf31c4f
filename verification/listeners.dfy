/** Live listener reconciliation on reload: every group binds its replacement before it
    retires the running generation. */
module ListenerReload {
  import opened Names
  import opened IpDenylist

  datatype Sock = Sock(ip: Addr, port: nat)

  // ---------------------------------------------------------------------------
  // Addresses
  // ---------------------------------------------------------------------------

  predicate IsPrivileged(s: Sock) { s.port != 0 && s.port < 1024 }

  predicate AllUnprivileged(socks: seq<Sock>) { forall i :: 0 <= i < |socks| ==> !IsPrivileged(socks[i]) }

  /** IPv4-mapped spellings collapse onto the IPv4 address. */
  function CanonicalIp(ip: Addr): Addr {
    if ip.V6? && IsMapped(ip.bits) then V4(Embedded(ip.bits)) else ip
  }

  predicate IsLoopback(ip: Addr) {
    match ip
    case V4(bits) => bits / 0x100_0000 == 127
    case V6(bits) => bits == 1
  }

  /** `metrics_listen_addr`: anything public is forced to the family's loopback. */
  function MetricsAddr(s: Sock): (out: Sock)
    ensures IsLoopback(out.ip) && out.port == s.port
    ensures IsLoopback(CanonicalIp(s.ip)) ==> out.ip == CanonicalIp(s.ip)
    ensures !IsLoopback(CanonicalIp(s.ip)) ==> out.ip == V4(127 * 0x100_0000 + 1) || out.ip == V6(1)
    ensures out.ip.V4? <==> CanonicalIp(s.ip).V4?
  {
    var ip := CanonicalIp(s.ip);
    if IsLoopback(ip) then Sock(ip, s.port)
    else if ip.V4? then Sock(V4(0x7f00_0001), s.port)
    else Sock(V6(1), s.port)
  }

  /** `ensure_doh_bind_allowed`: plaintext DoH leaves loopback only beside TLS material. */
  predicate DohBindAllowed(s: Sock, tlsConfigured: bool) { IsLoopback(CanonicalIp(s.ip)) || tlsConfigured }

  // ---------------------------------------------------------------------------
  // Reload inputs
  // ---------------------------------------------------------------------------

  type Paths = (Option<string>, Option<string>)

  /** The listener settings of one reloaded configuration; None marks text that does not
      parse. */
  datatype Settings = Settings(
    listen: Option<seq<Sock>>,
    dot: Option<Option<Sock>>,
    doq: Option<Option<Sock>>,
    tls: Paths,
    doh: Option<Option<Sock>>,
    timeout: nat,
    metrics: Option<Sock>,
    metricsPath: Option<string>)

  /** What the operating system and the TLS loader answer during that reload. */
  datatype Outcomes = Outcomes(tlsOk: bool, doqTlsOk: bool, dnsBindOk: bool, dohBindOk: bool, metricsBindOk: bool)

  predicate TlsConfigured(tls: Paths) { tls.0.Some? && tls.1.Some? }

  // ---------------------------------------------------------------------------
  // Generations
  // ---------------------------------------------------------------------------

  /** What one generation of a group serves. */
  datatype Server =
    | DnsServer(listen: seq<Sock>, dot: Option<Sock>, doq: Option<Sock>, tls: Paths)
    | DohServer(addr: Sock, timeout: nat)
    | MetricsServer(addr: Sock, path: string)

  function Addresses(s: Server): seq<Sock> {
    match s
    case DnsServer(listen, dot, doq, _) =>
      listen + (if dot.Some? then [dot.value] else []) + (if doq.Some? then [doq.value] else [])
    case DohServer(addr, _) => [addr]
    case MetricsServer(addr, _) => [addr]
  }

  predicate SameGroup(a: Server, b: Server) {
    (a.DnsServer? <==> b.DnsServer?) && (a.DohServer? <==> b.DohServer?)
  }

  /** A reload begins with new settings; a generation is bound; it is retired for a
      replacement; or it is removed without one. */
  datatype Event = Began(cfg: Settings) | Bound(id: nat, server: Server) | Retired(id: nat) | Removed(id: nat)

  /** Everything that has happened, latest event outermost. */
  datatype History = Start | Then(past: History, event: Event)

  /** The generations that are bound and not retired. */
  function Live(h: History): map<nat, Server> {
    match h
    case Start => map[]
    case Then(past, Began(_)) => Live(past)
    case Then(past, Bound(id, server)) => Live(past)[id := server]
    case Then(past, Retired(id)) => Live(past) - {id}
    case Then(past, Removed(id)) => Live(past) - {id}
  }

  /** The settings of the reloads so far, in order. */
  function Rounds(h: History): seq<Settings> {
    match h
    case Start => []
    case Then(past, Began(cfg)) => Rounds(past) + [cfg]
    case Then(past, _) => Rounds(past)
  }

  /** The settings of the latest reload. */
  function Asked(h: History): Option<Settings> {
    var rounds := Rounds(h);
    if rounds == [] then None else Some(rounds[|rounds| - 1])
  }

  type Generations = map<nat, Server>

  predicate ServesDns(m: Generations) { exists id :: id in m && m[id].DnsServer? }

  predicate ServesMetrics(m: Generations) { exists id :: id in m && m[id].MetricsServer? }

  predicate ServesDoh(m: Generations) { exists id :: id in m && m[id].DohServer? }

  /** A generation may be retired only right after a replacement of its group was bound. */
  predicate MayRetire(past: History, id: nat) {
    && id in Live(past) && past.Then? && past.event.Bound?
    && past.event.id != id && SameGroup(past.event.server, Live(past)[id])
  }

  /** Only the DoH generation may be removed, and only in a reload whose settings ask for no
      DoH listener. */
  predicate MayRemove(past: History, id: nat) {
    && id in Live(past) && Live(past)[id].DohServer?
    && Asked(past).Some? && Asked(past).value.doh == Some(None)
  }

  /** What one more event must keep. */
  predicate LawfulStep(past: History, event: Event) {
    var h := Then(past, event);
    && (event.Bound? ==> event.id !in Live(past))
    && (event.Retired? ==> MayRetire(past, event.id))
    && (event.Removed? ==> MayRemove(past, event.id))
    && ServesDns(Live(h))
    && (ServesMetrics(Live(past)) ==> ServesMetrics(Live(h)))
    && (ServesDoh(Live(past)) && !event.Removed? ==> ServesDoh(Live(h)))
  }

  /** The laws of a whole history, checked at each of its events: a bound generation is a new
      one, every retirement and removal was allowed, there is always a DNS generation, metrics stay up, and DoH stays up except
      for a removal. */
  predicate Lawful(h: History) { h.Then? ==> Lawful(h.past) && LawfulStep(h.past, h.event) }

  /** `g` is a moment on the way to `h`. */
  predicate IsMoment(g: History, h: History) { g == h || (h.Then? && IsMoment(g, h.past)) }

  /** Nothing is removed on the way from `f` to `h`. */
  predicate NoRemoval(f: History, h: History) { f == h || (h.Then? && !h.event.Removed? && NoRemoval(f, h.past)) }

  /** A lawful history has no moment, however short, without a DNS generation; none at which a
      generation was retired without a bound replacement or removed unasked; none without
      metrics after a moment with; and none without DoH after a moment with, unless DoH was
      removed in between. */
  lemma {:induction false} LawHoldsAtEveryMoment(f: History, g: History, h: History)
    requires Lawful(h) && IsMoment(g, h) && IsMoment(f, g) && g.Then?
    ensures ServesDns(Live(g))
    ensures g.event.Bound? ==> g.event.id !in Live(g.past)
    ensures g.event.Retired? ==> MayRetire(g.past, g.event.id)
    ensures g.event.Removed? ==> MayRemove(g.past, g.event.id)
    ensures ServesMetrics(Live(f)) ==> ServesMetrics(Live(g))
    ensures ServesDoh(Live(f)) && NoRemoval(f, g) ==> ServesDoh(Live(g))
    decreases h, g
  {
    if g != h {
      LawHoldsAtEveryMoment(f, g, h.past);
    } else if f != g && g.past.Then? {
      LawHoldsAtEveryMoment(f, g.past, g.past);
    }
  }

  /** Generation `id` is neither retired nor removed on the way from `f` to `h`. */
  predicate NotEnded(id: nat, f: History, h: History) {
    f == h || (h.Then? && h.event != Retired(id) && h.event != Removed(id) && NotEnded(id, f, h.past))
  }

  /** In a lawful history a generation keeps serving what it was bound for until it is retired or
      removed. */
  lemma {:induction false} GenerationsRunUntilEnded(id: nat, f: History, h: History)
    requires Lawful(h) && id in Live(f) && NotEnded(id, f, h)
    ensures id in Live(h) && Live(h)[id] == Live(f)[id]
  {
    if f != h { GenerationsRunUntilEnded(id, f, h.past); }
  }

  /** Ports that a process without capabilities may bind; metrics on loopback. */
  predicate SafeServer(s: Server) {
    AllUnprivileged(Addresses(s)) && (s.MetricsServer? ==> IsLoopback(s.addr.ip))
  }

  predicate OpenPort(s: Sock) { s.port == 0 || s.port >= 1024 }

  /** In numbers: every address of a safe server, for whichever transport, has port 0 or one from
      1024 on, and metrics are on 127.0.0.0/8 or ::1. */
  lemma {:induction false} SafeInNumbers(s: Server)
    requires SafeServer(s)
    ensures s.DnsServer? ==>
              && (forall i :: 0 <= i < |s.listen| ==> OpenPort(s.listen[i]))
              && (s.dot.Some? ==> OpenPort(s.dot.value)) && (s.doq.Some? ==> OpenPort(s.doq.value))
    ensures !s.DnsServer? ==> OpenPort(s.addr)
    ensures s.MetricsServer? ==> if s.addr.ip.V4? then 0x7f00_0000 <= s.addr.ip.bits < 0x8000_0000 else s.addr.ip.bits == 1
  {
    var all := Addresses(s);
    forall i | 0 <= i < |all| ensures OpenPort(all[i]) { assert !IsPrivileged(all[i]); }
    if s.DnsServer? {
      var dots := if s.dot.Some? then [s.dot.value] else [];
      assert forall i :: 0 <= i < |s.listen| ==> all[i] == s.listen[i];
      if s.dot.Some? { assert all[|s.listen|] == s.dot.value; }
      if s.doq.Some? { assert all[|s.listen| + |dots|] == s.doq.value; }
    } else {
      assert all[0] == s.addr;
    }
  }

  /** `h` continues `start`, and every generation bound in between is safe. */
  predicate ContinuesSafely(start: History, h: History) {
    h == start || (h.Then? && ContinuesSafely(start, h.past) && (h.event.Bound? ==> SafeServer(h.event.server)))
  }

  lemma {:induction false} ContinuesTransitively(a: History, b: History, c: History)
    requires ContinuesSafely(a, b) && ContinuesSafely(b, c)
    ensures ContinuesSafely(a, c)
  {
    if b != c { ContinuesTransitively(a, b, c.past); }
  }

  /** `after` serves every group that `before` serves, DoH perhaps excepted. */
  predicate KeepsService(before: Generations, after: Generations, dohToo: bool) {
    && (ServesDns(before) ==> ServesDns(after))
    && (ServesMetrics(before) ==> ServesMetrics(after))
    && (dohToo && ServesDoh(before) ==> ServesDoh(after))
  }

  /** If every generation has a stand-in of its group, nothing is interrupted. */
  lemma {:induction false} StandInsKeepService(before: Generations, after: Generations, prior: nat, next: nat, dohToo: bool)
    requires forall id :: id in before && id != prior ==> id in after && after[id] == before[id]
    requires prior in before && (dohToo || !before[prior].DohServer?) ==> next in after && SameGroup(after[next], before[prior])
    ensures KeepsService(before, after, dohToo)
  {
    if ServesDns(before) {
      var d :| d in before && before[d].DnsServer?;
      var kept := if d == prior then next else d;
      assert kept in after && after[kept].DnsServer?;
    }
    if ServesMetrics(before) {
      var d :| d in before && before[d].MetricsServer?;
      var kept := if d == prior then next else d;
      assert kept in after && after[kept].MetricsServer?;
    }
    if dohToo && ServesDoh(before) {
      var d :| d in before && before[d].DohServer?;
      var kept := if d == prior then next else d;
      assert kept in after && after[kept].DohServer?;
    }
  }

  /** Bind a generation, then retire the one it replaces. */
  function Replace(h: History, id: nat, server: Server, prior: Option<nat>): History {
    if prior.Some? then Then(Then(h, Bound(id, server)), Retired(prior.value)) else Then(h, Bound(id, server))
  }

  function ReplaceIn(m: Generations, id: nat, server: Server, prior: Option<nat>): Generations {
    if prior.Some? then m[id := server] - {prior.value} else m[id := server]
  }

  lemma {:induction false} ReplaceIsLawful(h: History, id: nat, server: Server, prior: Option<nat>)
    requires Lawful(h) && ServesDns(Live(h)) && id !in Live(h)
    requires prior.Some? ==> prior.value in Live(h) && SameGroup(server, Live(h)[prior.value])
    ensures Lawful(Replace(h, id, server, prior))
    ensures Live(Replace(h, id, server, prior)) == ReplaceIn(Live(h), id, server, prior)
  {
    var mid := Then(h, Bound(id, server));
    StandInsKeepService(Live(h), Live(mid), id, id, true);
    if prior.Some? { StandInsKeepService(Live(mid), Live(mid) - {prior.value}, prior.value, id, true); }
  }

  lemma {:induction false} ReplaceKeepsRounds(h: History, id: nat, server: Server, prior: Option<nat>)
    ensures Rounds(Replace(h, id, server, prior)) == Rounds(h)
  {
  }

  lemma {:induction false} ReplaceContinues(h: History, id: nat, server: Server, prior: Option<nat>)
    requires SafeServer(server)
    ensures ContinuesSafely(h, Replace(h, id, server, prior))
  {
    assert ContinuesSafely(h, Then(h, Bound(id, server)));
  }

  /** Removing the DoH generation when asked to leaves the other groups serving. */
  lemma {:induction false} RemoveDohIsLawful(h: History, id: nat)
    requires Lawful(h) && MayRemove(h, id) && ServesDns(Live(h))
    ensures Lawful(Then(h, Removed(id)))
  {
    StandInsKeepService(Live(h), Live(h) - {id}, id, id, false);
  }

  // ---------------------------------------------------------------------------
  // The live state
  // ---------------------------------------------------------------------------

  /** The DNS generation that the settings ask for. */
  function DnsTarget(cfg: Settings): Server
    requires cfg.listen.Some? && cfg.dot.Some? && cfg.doq.Some?
  {
    DnsServer(cfg.listen.value, cfg.dot.value, cfg.doq.value, cfg.tls)
  }

  predicate DnsApplies(cfg: Settings, env: Outcomes, running: Server) {
    && cfg.listen.Some? && cfg.dot.Some? && cfg.doq.Some?
    && DnsTarget(cfg) != running
    && AllUnprivileged(Addresses(DnsTarget(cfg)))
    && (cfg.dot.value.Some? ==> env.tlsOk) && (cfg.doq.value.Some? ==> env.doqTlsOk) && env.dnsBindOk
  }

  predicate DohApplies(cfg: Settings, env: Outcomes, addr: Option<Sock>, timeout: Option<nat>) {
    && cfg.doh.Some? && cfg.doh.value.Some?
    && !(cfg.doh.value == addr && Some(cfg.timeout) == timeout)
    && !IsPrivileged(cfg.doh.value.value)
    && DohBindAllowed(cfg.doh.value.value, TlsConfigured(cfg.tls)) && env.dohBindOk
  }

  function MetricsTarget(cfg: Settings): Server
    requires cfg.metrics.Some? && cfg.metricsPath.Some?
  {
    MetricsServer(MetricsAddr(cfg.metrics.value), cfg.metricsPath.value)
  }

  predicate MetricsApplies(cfg: Settings, env: Outcomes, addr: Option<Sock>, path: string) {
    && cfg.metrics.Some? && cfg.metricsPath.Some?
    && !(Some(MetricsAddr(cfg.metrics.value)) == addr && cfg.metricsPath.value == path)
    && !IsPrivileged(MetricsAddr(cfg.metrics.value)) && env.metricsBindOk
  }

  /** The generations that a set of handles and descriptions stands for. */
  function Described(dns: (nat, Server), doh: Option<(nat, Server)>, metrics: Option<(nat, Server)>): Generations {
    var m: Generations := map[dns.0 := dns.1];
    var n: Generations := if doh.Some? then m[doh.value.0 := doh.value.1] else m;
    if metrics.Some? then n[metrics.value.0 := metrics.value.1] else n
  }

  lemma {:induction false} ReplaceDoh(dns: (nat, Server), doh: Option<(nat, Server)>, metrics: Option<(nat, Server)>,
                                      prior: Option<nat>, id: nat, server: Server)
    requires (prior.Some? <==> doh.Some?) && (doh.Some? ==> doh.value.0 == prior.value)
    requires DistinctHandles(dns.0, prior, if metrics.Some? then Some(metrics.value.0) else None, id)
    ensures ReplaceIn(Described(dns, doh, metrics), id, server, prior) == Described(dns, Some((id, server)), metrics)
  {
  }

  lemma {:induction false} ReplaceMetrics(dns: (nat, Server), doh: Option<(nat, Server)>, metrics: Option<(nat, Server)>,
                                          prior: Option<nat>, id: nat, server: Server)
    requires (prior.Some? <==> metrics.Some?) && (metrics.Some? ==> metrics.value.0 == prior.value)
    requires DistinctHandles(dns.0, if doh.Some? then Some(doh.value.0) else None, prior, id)
    ensures ReplaceIn(Described(dns, doh, metrics), id, server, prior) == Described(dns, doh, Some((id, server)))
  {
  }

  lemma {:induction false} ReplaceDns(dns: (nat, Server), doh: Option<(nat, Server)>, metrics: Option<(nat, Server)>,
                                      id: nat, server: Server)
    requires DistinctHandles(dns.0, if doh.Some? then Some(doh.value.0) else None,
                             if metrics.Some? then Some(metrics.value.0) else None, id)
    ensures ReplaceIn(Described(dns, doh, metrics), id, server, Some(dns.0)) == Described((id, server), doh, metrics)
  {
  }

  lemma {:induction false} RemoveDoh(dns: (nat, Server), doh: (nat, Server), metrics: Option<(nat, Server)>, bound: nat)
    requires DistinctHandles(dns.0, Some(doh.0), if metrics.Some? then Some(metrics.value.0) else None, bound)
    ensures Described(dns, Some(doh), metrics) - {doh.0} == Described(dns, None, metrics)
  {
  }

  /** What the DoH group serves after a reload. */
  function DohAfter(cfg: Settings, env: Outcomes, addr: Option<Sock>, timeout: Option<nat>): (Option<Sock>, Option<nat>) {
    if cfg.doh == Some(None) then (None, None)
    else if DohApplies(cfg, env, addr, timeout) then (cfg.doh.value, Some(cfg.timeout))
    else (addr, timeout)
  }

  /** What the metrics group serves after a reload. */
  function MetricsAfter(cfg: Settings, env: Outcomes, addr: Option<Sock>, path: string): (Option<Sock>, string) {
    if MetricsApplies(cfg, env, addr, path) then (Some(MetricsTarget(cfg).addr), MetricsTarget(cfg).path)
    else (addr, path)
  }

  predicate DistinctHandles(dns: nat, doh: Option<nat>, metrics: Option<nat>, bound: nat) {
    && dns < bound && (doh.Some? ==> doh.value < bound && doh.value != dns)
    && (metrics.Some? ==> metrics.value < bound && metrics.value != dns && metrics != doh)
  }

  /** The handles are distinct, exactly the described generations are live, and the whole history
      is lawful. */
  predicate Consistent(dns: (nat, Server), doh: Option<nat>, dohNow: Option<(nat, Server)>,
                       metrics: Option<nat>, metricsNow: Option<(nat, Server)>, bound: nat, log: History) {
    DistinctHandles(dns.0, doh, metrics, bound) && Live(log) == Described(dns, dohNow, metricsNow) && Lawful(log)
  }

  /** A generation that is described in full. */
  function DohGeneration(id: Option<nat>, addr: Option<Sock>, timeout: Option<nat>): Option<(nat, Server)> {
    if id.Some? && addr.Some? && timeout.Some? then Some((id.value, DohServer(addr.value, timeout.value))) else None
  }

  function MetricsGeneration(id: Option<nat>, addr: Option<Sock>, path: string): Option<(nat, Server)> {
    if id.Some? && addr.Some? then Some((id.value, MetricsServer(addr.value, path))) else None
  }

  class ActiveListeners {
    var dns: nat
    var liveListen: seq<Sock>
    var liveDot: Option<Sock>
    var liveDoq: Option<Sock>
    var liveTls: Paths
    var doh: Option<nat>
    var liveDoh: Option<Sock>
    var liveDohTimeout: Option<nat>
    var metrics: Option<nat>
    var liveMetrics: Option<Sock>
    var liveMetricsPath: string
    var nextId: nat
    ghost var log: History

    ghost function DnsNow(): (nat, Server)
      reads this
    {
      (dns, DnsServer(liveListen, liveDot, liveDoq, liveTls))
    }

    ghost function DohNow(): Option<(nat, Server)>
      reads this
    {
      DohGeneration(doh, liveDoh, liveDohTimeout)
    }

    ghost function MetricsNow(): Option<(nat, Server)>
      reads this
    {
      MetricsGeneration(metrics, liveMetrics, liveMetricsPath)
    }

    /** Each group has at most one unretired generation and its live fields describe exactly
        that one; and the whole history is lawful. */
    ghost predicate Valid()
      reads this
    {
      && (doh.Some? <==> liveDoh.Some?) && (doh.Some? <==> liveDohTimeout.Some?)
      && (metrics.Some? <==> liveMetrics.Some?)
      && Consistent(DnsNow(), doh, DohNow(), metrics, MetricsNow(), nextId, log)
    }

    constructor (listen: seq<Sock>, dot: Option<Sock>, doq: Option<Sock>, tls: Paths)
      ensures Valid() && doh.None? && metrics.None?
      ensures log == Then(Start, Bound(dns, DnsServer(listen, dot, doq, tls)))
    {
      dns, nextId := 0, 1;
      liveListen, liveDot, liveDoq, liveTls := listen, dot, doq, tls;
      doh, liveDoh, liveDohTimeout := None, None, None;
      metrics, liveMetrics, liveMetricsPath := None, None, "";
      log := Then(Start, Bound(0, DnsServer(listen, dot, doq, tls)));
      new;
      assert Live(log)[0].DnsServer?;
    }

    /** The three groups serve what `Valid` says. */
    lemma {:induction false} Serving()
      requires Valid()
      ensures dns in Live(log) && Live(log)[dns] == DnsNow().1
      ensures doh.Some? ==> doh.value in Live(log) && Live(log)[doh.value].DohServer?
      ensures metrics.Some? ==> metrics.value in Live(log) && Live(log)[metrics.value].MetricsServer?
      ensures nextId !in Live(log)
      ensures ServesDns(Live(log))
    {
    }

    /** What replacing the DoH generation makes of the history. */
    lemma {:induction false} DohStep(server: Server)
      requires Valid() && server.DohServer?
      ensures Consistent(DnsNow(), Some(nextId), Some((nextId, server)), metrics, MetricsNow(), nextId + 1,
                         Replace(log, nextId, server, doh))
    {
      Serving();
      ReplaceIsLawful(log, nextId, server, doh);
      ReplaceDoh(DnsNow(), DohNow(), MetricsNow(), doh, nextId, server);
    }

    /** What replacing the metrics generation makes of it. */
    lemma {:induction false} MetricsStep(server: Server)
      requires Valid() && server.MetricsServer?
      ensures Consistent(DnsNow(), doh, DohNow(), Some(nextId), Some((nextId, server)), nextId + 1,
                         Replace(log, nextId, server, metrics))
    {
      Serving();
      ReplaceIsLawful(log, nextId, server, metrics);
      ReplaceMetrics(DnsNow(), DohNow(), MetricsNow(), metrics, nextId, server);
    }

    /** What replacing the DNS generation makes of it. */
    lemma {:induction false} DnsStep(server: Server)
      requires Valid() && server.DnsServer?
      ensures Consistent((nextId, server), doh, DohNow(), metrics, MetricsNow(), nextId + 1,
                         Replace(log, nextId, server, Some(dns)))
    {
      Serving();
      ReplaceIsLawful(log, nextId, server, Some(dns));
      ReplaceDns(DnsNow(), DohNow(), MetricsNow(), nextId, server);
    }

    /** What removing the DoH generation makes of it. */
    lemma {:induction false} RemoveDohStep()
      requires Valid() && doh.Some? && Asked(log).Some? && Asked(log).value.doh == Some(None)
      ensures Consistent(DnsNow(), None, None, metrics, MetricsNow(), nextId, Then(log, Removed(doh.value)))
    {
      Serving();
      RemoveDohIsLawful(log, doh.value);
      RemoveDoh(DnsNow(), DohNow().value, MetricsNow(), nextId);
    }

    /** `install_doh`: refused or unbindable addresses leave everything as it was. */
    method InstallDoh(addr: Sock, timeout: nat, tlsConfigured: bool, bindOk: bool) returns (ok: bool)
      requires Valid()
      modifies `doh, `liveDoh, `liveDohTimeout, `nextId, `log
      ensures Valid()
      ensures ok <==> DohBindAllowed(addr, tlsConfigured) && bindOk
      ensures ok ==> log == Replace(old(log), old(nextId), DohServer(addr, timeout), old(doh))
      ensures ok ==> liveDoh == Some(addr) && liveDohTimeout == Some(timeout)
      ensures !ok ==> log == old(log) && liveDoh == old(liveDoh) && liveDohTimeout == old(liveDohTimeout)
    {
      if !DohBindAllowed(addr, tlsConfigured) || !bindOk { return false; }
      DohStep(DohServer(addr, timeout));
      doh, liveDoh, liveDohTimeout, nextId, log :=
        Some(nextId), Some(addr), Some(timeout), nextId + 1, Replace(log, nextId, DohServer(addr, timeout), doh);
      return true;
    }

    /** `install_metrics`. */
    method InstallMetrics(addr: Sock, path: string, bindOk: bool) returns (ok: bool)
      requires Valid()
      modifies `metrics, `liveMetrics, `liveMetricsPath, `nextId, `log
      ensures Valid() && ok == bindOk
      ensures ok ==> log == Replace(old(log), old(nextId), MetricsServer(addr, path), old(metrics))
      ensures ok ==> liveMetrics == Some(addr) && liveMetricsPath == path
      ensures !ok ==> log == old(log) && liveMetrics == old(liveMetrics) && liveMetricsPath == old(liveMetricsPath)
    {
      if !bindOk { return false; }
      MetricsStep(MetricsServer(addr, path));
      metrics, liveMetrics, liveMetricsPath, nextId, log :=
        Some(nextId), Some(addr), path, nextId + 1, Replace(log, nextId, MetricsServer(addr, path), metrics);
      return true;
    }

    /** Hand the DNS group over to an already bound replacement. */
    method InstallDns(listen: seq<Sock>, dot: Option<Sock>, doq: Option<Sock>, tls: Paths)
      requires Valid()
      modifies `dns, `liveListen, `liveDot, `liveDoq, `liveTls, `nextId, `log
      ensures Valid() && DnsNow() == (old(nextId), DnsServer(listen, dot, doq, tls))
      ensures log == Replace(old(log), old(nextId), DnsServer(listen, dot, doq, tls), Some(old(dns)))
    {
      DnsStep(DnsServer(listen, dot, doq, tls));
      liveListen, liveDot, liveDoq, liveTls, dns, nextId, log :=
        listen, dot, doq, tls, nextId, nextId + 1, Replace(log, nextId, DnsServer(listen, dot, doq, tls), Some(dns));
    }

    /** `reload_dns_group`: the running generation is replaced exactly when the settings parse,
        differ, need no privileged port, and load and bind. */
    method ReloadDnsGroup(cfg: Settings, env: Outcomes)
      requires Valid()
      modifies `dns, `liveListen, `liveDot, `liveDoq, `liveTls, `nextId, `log
      ensures Valid() && ContinuesSafely(old(log), log)
      ensures log == (if DnsApplies(cfg, env, old(DnsNow()).1)
                      then Replace(old(log), old(nextId), DnsTarget(cfg), Some(old(dns))) else old(log))
      ensures DnsNow().1 == if DnsApplies(cfg, env, old(DnsNow()).1) then DnsTarget(cfg) else old(DnsNow()).1
      ensures Rounds(log) == Rounds(old(log))
    {
      if cfg.listen.None? || cfg.dot.None? || cfg.doq.None? { return; }
      var listen, dot, doq := cfg.listen.value, cfg.dot.value, cfg.doq.value;
      if listen == liveListen && dot == liveDot && doq == liveDoq && cfg.tls == liveTls { return; }
      var server := DnsServer(listen, dot, doq, cfg.tls);
      if !AllUnprivileged(Addresses(server)) { return; }
      if dot.Some? && !env.tlsOk { return; }
      if doq.Some? && !env.doqTlsOk { return; }
      if !env.dnsBindOk { return; }
      ReplaceContinues(log, nextId, server, Some(dns));
      ReplaceKeepsRounds(log, nextId, server, Some(dns));
      InstallDns(listen, dot, doq, cfg.tls);
    }

    /** Remove the DoH generation, if there is one, as the settings ask. */
    method RemoveDohGroup()
      requires Valid() && Asked(log).Some? && Asked(log).value.doh == Some(None)
      modifies `doh, `liveDoh, `liveDohTimeout, `log
      ensures Valid() && doh.None?
      ensures log == if old(doh).Some? then Then(old(log), Removed(old(doh).value)) else old(log)
    {
      if doh.Some? {
        RemoveDohStep();
        log := Then(log, Removed(doh.value));
      }
      doh, liveDoh, liveDohTimeout := None, None, None;
    }

    /** `reload_doh_group`. */
    method ReloadDohGroup(cfg: Settings, env: Outcomes)
      requires Valid() && Asked(log) == Some(cfg)
      modifies `doh, `liveDoh, `liveDohTimeout, `nextId, `log
      ensures Valid() && ContinuesSafely(old(log), log) && Rounds(log) == Rounds(old(log))
      ensures cfg.doh == Some(None) ==> doh.None? && log == if old(doh).Some? then Then(old(log), Removed(old(doh).value)) else old(log)
      ensures cfg.doh != Some(None) ==>
                log == if DohApplies(cfg, env, old(liveDoh), old(liveDohTimeout))
                       then Replace(old(log), old(nextId), DohServer(cfg.doh.value.value, cfg.timeout), old(doh)) else old(log)
      ensures (liveDoh, liveDohTimeout) == DohAfter(cfg, env, old(liveDoh), old(liveDohTimeout))
    {
      if cfg.doh.None? { return; }
      if cfg.doh.value == liveDoh && Some(cfg.timeout) == liveDohTimeout { return; }
      if cfg.doh.value.None? {
        RemoveDohGroup();
      } else if !IsPrivileged(cfg.doh.value.value) {
        ReplaceContinues(log, nextId, DohServer(cfg.doh.value.value, cfg.timeout), doh);
        ReplaceKeepsRounds(log, nextId, DohServer(cfg.doh.value.value, cfg.timeout), doh);
        var _ := InstallDoh(cfg.doh.value.value, cfg.timeout, TlsConfigured(cfg.tls), env.dohBindOk);
      }
    }

    /** `reload_metrics_group`: the address is forced to loopback before anything else. */
    method ReloadMetricsGroup(cfg: Settings, env: Outcomes)
      requires Valid()
      modifies `metrics, `liveMetrics, `liveMetricsPath, `nextId, `log
      ensures Valid() && ContinuesSafely(old(log), log) && Rounds(log) == Rounds(old(log))
      ensures log == (if MetricsApplies(cfg, env, old(liveMetrics), old(liveMetricsPath))
                      then Replace(old(log), old(nextId), MetricsTarget(cfg), old(metrics)) else old(log))
      ensures (liveMetrics, liveMetricsPath) == MetricsAfter(cfg, env, old(liveMetrics), old(liveMetricsPath))
    {
      if cfg.metrics.None? || cfg.metricsPath.None? { return; }
      var addr := MetricsAddr(cfg.metrics.value);
      if Some(addr) == liveMetrics && cfg.metricsPath.value == liveMetricsPath { return; }
      if IsPrivileged(addr) { return; }
      ReplaceContinues(log, nextId, MetricsServer(addr, cfg.metricsPath.value), metrics);
      ReplaceKeepsRounds(log, nextId, MetricsServer(addr, cfg.metricsPath.value), metrics);
      var _ := InstallMetrics(addr, cfg.metricsPath.value, env.metricsBindOk);
    }

    /** A reload begins. */
    ghost method Begin(cfg: Settings)
      requires Valid()
      modifies `log
      ensures Valid() && log == Then(old(log), Began(cfg)) && ContinuesSafely(old(log), log)
    {
      Serving();
      log := Then(log, Began(cfg));
    }

    /** The beginning and the first group of a reload. */
    method BeginWithDns(cfg: Settings, env: Outcomes)
      requires Valid()
      modifies `dns, `liveListen, `liveDot, `liveDoq, `liveTls, `nextId, `log
      ensures Valid() && ContinuesSafely(old(log), log) && Rounds(log) == Rounds(old(log)) + [cfg]
      ensures DnsNow().1 == if DnsApplies(cfg, env, old(DnsNow()).1) then DnsTarget(cfg) else old(DnsNow()).1
    {
      Begin(cfg);
      ghost var begun := log;
      ReloadDnsGroup(cfg, env);
      ContinuesTransitively(old(log), begun, log);
    }

    /** The second and third group of a reload. */
    method ReloadHttpGroups(cfg: Settings, env: Outcomes)
      requires Valid() && Asked(log) == Some(cfg)
      modifies `doh, `liveDoh, `liveDohTimeout, `metrics, `liveMetrics, `liveMetricsPath, `nextId, `log
      ensures Valid() && ContinuesSafely(old(log), log) && Rounds(log) == Rounds(old(log))
      ensures (liveDoh, liveDohTimeout) == DohAfter(cfg, env, old(liveDoh), old(liveDohTimeout))
      ensures (liveMetrics, liveMetricsPath) == MetricsAfter(cfg, env, old(liveMetrics), old(liveMetricsPath))
    {
      ReloadDohGroup(cfg, env);
      ghost var mid := log;
      ReloadMetricsGroup(cfg, env);
      ContinuesTransitively(old(log), mid, log);
    }

    /** `reload_listeners`: the three groups, independently: what one group ends up serving
        does not depend on what happens to the others. */
    method ReloadListeners(cfg: Settings, env: Outcomes)
      requires Valid()
      modifies this
      ensures Valid() && ContinuesSafely(old(log), log) && Rounds(log) == Rounds(old(log)) + [cfg]
      ensures DnsNow().1 == if DnsApplies(cfg, env, old(DnsNow()).1) then DnsTarget(cfg) else old(DnsNow()).1
      ensures (liveDoh, liveDohTimeout) == DohAfter(cfg, env, old(liveDoh), old(liveDohTimeout))
      ensures (liveMetrics, liveMetricsPath) == MetricsAfter(cfg, env, old(liveMetrics), old(liveMetricsPath))
    {
      BeginWithDns(cfg, env);
      ghost var mid := log;
      ReloadHttpGroups(cfg, env);
      ContinuesTransitively(old(log), mid, log);
    }

    /** Any sequence of reloads, with any settings and any outcomes: the laws of `Valid` hold
        after each of them, and everything bound on the way is safe. */
    method RunReloads(rounds: seq<(Settings, Outcomes)>)
      requires Valid()
      modifies this
      ensures Valid() && ContinuesSafely(old(log), log)
      ensures Rounds(log) == Rounds(old(log)) + SettingsOf(rounds)
    {
      for i := 0 to |rounds|
        invariant Valid() && ContinuesSafely(old(log), log)
        invariant Rounds(log) == Rounds(old(log)) + SettingsOf(rounds[..i])
      {
        ghost var mid := log;
        ReloadListeners(rounds[i].0, rounds[i].1);
        ContinuesTransitively(old(log), mid, log);
        SettingsSnoc(rounds, i);
      }
      assert rounds[..|rounds|] == rounds;
    }
  }

  function SettingsOf(rounds: seq<(Settings, Outcomes)>): seq<Settings> {
    if rounds == [] then [] else SettingsOf(rounds[..|rounds| - 1]) + [rounds[|rounds| - 1].0]
  }

  lemma {:induction false} SettingsSnoc(rounds: seq<(Settings, Outcomes)>, i: nat)
    requires i < |rounds|
    ensures SettingsOf(rounds[..i + 1]) == SettingsOf(rounds[..i]) + [rounds[i].0]
  {
    assert rounds[..i + 1][..i] == rounds[..i];
  }
}
