/** Configuration checks on the listeners: every role must have its destinations to itself.

    All sockets are bound with address reuse, so where two of them accept the same destination
    the kernel deals each connection to one of the two at random. */
module ListenerOverlap {
  import opened Names
  import opened IpDenylist
  import opened ListenerReload

  datatype Role = PlainDns | DnsOverTls | DnsOverHttps | DnsOverQuic | Metrics

  datatype Listener = Listener(sock: Sock, role: Role)

  // ---------------------------------------------------------------------------
  // Which destinations a socket accepts
  // ---------------------------------------------------------------------------

  /** A destination address as packets carry it: specific, and an IPv4-mapped one is its IPv4
      address. */
  predicate IsDestination(d: Addr) { CanonicalIp(d) == d && d.bits != 0 }

  /** A socket bound to `ip` accepts traffic for `d`: any IPv4 destination for the unspecified
      IPv4 address, any at all for the unspecified IPv6 one, otherwise its own alone. */
  predicate Accepts(ip: Addr, d: Addr) {
    var n := CanonicalIp(ip);
    match n
    case V4(bits) => d.V4? && (bits == 0 || d == n)
    case V6(bits) => bits == 0 || d == n
  }

  /** `addrs_compete`. */
  predicate Compete(a: Addr, b: Addr) {
    match (CanonicalIp(a), CanonicalIp(b))
    case (V4(x), V4(y)) => x == y || x == 0 || y == 0
    case (V6(x), V6(y)) => x == y || x == 0 || y == 0
    case (V6(x), V4(_)) => x == 0
    case (V4(_), V6(y)) => y == 0
  }

  /** A destination of the narrower of two competing sockets. */
  function Contested(a: Addr, b: Addr): Addr {
    var x, y := CanonicalIp(a), CanonicalIp(b);
    if x.bits != 0 then x else if y.bits != 0 then y else V4(1)
  }

  /** Two sockets on one port compete exactly when some destination is accepted by both. */
  lemma {:induction false} CompeteIff(a: Addr, b: Addr)
    ensures Compete(a, b) <==> exists d :: IsDestination(d) && Accepts(a, d) && Accepts(b, d)
  {
    if Compete(a, b) {
      var d := Contested(a, b);
      assert IsDestination(d) && Accepts(a, d) && Accepts(b, d);
    }
  }

  // ---------------------------------------------------------------------------
  // The pairwise check
  // ---------------------------------------------------------------------------

  predicate Overlap(a: Listener, b: Listener) {
    a.role != b.role && a.sock.port == b.sock.port && Compete(a.sock.ip, b.sock.ip)
  }

  predicate NoOverlap(ls: seq<Listener>) { forall i, j :: 0 <= i < j < |ls| ==> !Overlap(ls[i], ls[j]) }

  /** Does `l` accept connections to `d` on `port`? */
  predicate Reached(l: Listener, d: Addr, port: nat) { l.sock.port == port && Accepts(l.sock.ip, d) }

  /** Everything that accepts a connection plays one role. */
  ghost predicate OneRole(ls: seq<Listener>, d: Addr, port: nat) {
    forall a, b :: a in ls && b in ls && Reached(a, d, port) && Reached(b, d, port) ==> a.role == b.role
  }

  /** No connection is ever dealt to a random role. */
  ghost predicate Unambiguous(ls: seq<Listener>) {
    forall d, port :: IsDestination(d) ==> OneRole(ls, d, port)
  }

  lemma {:induction false} OverlapIff(a: Listener, b: Listener)
    ensures Overlap(a, b) <==>
              a.role != b.role && exists d, port :: IsDestination(d) && Reached(a, d, port) && Reached(b, d, port)
    ensures Overlap(a, b) <==> Overlap(b, a)
  {
    CompeteIff(a.sock.ip, b.sock.ip);
    if Overlap(a, b) {
      var d :| IsDestination(d) && Accepts(a.sock.ip, d) && Accepts(b.sock.ip, d);
      assert Reached(a, d, a.sock.port) && Reached(b, d, a.sock.port);
    }
  }

  /** The pairs without overlap leave no connection ambiguous, and conversely. */
  lemma {:induction false} NoOverlapIff(ls: seq<Listener>)
    ensures NoOverlap(ls) <==> Unambiguous(ls)
  {
    if NoOverlap(ls) {
      forall d, port, a, b | IsDestination(d) && a in ls && b in ls && Reached(a, d, port) && Reached(b, d, port)
        ensures a.role == b.role
      {
        var i :| 0 <= i < |ls| && ls[i] == a;
        var j :| 0 <= j < |ls| && ls[j] == b;
        OverlapIff(a, b);
        assert i < j ==> !Overlap(ls[i], ls[j]);
        assert j < i ==> !Overlap(ls[j], ls[i]);
      }
    } else {
      var i, j :| 0 <= i < j < |ls| && Overlap(ls[i], ls[j]);
      OverlapIff(ls[i], ls[j]);
      var d, port :| IsDestination(d) && Reached(ls[i], d, port) && Reached(ls[j], d, port);
      assert !OneRole(ls, d, port);
    }
  }

  /** The two nested loops of the check. */
  method CheckOverlaps(ls: seq<Listener>) returns (ok: bool)
    ensures ok <==> Unambiguous(ls)
  {
    NoOverlapIff(ls);
    for i := 0 to |ls|
      invariant forall k, j :: 0 <= k < i && k < j < |ls| ==> !Overlap(ls[k], ls[j])
    {
      for j := i + 1 to |ls|
        invariant forall k, m :: 0 <= k < i && k < m < |ls| ==> !Overlap(ls[k], ls[m])
        invariant forall m :: i < m < j ==> !Overlap(ls[i], ls[m])
      {
        if ls[i].role != ls[j].role && ls[i].sock.port == ls[j].sock.port && Compete(ls[i].sock.ip, ls[j].sock.ip) {
          return false;
        }
      }
    }
    return true;
  }

  // ---------------------------------------------------------------------------
  // The listeners of a configuration
  // ---------------------------------------------------------------------------

  predicate AllParse(cfg: Settings) {
    cfg.listen.Some? && cfg.dot.Some? && cfg.doq.Some? && cfg.doh.Some? && cfg.metrics.Some?
  }

  function InRole(socks: seq<Sock>, role: Role): seq<Listener> {
    seq(|socks|, i requires 0 <= i < |socks| => Listener(socks[i], role))
  }

  function OptionalInRole(sock: Option<Sock>, role: Role): seq<Listener> {
    if sock.Some? then [Listener(sock.value, role)] else []
  }

  /** The TCP listeners; metrics at the loopback address it is forced to. */
  function TcpListeners(cfg: Settings): seq<Listener>
    requires AllParse(cfg)
  {
    InRole(cfg.listen.value, PlainDns) + OptionalInRole(cfg.dot.value, DnsOverTls)
    + OptionalInRole(cfg.doh.value, DnsOverHttps) + [Listener(MetricsAddr(cfg.metrics.value), Metrics)]
  }

  function UdpListeners(cfg: Settings): seq<Listener>
    requires AllParse(cfg)
  {
    InRole(cfg.listen.value, PlainDns) + OptionalInRole(cfg.doq.value, DnsOverQuic)
  }

  /** What the listener checks promise of a configuration. */
  ghost predicate GoodListeners(cfg: Settings) {
    && AllParse(cfg) && cfg.listen.value != []
    && Unambiguous(TcpListeners(cfg)) && Unambiguous(UdpListeners(cfg))
    && (cfg.doh.value.Some? ==> DohBindAllowed(cfg.doh.value.value, cfg.tls.0.Some? && cfg.tls.1.Some?))
    && (cfg.dot.value.Some? || cfg.doq.value.Some? ==> cfg.tls.0.Some? && cfg.tls.1.Some?)
  }

  /** The listener part of `validate_config`. */
  method ValidateListeners(cfg: Settings) returns (ok: bool)
    ensures ok <==> GoodListeners(cfg)
  {
    if !AllParse(cfg) || cfg.listen.value == [] { return false; }
    var tcp := CheckOverlaps(TcpListeners(cfg));
    if !tcp { return false; }
    var udp := CheckOverlaps(UdpListeners(cfg));
    if !udp { return false; }
    if cfg.doh.value.Some? && !TlsConfigured(cfg.tls) && !IsLoopback(CanonicalIp(cfg.doh.value.value.ip)) { return false; }
    return !(cfg.dot.value.Some? || cfg.doq.value.Some?) || TlsConfigured(cfg.tls);
  }
}
