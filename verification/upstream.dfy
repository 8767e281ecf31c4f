/** What a resolver arm hands on of one upstream answer, position by position: written with
    spellings and alias chains alone, and proved of the filters that run. */
module UpstreamAnswers {
  import opened Names
  import opened Sequences
  import opened Spelling
  import opened Casing
  import opened Records
  import opened AnswerSanity

  // ---------------------------------------------------------------------------
  // Records from the wire
  // ---------------------------------------------------------------------------

  /** A record as the resolver library hands it over; `data` is None for types that are not
      served. */
  datatype Wire = Wire(name: string, data: Option<RecordData>, ttl: nat)

  function StoredOf(w: Wire): seq<DnsRecord> {
    if w.data.None? then [] else [NewRecord(w.name, w.data.value, w.ttl)]
  }

  /** `lookup_to_dns_records`. */
  function Stored(answer: seq<Wire>): seq<DnsRecord> {
    if answer == [] then [] else Stored(answer[..|answer| - 1]) + StoredOf(answer[|answer| - 1])
  }

  method FromWire(answer: seq<Wire>) returns (records: seq<DnsRecord>)
    ensures records == Stored(answer)
  {
    records := [];
    for n := 0 to |answer|
      invariant records == Stored(answer[..n])
    {
      assert answer[..n + 1][..n] == answer[..n];
      if answer[n].data.Some? { records := records + [NewRecord(answer[n].name, answer[n].data.value, answer[n].ttl)]; }
    }
    assert answer[..|answer|] == answer;
  }

  lemma {:induction false} OwnerSpelling(a: string, b: string)
    requires SameDotted(a, b)
    ensures OwnerName(a) == OwnerName(b)
  {
    OwnerNameText(a);
    OwnerNameText(b);
    DottedEnd(a);
    DottedEnd(b);
    FullLowerDot(a);
    FullLowerDot(b);
    SameDottedIff(a, b);
    FullLowerIgnoresAsciiCase(WithDot(a), WithDot(b));
  }

  predicate OwnersRespelled(a: seq<Wire>, b: seq<Wire>) {
    |a| == |b| && forall i :: 0 <= i < |a| ==> SameDotted(a[i].name, b[i].name) && a[i].data == b[i].data && a[i].ttl == b[i].ttl
  }

  /** The case of ASCII letters and a missing final dot of the owners on the wire change nothing
      at all. */
  lemma {:induction false} OwnerSpellingIsIrrelevant(a: seq<Wire>, b: seq<Wire>)
    requires OwnersRespelled(a, b)
    ensures Stored(a) == Stored(b)
  {
    if a != [] {
      OwnerSpellingIsIrrelevant(a[..|a| - 1], b[..|b| - 1]);
      OwnerSpelling(a[|a| - 1].name, b[|b| - 1].name);
    }
  }

  // ---------------------------------------------------------------------------
  // Which positions survive
  // ---------------------------------------------------------------------------

  /** `links` are aliases of the answer that lead from `from` to `to`, each owned by what the one
      before points to. */
  ghost predicate IsChain(rs: seq<DnsRecord>, from: string, links: seq<DnsRecord>, to: string)
    decreases |links|
  {
    if links == [] then SameName(from, to)
    else && links[0] in rs && links[0].data.Cname? && SameName(from, links[0].name)
         && IsChain(rs, links[0].data.target, links[1..], to)
  }

  ghost predicate Linked(rs: seq<DnsRecord>, from: string, to: string) { exists links :: IsChain(rs, from, links, to) }

  /** What the arm was asked, and whether and how it drops private addresses. */
  datatype Question = Question(name: string, want: string, dropPrivate: bool, isPrivate: PrivateTest)

  /** The record is linked to the question, of the type asked or an alias, and no private address
      that is to be dropped. */
  ghost predicate Wanted(rs: seq<DnsRecord>, q: Question, r: DnsRecord) {
    && Linked(rs, q.name, r.name)
    && (r.data.Cname? || AsksFor(q.want, r.data))
    && !(q.dropPrivate && (r.data.A? || r.data.Aaaa?) && q.isPrivate(r.data))
  }

  predicate Identical(a: DnsRecord, b: DnsRecord) { a.name == b.name && a.data == b.data && a.ttl == b.ttl }

  /** The same owner, data and lifetime stand at an earlier position. */
  predicate Repeated(rs: seq<DnsRecord>, j: nat)
    requires j < |rs|
  {
    exists i :: 0 <= i < j && Identical(rs[i], rs[j])
  }

  ghost predicate Survives(rs: seq<DnsRecord>, q: Question, j: nat)
    requires j < |rs|
  {
    Wanted(rs, q, rs[j]) && !Repeated(rs, j)
  }

  ghost predicate Exactly(rs: seq<DnsRecord>, q: Question, idx: seq<nat>) {
    forall j: nat :: j < |rs| ==> (j in idx <==> Survives(rs, q, j))
  }

  /** `out` holds exactly the surviving positions, in order. */
  ghost predicate IsOutcome(rs: seq<DnsRecord>, q: Question, out: seq<DnsRecord>) {
    exists idx: seq<nat> :: Picks(out, rs, idx) && Exactly(rs, q, idx)
  }

  // ---------------------------------------------------------------------------
  // Chains and reachability
  // ---------------------------------------------------------------------------

  /** The closure that the source canonicalises names with. */
  const CANONICAL: Canon := n => Canonical(n)

  lemma {:induction false} ReachFront(g: Graph, from: string, mid: string, to: string)
    requires (from, mid) in g && Reachable(g, mid, to)
    ensures Reachable(g, from, to)
  {
    var p :| IsPath(g, mid, p, to);
    assert IsPath(g, from, [from] + p, to);
  }

  lemma {:induction false} ChainReaches(rs: seq<DnsRecord>, from: string, links: seq<DnsRecord>, to: string)
    requires IsChain(rs, from, links, to)
    ensures Reachable(AnswerLinks(CANONICAL, rs), CANONICAL(from), CANONICAL(to))
    decreases |links|
  {
    var g := AnswerLinks(CANONICAL, rs);
    if links == [] {
      SameNameIff(from, to);
      ReachSelf(g, CANONICAL(from));
    } else {
      var r := links[0];
      SameNameIff(from, r.name);
      assert (CANONICAL(r.name), CANONICAL(r.data.target)) in g;
      ChainReaches(rs, r.data.target, links[1..], to);
      ReachFront(g, CANONICAL(from), CANONICAL(r.data.target), CANONICAL(to));
    }
  }

  lemma {:induction false} PathIsLinked(rs: seq<DnsRecord>, from: string, p: seq<string>, to: string)
    requires IsPath(AnswerLinks(CANONICAL, rs), CANONICAL(from), p, CANONICAL(to))
    ensures Linked(rs, from, to)
    decreases |p|
  {
    var g := AnswerLinks(CANONICAL, rs);
    if |p| == 1 {
      SameNameIff(from, to);
      assert IsChain(rs, from, [], to);
    } else {
      assert (p[0], p[1]) in g;
      var r :| r in rs && r.data.Cname? && (CANONICAL(r.name), CANONICAL(r.data.target)) == (p[0], p[1]);
      assert IsPath(g, CANONICAL(r.data.target), p[1..], CANONICAL(to));
      PathIsLinked(rs, r.data.target, p[1..], to);
      var rest :| IsChain(rs, r.data.target, rest, to);
      SameNameIff(from, r.name);
      LongerChain(rs, from, r, rest, to);
    }
  }

  lemma {:induction false} LongerChain(rs: seq<DnsRecord>, from: string, r: DnsRecord, rest: seq<DnsRecord>, to: string)
    requires r in rs && r.data.Cname? && SameName(from, r.name) && IsChain(rs, r.data.target, rest, to)
    ensures Linked(rs, from, to)
  {
    var links := [r] + rest;
    assert links[1..] == rest;
    assert IsChain(rs, from, links, to);
  }

  lemma {:induction false} LinkedIff(rs: seq<DnsRecord>, from: string, to: string)
    ensures Linked(rs, from, to) <==> Reachable(AnswerLinks(CANONICAL, rs), CANONICAL(from), CANONICAL(to))
  {
    if Linked(rs, from, to) {
      var links :| IsChain(rs, from, links, to);
      ChainReaches(rs, from, links, to);
    }
    if Reachable(AnswerLinks(CANONICAL, rs), CANONICAL(from), CANONICAL(to)) {
      var p :| IsPath(AnswerLinks(CANONICAL, rs), CANONICAL(from), p, CANONICAL(to));
      PathIsLinked(rs, from, p, to);
    }
  }

  // ---------------------------------------------------------------------------
  // The filters pick the survivors
  // ---------------------------------------------------------------------------

  type Keep = DnsRecord -> bool

  function FilteredBy(rs: seq<DnsRecord>, keep: Keep, ask: Keep, public: Keep): seq<DnsRecord> {
    Filter(Distinct(Filter(Filter(rs, keep), ask)), public)
  }

  /** Identical records are kept or dropped together. */
  ghost predicate Uniform(keep: Keep) {
    forall a, b :: IdentityOf(a) == IdentityOf(b) ==> keep(a) == keep(b)
  }

  predicate PassesAll(keep: Keep, ask: Keep, public: Keep, rs: seq<DnsRecord>, j: nat)
    requires j < |rs|
  {
    keep(rs[j]) && ask(rs[j]) && public(rs[j]) && !Repeated(rs, j)
  }

  lemma {:induction false} RepeatIsSeen(front: seq<DnsRecord>, r: DnsRecord, keep: Keep, ask: Keep)
    requires Uniform(keep) && Uniform(ask) && keep(r) && ask(r)
    ensures IdentityOf(r) in Identities(Filter(Filter(front, keep), ask)) <==> Repeated(front + [r], |front|)
  {
    FilterExact(front, keep);
    FilterExact(Filter(front, keep), ask);
    var rs := front + [r];
    if Repeated(rs, |front|) {
      var i :| 0 <= i < |front| && Identical(rs[i], r);
      assert front[i] in front && IdentityOf(front[i]) == IdentityOf(r);
      assert front[i] in Filter(Filter(front, keep), ask);
    }
    if IdentityOf(r) in Identities(Filter(Filter(front, keep), ask)) {
      var twin :| twin in Filter(Filter(front, keep), ask) && IdentityOf(twin) == IdentityOf(r);
      var i :| 0 <= i < |front| && front[i] == twin;
      assert rs[i] == twin && rs[|front|] == r && Identical(rs[i], r);
    }
  }

  lemma {:induction false} FilterSnoc<T>(front: seq<T>, x: T, keep: T -> bool)
    ensures Filter(front + [x], keep) == if keep(x) then Filter(front, keep) + [x] else Filter(front, keep)
  {
    assert (front + [x])[..|front|] == front;
  }

  lemma {:induction false} DistinctSnoc(front: seq<DnsRecord>, r: DnsRecord)
    ensures Distinct(front + [r]) == if IdentityOf(r) in Identities(front) then Distinct(front) else Distinct(front) + [r]
  {
    assert (front + [r])[..|front|] == front;
  }

  lemma {:induction false} FilteredSnoc(front: seq<DnsRecord>, r: DnsRecord, keep: Keep, ask: Keep, public: Keep)
    requires Uniform(keep) && Uniform(ask)
    ensures FilteredBy(front + [r], keep, ask, public)
         == if PassesAll(keep, ask, public, front + [r], |front|) then FilteredBy(front, keep, ask, public) + [r]
            else FilteredBy(front, keep, ask, public)
  {
    assert (front + [r])[|front|] == r;
    FilterSnoc(front, r, keep);
    if keep(r) {
      var inner := Filter(front, keep);
      FilterSnoc(inner, r, ask);
      if ask(r) {
        RepeatIsSeen(front, r, keep, ask);
        var seen := Filter(inner, ask);
        DistinctSnoc(seen, r);
        if IdentityOf(r) !in Identities(seen) { FilterSnoc(Distinct(seen), r, public); }
      }
    }
  }

  ghost predicate PicksAll(keep: Keep, ask: Keep, public: Keep, rs: seq<DnsRecord>, out: seq<DnsRecord>, idx: seq<nat>) {
    Picks(out, rs, idx) && forall j: nat :: j < |rs| ==> (j in idx <==> PassesAll(keep, ask, public, rs, j))
  }

  lemma {:induction false} RepeatedInFront(front: seq<DnsRecord>, r: DnsRecord, j: nat)
    requires j < |front|
    ensures Repeated(front + [r], j) <==> Repeated(front, j)
  {
    assert forall i :: 0 <= i <= j ==> (front + [r])[i] == front[i];
    if Repeated(front, j) {
      var i :| 0 <= i < j && Identical(front[i], front[j]);
      assert Identical((front + [r])[i], (front + [r])[j]);
    }
  }

  lemma {:induction false} PicksSnoc(keep: Keep, ask: Keep, public: Keep, front: seq<DnsRecord>, r: DnsRecord,
                                     out: seq<DnsRecord>, idx: seq<nat>)
    requires PicksAll(keep, ask, public, front, out, idx)
    ensures var on := PassesAll(keep, ask, public, front + [r], |front|);
            PicksAll(keep, ask, public, front + [r], if on then out + [r] else out, if on then idx + [|front|] else idx)
  {
    var rs, on := front + [r], PassesAll(keep, ask, public, front + [r], |front|);
    var idx' := if on then idx + [|front|] else idx;
    forall j: nat | j < |rs| ensures j in idx' <==> PassesAll(keep, ask, public, rs, j) {
      if j < |front| { RepeatedInFront(front, r, j); }
      assert |front| !in idx;
    }
  }

  lemma {:induction false} FilteredPicks(rs: seq<DnsRecord>, keep: Keep, ask: Keep, public: Keep) returns (idx: seq<nat>)
    requires Uniform(keep) && Uniform(ask)
    ensures PicksAll(keep, ask, public, rs, FilteredBy(rs, keep, ask, public), idx)
  {
    if rs == [] {
      idx := [];
    } else {
      var front, r := rs[..|rs| - 1], rs[|rs| - 1];
      assert rs == front + [r];
      idx := FilteredPicks(front, keep, ask, public);
      FilteredSnoc(front, r, keep, ask, public);
      PicksSnoc(keep, ask, public, front, r, FilteredBy(front, keep, ask, public), idx);
      if PassesAll(keep, ask, public, rs, |front|) { idx := idx + [|front|]; }
    }
  }

  ghost function KeepFor(rs: seq<DnsRecord>, q: Question): Keep { (r: DnsRecord) => InBailiwick(CANONICAL, rs, q.name, r) }

  function AskFor(q: Question): Keep { (r: DnsRecord) => Requested(q.want, r) }

  function PublicFor(q: Question): Keep { (r: DnsRecord) => !(q.dropPrivate && HasPrivateAddress(q.isPrivate, r)) }

  lemma {:induction false} FiltersMeanWanted(rs: seq<DnsRecord>, q: Question, r: DnsRecord)
    ensures Wanted(rs, q, r) <==> KeepFor(rs, q)(r) && AskFor(q)(r) && PublicFor(q)(r)
  {
    LinkedIff(rs, q.name, r.name);
    TypeNameIff(q.want, r.data);
  }

  /** What the pipeline and the private-address filter leave. */
  ghost function Filtered(rs: seq<DnsRecord>, q: Question): seq<DnsRecord> {
    var sane := Sane(CANONICAL, rs, q.name, q.want);
    if q.dropPrivate then Public(q.isPrivate, sane) else sane
  }

  lemma {:induction false} FilteredIsFilteredBy(rs: seq<DnsRecord>, q: Question)
    ensures Filtered(rs, q) == FilteredBy(rs, KeepFor(rs, q), AskFor(q), PublicFor(q))
  {
    FilterSame(rs, r => InBailiwick(CANONICAL, rs, q.name, r), KeepFor(rs, q));
    var b := Bailiwick(CANONICAL, rs, q.name);
    FilterSame(b, r => Requested(q.want, r), AskFor(q));
    var sane := Sane(CANONICAL, rs, q.name, q.want);
    if q.dropPrivate {
      FilterSame(sane, r => !HasPrivateAddress(q.isPrivate, r), PublicFor(q));
    } else {
      FilterAll(sane, PublicFor(q));
    }
  }

  /** The filters leave exactly the surviving positions, in order. */
  lemma {:induction false} FiltersPickSurvivors(rs: seq<DnsRecord>, q: Question)
    ensures IsOutcome(rs, q, Filtered(rs, q))
  {
    var keep, ask, public := KeepFor(rs, q), AskFor(q), PublicFor(q);
    FilteredIsFilteredBy(rs, q);
    var idx := FilteredPicks(rs, keep, ask, public);
    forall j: nat | j < |rs| ensures j in idx <==> Survives(rs, q, j) {
      assert j in idx <==> PassesAll(keep, ask, public, rs, j);
      FiltersMeanWanted(rs, q, rs[j]);
    }
    assert Picks(Filtered(rs, q), rs, idx) && Exactly(rs, q, idx);
  }

  /** What a resolver arm does with the records of one upstream answer: the sanity filters,
      and on the default arm, if configured, the private-address filter. */
  method SanitiseUpstream(answer: seq<Wire>, qname: string, want: string, onDefault: bool, blockPrivate: bool, isPrivate: PrivateTest)
    returns (records: seq<DnsRecord>, dropped: nat)
    ensures IsOutcome(Stored(answer), Question(qname, want, onDefault && blockPrivate, isPrivate), records)
    ensures dropped == |Stored(answer)| - |records|
  {
    ghost var q := Question(qname, want, onDefault && blockPrivate, isPrivate);
    var stored := FromWire(answer);
    var a := new Answer(stored);
    dropped := a.FilterAnswerSanity(CANONICAL, qname, want);
    if onDefault && blockPrivate {
      var more := a.FilterPrivateRdata(isPrivate);
      dropped := dropped + more;
    }
    records := a.records;
    FiltersPickSurvivors(stored, q);
    assert records == Filtered(stored, q);
  }

  // ---------------------------------------------------------------------------
  // What the survivors are
  // ---------------------------------------------------------------------------

  /** The first record of an identity survives if any does. */
  lemma {:induction false} WantedIsServed(rs: seq<DnsRecord>, q: Question, out: seq<DnsRecord>, j: nat)
    requires IsOutcome(rs, q, out) && j < |rs| && Wanted(rs, q, rs[j])
    ensures exists r :: r in out && Identical(r, rs[j])
    decreases j
  {
    if Repeated(rs, j) {
      var i :| 0 <= i < j && Identical(rs[i], rs[j]);
      WantedIsServed(rs, q, out, i);
    } else {
      var idx: seq<nat> :| Picks(out, rs, idx) && Exactly(rs, q, idx);
      assert Survives(rs, q, j) && j in idx;
      var k :| 0 <= k < |idx| && idx[k] == j;
      assert out[k] == rs[j] && Identical(out[k], rs[j]);
    }
  }

  /** A record of the type asked whose owner is the query name, however both are spelt, is in the
      output, unless it is a private address that is to be dropped. */
  lemma {:induction false} DirectRecordIsServed(rs: seq<DnsRecord>, q: Question, out: seq<DnsRecord>, j: nat)
    requires IsOutcome(rs, q, out) && j < |rs| && SameName(q.name, rs[j].name) && AsksFor(q.want, rs[j].data)
    requires q.dropPrivate && (rs[j].data.A? || rs[j].data.Aaaa?) ==> !q.isPrivate(rs[j].data)
    ensures exists r :: r in out && Identical(r, rs[j])
  {
    assert IsChain(rs, q.name, [], rs[j].name);
    WantedIsServed(rs, q, out, j);
  }

  /** A record that no alias chain links to the question is not in the output, nor is one of
      another type. */
  lemma {:induction false} UnlinkedIsDropped(rs: seq<DnsRecord>, q: Question, out: seq<DnsRecord>, r: DnsRecord)
    requires IsOutcome(rs, q, out) && r in out
    ensures Linked(rs, q.name, r.name) && (r.data.Cname? || AsksFor(q.want, r.data)) && r in rs
  {
    var idx: seq<nat> :| Picks(out, rs, idx) && Exactly(rs, q, idx);
    var k :| 0 <= k < |out| && out[k] == r;
    assert idx[k] in idx && Survives(rs, q, idx[k]);
  }

  /** An outcome is determined by the answer and the question. */
  lemma {:induction false} OutcomeUnique(rs: seq<DnsRecord>, q: Question, a: seq<DnsRecord>, b: seq<DnsRecord>)
    requires IsOutcome(rs, q, a) && IsOutcome(rs, q, b)
    ensures a == b
  {
    var i: seq<nat> :| Picks(a, rs, i) && Exactly(rs, q, i);
    var j: seq<nat> :| Picks(b, rs, j) && Exactly(rs, q, j);
    forall k: nat ensures k in i <==> k in j {
      if k < |rs| { assert (k in i <==> Survives(rs, q, k)) && (k in j <==> Survives(rs, q, k)); }
    }
    AscendingUnique(i, j);
  }

  predicate Increasing(s: seq<nat>) { forall i, j :: 0 <= i < j < |s| ==> s[i] < s[j] }

  lemma {:induction false} AscendingUnique(a: seq<nat>, b: seq<nat>)
    requires Increasing(a) && Increasing(b) && forall k :: k in a <==> k in b
    ensures a == b
  {
    assert (a != [] ==> a[0] in b) && (b != [] ==> b[0] in a);
    if a != [] {
      var x, y := a[|a| - 1], b[|b| - 1];
      assert x in b && y in a;
      assert x == y;
      var p, q := a[..|a| - 1], b[..|b| - 1];
      assert a == p + [x] && b == q + [x];
      assert x !in p && x !in q;
      forall k ensures k in p <==> k in q {
        assert (k in a <==> k in p || k == x) && (k in b <==> k in q || k == x);
      }
      AscendingUnique(p, q);
    }
  }

  // ---------------------------------------------------------------------------
  // Spellings
  // ---------------------------------------------------------------------------

  /** The same record up to the spelling of its owner and of the name an alias points to. */
  ghost predicate Respelt(a: DnsRecord, b: DnsRecord) {
    && SameName(a.name, b.name) && a.ttl == b.ttl
    && (a.data == b.data || (a.data.Cname? && b.data.Cname? && SameName(a.data.target, b.data.target)))
  }

  ghost predicate AllRespelt(a: seq<DnsRecord>, b: seq<DnsRecord>) {
    |a| == |b| && forall i :: 0 <= i < |a| ==> Respelt(a[i], b[i])
  }

  lemma {:induction false} RespeltLinks(a: seq<DnsRecord>, b: seq<DnsRecord>)
    requires AllRespelt(a, b)
    ensures AnswerLinks(CANONICAL, a) <= AnswerLinks(CANONICAL, b)
  {
    forall link | link in AnswerLinks(CANONICAL, a) ensures link in AnswerLinks(CANONICAL, b) {
      var r :| r in a && r.data.Cname? && link == (CANONICAL(r.name), CANONICAL(r.data.target));
      var i :| 0 <= i < |a| && a[i] == r;
      assert Respelt(a[i], b[i]) && b[i] in b;
      SameNameIff(a[i].name, b[i].name);
      SameNameIff(a[i].data.target, b[i].data.target);
    }
  }

  lemma {:induction false} RespeltBack(a: seq<DnsRecord>, b: seq<DnsRecord>)
    requires AllRespelt(a, b)
    ensures AllRespelt(b, a)
  {
    forall i | 0 <= i < |a| ensures Respelt(b[i], a[i]) {
      assert Respelt(a[i], b[i]);
      SameNameIff(a[i].name, b[i].name);
      SameNameIff(b[i].name, a[i].name);
      if a[i].data.Cname? && b[i].data.Cname? {
        SameNameIff(a[i].data.target, b[i].data.target);
        SameNameIff(b[i].data.target, a[i].data.target);
      }
    }
  }

  lemma {:induction false} SpellingKeepsLinks(a: seq<DnsRecord>, b: seq<DnsRecord>, from: string, to: string, from': string, to': string)
    requires AllRespelt(a, b) && SameName(from, from') && SameName(to, to')
    ensures Linked(a, from, to) <==> Linked(b, from', to')
  {
    RespeltLinks(a, b);
    RespeltBack(a, b);
    RespeltLinks(b, a);
    assert AnswerLinks(CANONICAL, a) == AnswerLinks(CANONICAL, b);
    SameNameIff(from, from');
    SameNameIff(to, to');
    LinkedIff(a, from, to);
    LinkedIff(b, from', to');
  }

  /** Which records are linked to the question, of its type and public does not depend on any
      spelling: not of the query name, the owners, or the alias targets. */
  lemma {:induction false} SpellingKeepsWanted(a: seq<DnsRecord>, b: seq<DnsRecord>, p: Question, q: Question, j: nat)
    requires AllRespelt(a, b) && j < |a| && SameName(p.name, q.name) && q == p.(name := q.name)
    ensures Wanted(a, p, a[j]) <==> Wanted(b, q, b[j])
  {
    assert Respelt(a[j], b[j]);
    SpellingKeepsLinks(a, b, p.name, a[j].name, q.name, b[j].name);
  }

  /** The same positions survive both answers. */
  ghost predicate SameSurvivors(a: seq<DnsRecord>, b: seq<DnsRecord>, p: Question, q: Question)
    requires |a| == |b|
  {
    forall j: nat :: j < |a| ==> (Survives(a, p, j) <==> Survives(b, q, j))
  }

  /** Respelling an answer and its question leaves the surviving positions as they are, if and
      only if it neither makes nor breaks a repetition among the wanted records. */
  lemma {:induction false} SpellingIsIrrelevantIff(a: seq<DnsRecord>, b: seq<DnsRecord>, p: Question, q: Question)
    requires AllRespelt(a, b) && SameName(p.name, q.name) && q == p.(name := q.name)
    ensures SameSurvivors(a, b, p, q)
       <==> forall j: nat :: j < |a| && Wanted(a, p, a[j]) ==> (Repeated(a, j) <==> Repeated(b, j))
  {
    forall j: nat | j < |a| ensures Wanted(a, p, a[j]) <==> Wanted(b, q, b[j]) { SpellingKeepsWanted(a, b, p, q, j); }
    if SameSurvivors(a, b, p, q) {
      forall j: nat | j < |a| && Wanted(a, p, a[j]) ensures Repeated(a, j) <==> Repeated(b, j) {
        assert Survives(a, p, j) <==> Survives(b, q, j);
      }
    }
  }

  lemma {:induction false} RespeltSelf(a: seq<DnsRecord>)
    ensures AllRespelt(a, a)
  {
    forall i | 0 <= i < |a| ensures Respelt(a[i], a[i]) { SameNameIff(a[i].name, a[i].name); }
  }

  /** So the spelling of the query name never matters. */
  lemma {:induction false} QuerySpellingIsIrrelevant(rs: seq<DnsRecord>, p: Question, q: Question, out: seq<DnsRecord>)
    requires SameName(p.name, q.name) && q == p.(name := q.name)
    ensures IsOutcome(rs, p, out) <==> IsOutcome(rs, q, out)
  {
    RespeltSelf(rs);
    SpellingIsIrrelevantIff(rs, rs, p, q);
    assert SameSurvivors(rs, rs, p, q);
    forall idx: seq<nat> ensures Exactly(rs, p, idx) <==> Exactly(rs, q, idx) { SameExactly(rs, p, q, idx); }
  }

  lemma {:induction false} SameExactly(rs: seq<DnsRecord>, p: Question, q: Question, idx: seq<nat>)
    requires SameSurvivors(rs, rs, p, q)
    ensures Exactly(rs, p, idx) <==> Exactly(rs, q, idx)
  {
    forall j: nat | j < |rs| ensures (j in idx <==> Survives(rs, p, j)) <==> (j in idx <==> Survives(rs, q, j)) {
      assert Survives(rs, p, j) <==> Survives(rs, q, j);
    }
  }

  /** A respelling that does matter: two aliases of one name to two spellings of another are two
      records, and one record once they are spelt alike. */
  lemma {:induction false} TargetSpellingCanMatter(q: Question)
    requires q.name == "a."
    ensures var x, y := DnsRecord("a.", Cname("B."), 60, None), DnsRecord("a.", Cname("b."), 60, None);
            AllRespelt([x, y], [y, y]) && Survives([x, y], q, 1) && !Survives([y, y], q, 1)
  {
    var x, y := DnsRecord("a.", Cname("B."), 60, None), DnsRecord("a.", Cname("b."), 60, None);
    assert SameFront("a.", "a.", 2) && SameFront("B.", "b.", 2);
    assert SameName("a.", "a.") && SameName("B.", "b.");
    assert Respelt(x, y) && Respelt(y, y);
    assert "B."[0] != "b."[0];
    assert IsChain([x, y], q.name, [], "a.");
    assert Identical([y, y][0], [y, y][1]) && !Identical([x, y][0], [x, y][1]);
  }
}
