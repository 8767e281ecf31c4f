/** The sanity pipeline for upstream answers: bailiwick containment (compare section 6 of
    RFC 5452), unrequested types, identical records. */
module AnswerSanity {
  import opened Names
  import opened Sequences
  import opened Records

  // ---------------------------------------------------------------------------
  // Reachability in the CNAME graph
  // ---------------------------------------------------------------------------

  type Graph = set<(string, string)>

  /** `p` walks along links of `g` from its first name to its last. */
  predicate IsPath(g: Graph, from: string, p: seq<string>, to: string) {
    && |p| >= 1 && p[0] == from && p[|p| - 1] == to
    && forall i :: 0 <= i < |p| - 1 ==> (p[i], p[i + 1]) in g
  }

  ghost predicate Reachable(g: Graph, from: string, to: string) {
    exists p :: IsPath(g, from, p, to)
  }

  lemma {:induction false} ReachSelf(g: Graph, from: string)
    ensures Reachable(g, from, from)
  {
    assert IsPath(g, from, [from], from);
  }

  lemma {:induction false} ReachStep(g: Graph, from: string, mid: string, to: string)
    requires Reachable(g, from, mid) && (mid, to) in g
    ensures Reachable(g, from, to)
  {
    var p :| IsPath(g, from, p, mid);
    assert IsPath(g, from, p + [to], to);
  }

  /** A set that holds the start and is closed under links holds everything reachable. */
  lemma {:induction false} ClosedHoldsPath(g: Graph, closed: set<string>, from: string, p: seq<string>, to: string)
    requires IsPath(g, from, p, to) && from in closed
    requires forall a, b :: a in closed && (a, b) in g ==> b in closed
    ensures to in closed
  {
    if |p| > 1 {
      var q := p[..|p| - 1];
      assert (q[|q| - 1], p[|p| - 1]) in g;
      ClosedHoldsPath(g, closed, from, q, q[|q| - 1]);
    }
  }

  /** Dropping links that no path from `from` uses loses no reachable name. */
  lemma {:induction false} ReachInSubgraph(g: Graph, h: Graph, from: string, p: seq<string>, to: string)
    requires IsPath(g, from, p, to)
    requires forall a, b :: (a, b) in g && Reachable(g, from, a) ==> (a, b) in h
    ensures Reachable(h, from, to)
  {
    if |p| == 1 {
      ReachSelf(h, from);
    } else {
      var q := p[..|p| - 1];
      var mid := q[|q| - 1];
      assert IsPath(g, from, q, mid);
      ReachInSubgraph(g, h, from, q, mid);
      assert (mid, p[|p| - 1]) in g;
      ReachStep(h, from, mid, to);
    }
  }

  // ---------------------------------------------------------------------------
  // The fixpoint loop
  // ---------------------------------------------------------------------------

  /** The links announced by the precomputed owners and alias targets. */
  function LinksOf(owners: seq<string>, targets: seq<Option<string>>): Graph
    requires |owners| == |targets|
  {
    set i | 0 <= i < |owners| && targets[i].Some? :: (owners[i], targets[i].value)
  }

  /** The names within bailiwick: exactly those reachable from the query name.  The loop
      ends on every answer, cyclic ones included. */
  method AllowedNames(owners: seq<string>, targets: seq<Option<string>>, qname: string) returns (allowed: set<string>)
    requires |owners| == |targets|
    ensures forall n :: n in allowed <==> Reachable(LinksOf(owners, targets), qname, n)
  {
    ghost var g := LinksOf(owners, targets);
    ghost var all := {qname} + set i | 0 <= i < |targets| && targets[i].Some? :: targets[i].value;
    allowed := {qname};
    ReachSelf(g, qname);
    var grew := true;
    while grew
      invariant qname in allowed && allowed <= all
      invariant forall n :: n in allowed ==> Reachable(g, qname, n)
      invariant !grew ==> forall i :: 0 <= i < |owners| && targets[i].Some? && owners[i] in allowed ==> targets[i].value in allowed
      decreases |all - allowed|, grew
    {
      grew := false;
      ghost var before := allowed;
      for i := 0 to |owners|
        invariant before <= allowed <= all
        invariant grew <==> before != allowed
        invariant forall n :: n in allowed ==> Reachable(g, qname, n)
        invariant !grew ==> forall j :: 0 <= j < i && targets[j].Some? && owners[j] in allowed ==> targets[j].value in allowed
      {
        if targets[i].Some? && owners[i] in allowed && targets[i].value !in allowed {
          assert (owners[i], targets[i].value) in g;
          ReachStep(g, qname, owners[i], targets[i].value);
          allowed := allowed + {targets[i].value};
          grew := true;
        }
      }
      if grew {
        ghost var x :| x in allowed && x !in before;
        assert x in all - before && x !in all - allowed;
        assert all - allowed < all - before;
        CardinalityDrops(all - allowed, all - before);
      }
    }
    forall n | Reachable(g, qname, n) ensures n in allowed {
      var p :| IsPath(g, qname, p, n);
      ClosedHoldsPath(g, allowed, qname, p, n);
    }
  }

  lemma {:induction false} CardinalityDrops<T>(a: set<T>, b: set<T>)
    requires a < b
    ensures |a| < |b|
  {
    var x :| x in b && x !in a;
    assert a <= b - {x};
    assert b == (b - {x}) + {x};
    SubsetCardinality(a, b - {x});
  }

  lemma {:induction false} SubsetCardinality<T>(a: set<T>, b: set<T>)
    requires a <= b
    ensures |a| <= |b|
  {
    if a != {} {
      var x :| x in a;
      SubsetCardinality(a - {x}, b - {x});
    }
  }

  // ---------------------------------------------------------------------------
  // What each stage keeps
  // ---------------------------------------------------------------------------

  /** A name in canonical form; the source canonicalises owners, targets and the query name
      with one closure. */
  type Canon = string -> string

  function AnswerLinks(canon: Canon, rs: seq<DnsRecord>): Graph {
    set r | r in rs && r.data.Cname? :: (canon(r.name), canon(r.data.target))
  }

  ghost predicate InBailiwick(canon: Canon, rs: seq<DnsRecord>, qname: string, r: DnsRecord) {
    Reachable(AnswerLinks(canon, rs), canon(qname), canon(r.name))
  }

  /** The records whose owner is reachable from the query name through the answer's own
      aliases. */
  ghost function Bailiwick(canon: Canon, rs: seq<DnsRecord>, qname: string): seq<DnsRecord> {
    Filter(rs, r => InBailiwick(canon, rs, qname, r))
  }

  /** Aliases explain the answer and always stay; other records must be of the type asked. */
  predicate Requested(want: string, r: DnsRecord) { r.data.Cname? || TypeName(r.data) == want }

  function OfRequestedType(rs: seq<DnsRecord>, want: string): seq<DnsRecord> {
    Filter(rs, r => Requested(want, r))
  }

  /** The private, local and reserved address ranges, which this model leaves open. */
  type PrivateTest = RecordData -> bool

  predicate HasPrivateAddress(isPrivate: PrivateTest, r: DnsRecord) { (r.data.A? || r.data.Aaaa?) && isPrivate(r.data) }

  function Public(isPrivate: PrivateTest, rs: seq<DnsRecord>): seq<DnsRecord> {
    Filter(rs, r => !HasPrivateAddress(isPrivate, r))
  }

  datatype Identity = Identity(name: string, data: RecordData, ttl: nat)

  function IdentityOf(r: DnsRecord): Identity { Identity(r.name, r.data, r.ttl) }

  function Identities(rs: seq<DnsRecord>): set<Identity> { set r | r in rs :: IdentityOf(r) }

  /** The first record of each identity. */
  function Distinct(rs: seq<DnsRecord>): seq<DnsRecord> {
    if rs == [] then []
    else
      var front, r := rs[..|rs| - 1], rs[|rs| - 1];
      Distinct(front) + (if IdentityOf(r) in Identities(front) then [] else [r])
  }

  ghost function Sane(canon: Canon, rs: seq<DnsRecord>, qname: string, want: string): seq<DnsRecord> {
    Distinct(OfRequestedType(Bailiwick(canon, rs, qname), want))
  }

  lemma {:induction false} IdentitiesSnoc(front: seq<DnsRecord>, r: DnsRecord)
    ensures Identities(front + [r]) == Identities(front) + {IdentityOf(r)}
  {
  }

  lemma {:induction false} DistinctExact(rs: seq<DnsRecord>)
    ensures Identities(Distinct(rs)) == Identities(rs)
    ensures forall r :: r in Distinct(rs) ==> r in rs
    ensures forall i, j :: 0 <= i < j < |Distinct(rs)| ==> IdentityOf(Distinct(rs)[i]) != IdentityOf(Distinct(rs)[j])
  {
    if rs != [] {
      var front, r := rs[..|rs| - 1], rs[|rs| - 1];
      assert rs == front + [r];
      DistinctExact(front);
      IdentitiesSnoc(front, r);
      IdentitiesSnoc(Distinct(front), r);
      if IdentityOf(r) !in Identities(front) {
        forall i | 0 <= i < |Distinct(front)| ensures IdentityOf(Distinct(front)[i]) != IdentityOf(r) {
          assert Distinct(front)[i] in front;
        }
      }
    }
  }

  lemma {:induction false} DistinctStep(rs: seq<DnsRecord>, i: nat)
    requires i < |rs|
    ensures Identities(rs[..i + 1]) == Identities(rs[..i]) + {IdentityOf(rs[i])}
    ensures Distinct(rs[..i + 1]) == Distinct(rs[..i]) + (if IdentityOf(rs[i]) in Identities(rs[..i]) then [] else [rs[i]])
  {
    assert rs[..i + 1][..i] == rs[..i] && rs[..i + 1] == rs[..i] + [rs[i]];
    IdentitiesSnoc(rs[..i], rs[i]);
  }

  lemma {:induction false} DistinctOfDistinct(rs: seq<DnsRecord>)
    requires forall i, j :: 0 <= i < j < |rs| ==> IdentityOf(rs[i]) != IdentityOf(rs[j])
    ensures Distinct(rs) == rs
  {
    if rs != [] {
      var front, r := rs[..|rs| - 1], rs[|rs| - 1];
      assert rs == front + [r];
      DistinctOfDistinct(front);
    }
  }

  // ---------------------------------------------------------------------------
  // Which records survive
  // ---------------------------------------------------------------------------

  lemma {:induction false} SameRecordsSameLinks(canon: Canon, a: seq<DnsRecord>, b: seq<DnsRecord>)
    requires forall r :: r in a <==> r in b
    ensures AnswerLinks(canon, a) == AnswerLinks(canon, b)
  {
  }

  /** Reordering the answer never changes which records are within bailiwick. */
  lemma {:induction false} BailiwickIgnoresOrder(canon: Canon, a: seq<DnsRecord>, b: seq<DnsRecord>, qname: string)
    requires multiset(a) == multiset(b)
    ensures multiset(Bailiwick(canon, a, qname)) == multiset(Bailiwick(canon, b, qname))
  {
    forall r ensures r in a <==> r in b {
      assert r in multiset(a) <==> r in multiset(b);
    }
    SameRecordsSameLinks(canon, a, b);
    forall x ensures multiset(Bailiwick(canon, a, qname))[x] == multiset(Bailiwick(canon, b, qname))[x] {
      FilterCounts(a, r => InBailiwick(canon, a, qname, r), x);
      FilterCounts(b, r => InBailiwick(canon, b, qname, r), x);
    }
  }

  /** The output holds the identity of a record of the answer exactly when the record is
      within bailiwick and of the requested type, and it holds each identity once. */
  lemma {:induction false} SaneExact(canon: Canon, rs: seq<DnsRecord>, qname: string, want: string)
    ensures var out := Sane(canon, rs, qname, want);
            && (forall r :: r in out ==> r in rs && InBailiwick(canon, rs, qname, r) && Requested(want, r))
            && (forall r :: r in rs && InBailiwick(canon, rs, qname, r) && Requested(want, r) ==> IdentityOf(r) in Identities(out))
            && (forall i, j :: 0 <= i < j < |out| ==> IdentityOf(out[i]) != IdentityOf(out[j]))
  {
    var b := Bailiwick(canon, rs, qname);
    var t := OfRequestedType(b, want);
    FilterExact(rs, r => InBailiwick(canon, rs, qname, r));
    FilterExact(b, r => Requested(want, r));
    DistinctExact(t);
  }

  /** The type filter and the deduplication never break a link that the bailiwick walk used:
      every output record is still reachable through the output's own aliases. */
  lemma {:induction false} OutputLinksSuffice(canon: Canon, rs: seq<DnsRecord>, qname: string, want: string, r: DnsRecord)
    requires r in Sane(canon, rs, qname, want)
    ensures InBailiwick(canon, Sane(canon, rs, qname, want), qname, r)
  {
    var out := Sane(canon, rs, qname, want);
    SaneExact(canon, rs, qname, want);
    var g, h := AnswerLinks(canon, rs), AnswerLinks(canon, out);
    forall a, b | (a, b) in g && Reachable(g, canon(qname), a) ensures (a, b) in h {
      var link :| link in rs && link.data.Cname? && canon(link.name) == a && canon(link.data.target) == b;
      assert InBailiwick(canon, rs, qname, link);
      assert IdentityOf(link) in Identities(out);
      var twin :| twin in out && IdentityOf(twin) == IdentityOf(link);
    }
    var p :| IsPath(g, canon(qname), p, canon(r.name));
    ReachInSubgraph(g, h, canon(qname), p, canon(r.name));
  }

  /** Running the pipeline on its own output drops nothing. */
  lemma {:induction false} SaneIsIdempotent(canon: Canon, rs: seq<DnsRecord>, qname: string, want: string)
    ensures Sane(canon, Sane(canon, rs, qname, want), qname, want) == Sane(canon, rs, qname, want)
  {
    var out := Sane(canon, rs, qname, want);
    SaneExact(canon, rs, qname, want);
    forall r | r in out ensures InBailiwick(canon, out, qname, r) && Requested(want, r) {
      OutputLinksSuffice(canon, rs, qname, want, r);
    }
    FilterAll(out, r => InBailiwick(canon, out, qname, r));
    FilterAll(out, r => Requested(want, r));
    DistinctOfDistinct(out);
  }

  // ---------------------------------------------------------------------------
  // Order is kept
  // ---------------------------------------------------------------------------

  lemma {:induction false} DistinctIsSubsequence(rs: seq<DnsRecord>)
    ensures Subsequence(Distinct(rs), rs)
  {
    if rs == [] {
      assert Picks(Distinct(rs), rs, []);
    } else {
      var front, last := rs[..|rs| - 1], rs[|rs| - 1];
      assert rs == front + [last];
      DistinctIsSubsequence(front);
      SubsequenceSnoc(Distinct(front), front, last);
      assert Distinct(rs) == if IdentityOf(last) in Identities(front) then Distinct(front) else Distinct(front) + [last];
    }
  }

  /** The pipeline returns a subsequence of the answer. */
  lemma {:induction false} SaneIsSubsequence(canon: Canon, rs: seq<DnsRecord>, qname: string, want: string)
    ensures Subsequence(Sane(canon, rs, qname, want), rs)
  {
    var b := Bailiwick(canon, rs, qname);
    var t := OfRequestedType(b, want);
    FilterIsSubsequence(rs, r => InBailiwick(canon, rs, qname, r));
    FilterIsSubsequence(b, r => Requested(want, r));
    DistinctIsSubsequence(t);
    SubsequenceTransitive(t, b, rs);
    SubsequenceTransitive(Distinct(t), t, rs);
  }

  // ---------------------------------------------------------------------------
  // The filters, in place
  // ---------------------------------------------------------------------------

  class Answer {
    var records: seq<DnsRecord>

    constructor (records: seq<DnsRecord>)
      ensures this.records == records
    {
      this.records := records;
    }

    method FilterOutOfBailiwick(canon: Canon, qname: string) returns (dropped: nat)
      modifies this
      ensures records == Bailiwick(canon, old(records), qname)
      ensures dropped == |old(records)| - |records|
    {
      var owners := seq(|records|, i requires 0 <= i < |records| reads this => canon(records[i].name));
      var targets := seq(|records|, i requires 0 <= i < |records| reads this =>
        if records[i].data.Cname? then Some(canon(records[i].data.target)) else None);
      assert LinksOf(owners, targets) == AnswerLinks(canon, records) by {
        LinksAgree(canon, records, owners, targets);
      }
      var allowed := AllowedNames(owners, targets, canon(qname));
      var kept: seq<DnsRecord> := [];
      var was := records;
      for idx := 0 to |was|
        invariant records == was
        invariant kept == Filter(was[..idx], r => InBailiwick(canon, was, qname, r))
        invariant |kept| <= idx
      {
        assert was[..idx + 1][..idx] == was[..idx];
        if owners[idx] in allowed { kept := kept + [was[idx]]; }
      }
      assert was[..|was|] == was;
      dropped := |was| - |kept|;
      records := kept;
    }

    /** `filter_wrong_type`: what is not of the requested type goes, everything else stays as
        often and in the order it was. */
    method FilterWrongType(want: string) returns (dropped: nat)
      modifies this
      ensures Subsequence(records, old(records))
      ensures forall r :: multiset(records)[r] == if Requested(want, r) then multiset(old(records))[r] else 0
      ensures records == OfRequestedType(old(records), want)
      ensures dropped == |old(records)| - |records|
    {
      dropped := Retain(r => Requested(want, r));
    }

    /** `filter_private_rdata`: the addresses that `isPrivate` names go. */
    method FilterPrivateRdata(isPrivate: PrivateTest) returns (dropped: nat)
      modifies this
      ensures Subsequence(records, old(records))
      ensures forall r :: multiset(records)[r] == if HasPrivateAddress(isPrivate, r) then 0 else multiset(old(records))[r]
      ensures records == Public(isPrivate, old(records))
      ensures dropped == |old(records)| - |records|
    {
      dropped := Retain(r => !HasPrivateAddress(isPrivate, r));
    }

    /** `Vec::retain`, with the number of elements it removes. */
    method Retain(keep: DnsRecord -> bool) returns (dropped: nat)
      modifies this
      ensures records == Filter(old(records), keep)
      ensures Subsequence(records, old(records))
      ensures forall r :: multiset(records)[r] == if keep(r) then multiset(old(records))[r] else 0
      ensures dropped == |old(records)| - |records|
    {
      var was, kept := records, [];
      dropped := 0;
      for i := 0 to |was|
        invariant records == was && kept == Filter(was[..i], keep) && dropped + |kept| == i
      {
        assert was[..i + 1][..i] == was[..i];
        if keep(was[i]) { kept := kept + [was[i]]; } else { dropped := dropped + 1; }
      }
      assert was[..|was|] == was;
      FilterIsSubsequence(was, keep);
      forall r ensures multiset(kept)[r] == if keep(r) then multiset(was)[r] else 0 { FilterCounts(was, keep, r); }
      records := kept;
    }

    method DedupIdentical() returns (dropped: nat)
      modifies this
      ensures records == Distinct(old(records))
      ensures dropped == |old(records)| - |records|
    {
      var seen: set<Identity> := {};
      var kept: seq<DnsRecord> := [];
      var was := records;
      for i := 0 to |was|
        invariant records == was
        invariant seen == Identities(was[..i])
        invariant kept == Distinct(was[..i])
        invariant |kept| <= i
      {
        DistinctStep(was, i);
        if IdentityOf(was[i]) !in seen {
          seen := seen + {IdentityOf(was[i])};
          kept := kept + [was[i]];
        }
      }
      assert was[..|was|] == was;
      dropped := |was| - |kept|;
      records := kept;
    }

    /** The whole pipeline; the drop count is the total over the three stages. */
    method FilterAnswerSanity(canon: Canon, qname: string, want: string) returns (dropped: nat)
      modifies this
      ensures records == Sane(canon, old(records), qname, want)
      ensures dropped == |old(records)| - |records|
    {
      var a := FilterOutOfBailiwick(canon, qname);
      var b := FilterWrongType(want);
      var c := DedupIdentical();
      dropped := a + b + c;
    }
  }

  lemma {:induction false} LinksAgree(canon: Canon, rs: seq<DnsRecord>, owners: seq<string>, targets: seq<Option<string>>)
    requires |owners| == |targets| == |rs|
    requires forall i :: 0 <= i < |rs| ==> owners[i] == canon(rs[i].name)
    requires forall i :: 0 <= i < |rs| ==>
               targets[i] == if rs[i].data.Cname? then Some(canon(rs[i].data.target)) else None
    ensures LinksOf(owners, targets) == AnswerLinks(canon, rs)
  {
    forall link | link in AnswerLinks(canon, rs) ensures link in LinksOf(owners, targets) {
      var r :| r in rs && r.data.Cname? && link == (canon(r.name), canon(r.data.target));
      var i :| 0 <= i < |rs| && rs[i] == r;
      assert targets[i].Some?;
    }
    forall link | link in LinksOf(owners, targets) ensures link in AnswerLinks(canon, rs) {
      var i :| 0 <= i < |owners| && targets[i].Some? && link == (owners[i], targets[i].value);
      assert rs[i] in rs && rs[i].data.Cname?;
    }
  }
}
