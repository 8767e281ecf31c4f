/** Authoritative lookup: the direct answer, or the alias chain chased inside the
    authority's own zones (section 3.6.2 of RFC 1034). */
module Lookup {
  import opened Names
  import opened Sequences
  import opened Spelling
  import opened Records
  import opened ZoneStore

  const MAX_CNAME_DEPTH: nat := 8

  function UpperChar(c: char): char {
    if 'a' <= c <= 'z' then (c as int - 32) as char else c
  }

  function Upper(s: string): string { seq(|s|, i requires 0 <= i < |s| => UpperChar(s[i])) }

  /** The records of one type, in store order. */
  function OfType(rs: seq<DnsRecord>, rtype: string): (out: seq<DnsRecord>)
    ensures forall r :: r in out <==> r in rs && TypeName(r.data) == rtype
  {
    if rs == [] then []
    else (if TypeName(rs[0].data) == rtype then [rs[0]] else []) + OfType(rs[1..], rtype)
  }

  function Asking(rtype: string): DnsRecord -> bool { (r: DnsRecord) => AsksFor(rtype, r.data) }

  /** They are the ones the question asks for, in their order. */
  lemma {:induction false} OfTypeIsFilter(rs: seq<DnsRecord>, rtype: string)
    ensures OfType(rs, rtype) == Filter(rs, Asking(rtype))
  {
    if rs != [] {
      var first, rest := rs[0], rs[1..];
      OfTypeIsFilter(rest, rtype);
      TypeNameIff(rtype, first.data);
      FilterCons(first, rest, Asking(rtype));
      assert rs == [first] + rest;
    }
  }

  lemma {:induction false} FilterCons(x: DnsRecord, rest: seq<DnsRecord>, keep: DnsRecord -> bool)
    ensures Filter([x] + rest, keep) == (if keep(x) then [x] else []) + Filter(rest, keep)
  {
    if rest == [] {
      assert [x] + rest == [x] && Filter([], keep) == [] && [x][..0] == [];
    } else {
      var front, last := rest[..|rest| - 1], rest[|rest| - 1];
      FilterCons(x, front, keep);
      assert ([x] + rest)[..|rest|] == [x] + front;
    }
  }

  /** An alias record together with the name it points to. */
  datatype Alias = Alias(record: DnsRecord, target: string)

  /** `r` is the first alias of the list. */
  predicate IsFirstAlias(rs: seq<DnsRecord>, r: DnsRecord) {
    r.data.Cname? && exists i :: 0 <= i < |rs| && rs[i] == r && forall j :: 0 <= j < i ==> !rs[j].data.Cname?
  }

  lemma {:induction false} FirstAliasLater(rs: seq<DnsRecord>, r: DnsRecord)
    requires rs != [] && !rs[0].data.Cname? && IsFirstAlias(rs[1..], r)
    ensures IsFirstAlias(rs, r)
  {
    var i :| 0 <= i < |rs[1..]| && rs[1..][i] == r && forall j :: 0 <= j < i ==> !rs[1..][j].data.Cname?;
    assert rs[i + 1] == r && forall j :: 0 < j < i + 1 ==> rs[j] == rs[1..][j - 1];
  }

  /** The first alias of the list. */
  function FirstAlias(rs: seq<DnsRecord>): (out: Option<Alias>)
    ensures out.Some? ==> out.value.record in rs && out.value.record.data == Cname(out.value.target)
    ensures out.Some? ==> IsFirstAlias(rs, out.value.record)
    ensures out.None? <==> forall r :: r in rs ==> !r.data.Cname?
  {
    if rs == [] then None
    else if rs[0].data.Cname? then Some(Alias(rs[0], rs[0].data.target))
    else
      var out := FirstAlias(rs[1..]);
      if out.Some? then FirstAliasLater(rs, out.value.record); out else out
  }

  // ---------------------------------------------------------------------------
  // The unbounded alias chain
  // ---------------------------------------------------------------------------

  /** What a chase sees of a snapshot: the alias at a name, whether a name is in the
      authority's zones, and the records of the requested type at a name. */
  datatype View = View(alias: string -> Option<Alias>,
                       inScope: string -> bool,
                       terminal: string -> seq<DnsRecord>)

  /** The name reached from `name` by following `k` aliases. */
  function Follow(v: View, name: string, k: nat): Option<string> {
    if k == 0 then Some(name)
    else
      var n := Follow(v, name, k - 1);
      if n.None? then None
      else if v.alias(n.value).None? then None
      else Some(v.alias(n.value).value.target)
  }

  /** The `k` alias records followed. */
  function Links(v: View, name: string, k: nat): (out: seq<DnsRecord>)
    requires Follow(v, name, k).Some?
    ensures |out| == k
  {
    if k == 0 then []
    else Links(v, name, k - 1) + [v.alias(Follow(v, name, k - 1).value).value.record]
  }

  lemma {:induction false} FollowDefinedBelow(v: View, name: string, i: nat, k: nat)
    requires i <= k && Follow(v, name, k).Some?
    ensures Follow(v, name, i).Some?
    ensures i < k ==> v.alias(Follow(v, name, i).value).Some?
    decreases k
  {
    if i < k - 1 { FollowDefinedBelow(v, name, i, k - 1); }
  }

  lemma {:induction false} LinksAt(v: View, name: string, i: nat, k: nat)
    requires i < k && Follow(v, name, k).Some?
    ensures Follow(v, name, i).Some? && v.alias(Follow(v, name, i).value).Some?
    ensures Links(v, name, k)[i] == v.alias(Follow(v, name, i).value).value.record
    decreases k
  {
    FollowDefinedBelow(v, name, i, k);
    if i + 1 < k { LinksAt(v, name, i, k - 1); }
  }

  /** Two equal positions stay equal however far the chain is followed from both. */
  lemma {:induction false} FollowShift(v: View, name: string, i: nat, j: nat, d: nat)
    requires Follow(v, name, i) == Follow(v, name, j)
    ensures Follow(v, name, i + d) == Follow(v, name, j + d)
  {
    if d > 0 { FollowShift(v, name, i, j, d - 1); }
  }

  // ---------------------------------------------------------------------------
  // What a chase must return
  // ---------------------------------------------------------------------------

  /** Positions `j` and `k` of the chain hold the same name. */
  ghost predicate Meets(v: View, name: string, j: nat, k: nat) {
    Follow(v, name, j) == Follow(v, name, k)
  }

  ghost predicate Repeats(v: View, name: string, k: nat) {
    exists j :: 0 <= j < k && Meets(v, name, j, k)
  }

  /** The names at the first `k` positions of the chain. */
  ghost function Visited(v: View, name: string, k: nat): set<string> {
    if k == 0 then {}
    else Visited(v, name, k - 1) + (if Follow(v, name, k - 1).Some? then {Follow(v, name, k - 1).value} else {})
  }

  lemma {:induction false} VisitedIsRepeated(v: View, name: string, k: nat, m: nat)
    requires k <= m && Follow(v, name, m).Some?
    ensures Follow(v, name, m).value in Visited(v, name, k)
       <==> exists j :: 0 <= j < k && Meets(v, name, j, m)
  {
    if k > 0 {
      VisitedIsRepeated(v, name, k - 1, m);
      assert Meets(v, name, k - 1, m) <==> Follow(v, name, k - 1) == Follow(v, name, m);
    }
  }

  ghost predicate InScopeAt(v: View, name: string, i: nat) {
    Follow(v, name, i).Some? && v.inScope(Follow(v, name, i).value)
  }

  ghost predicate BareAt(v: View, name: string, i: nat) {
    Follow(v, name, i).Some? && v.terminal(Follow(v, name, i).value) == []
  }

  /** The unbounded chain first meets records of the type after `k` in-scope hops. */
  ghost predicate Reaches(v: View, name: string, k: nat) {
    && k >= 1
    && Follow(v, name, k).Some?
    && (forall i :: 1 <= i <= k ==> InScopeAt(v, name, i))
    && (forall i :: 0 <= i < k ==> BareAt(v, name, i))
    && !BareAt(v, name, k)
  }

  /** The chase passes through the `k`-th name and goes on. */
  ghost predicate Passes(v: View, name: string, k: nat) {
    && InScopeAt(v, name, k)
    && BareAt(v, name, k)
    && !Repeats(v, name, k)
    && Follow(v, name, k + 1).Some?
  }

  /** `out` holds the first `m` aliases; the chase passed every name before the `m`-th and
      stopped there, with the terminal records if it reached any, or at the depth cap. */
  ghost predicate StopsAfter(v: View, name: string, m: nat, out: seq<DnsRecord>) {
    && 1 <= m <= MAX_CNAME_DEPTH + 1
    && Follow(v, name, m).Some?
    && (forall i :: 1 <= i < m ==> Passes(v, name, i))
    && (m <= MAX_CNAME_DEPTH ==> !Passes(v, name, m))
    && out == Links(v, name, m)
            + (if m <= MAX_CNAME_DEPTH && Reaches(v, name, m) then v.terminal(Follow(v, name, m).value) else [])
  }

  ghost predicate IsChase(v: View, name: string, out: seq<DnsRecord>) {
    exists m :: StopsAfter(v, name, m, out)
  }

  // ---------------------------------------------------------------------------
  // What every chase guarantees
  // ---------------------------------------------------------------------------

  /** Every alias is stored under its owner and points where the view says. */
  ghost predicate Faithful(v: View) {
    forall n :: v.alias(n).Some? ==>
      v.alias(n).value.record.name == n && v.alias(n).value.record.data == Cname(v.alias(n).value.target)
  }

  lemma {:induction false} LinkLinks(v: View, name: string, i: nat, k: nat)
    requires Faithful(v) && i < k && Follow(v, name, k).Some?
    ensures Follow(v, name, i) == Some(Links(v, name, k)[i].name)
    ensures Links(v, name, k)[i].data.Cname?
    ensures Follow(v, name, i + 1) == Some(Links(v, name, k)[i].data.target)
  {
    LinksAt(v, name, i, k);
  }

  /** The returned aliases form one linked chain of at most nine, starting at the query
      name, with pairwise distinct owners that are all in scope. */
  lemma {:induction false} ChaseIsLinkedChain(v: View, name: string, m: nat, out: seq<DnsRecord>)
    requires Faithful(v) && v.inScope(name)
    requires StopsAfter(v, name, m, out)
    ensures 1 <= m <= |out| && m <= 9
    ensures forall i :: 0 <= i < m ==> out[i].data.Cname? && v.inScope(out[i].name)
    ensures out[0].name == name
    ensures forall i :: 0 < i < m ==> out[i - 1].data.target == out[i].name
    ensures forall i, j :: 0 <= i < j < m ==> out[i].name != out[j].name
  {
    forall i | 0 <= i < m
      ensures out[i].data.Cname? && Follow(v, name, i) == Some(out[i].name)
      ensures Follow(v, name, i + 1) == Some(out[i].data.target)
      ensures v.inScope(out[i].name)
    {
      LinkLinks(v, name, i, m);
      assert i > 0 ==> Passes(v, name, i);
    }
    forall i | 0 < i < m ensures out[i - 1].data.target == out[i].name {
      assert Follow(v, name, (i - 1) + 1) == Some(out[i - 1].data.target);
    }
    forall i, j | 0 <= i < j < m ensures out[i].name != out[j].name {
      assert Passes(v, name, j);
      assert !Meets(v, name, i, j);
    }
  }

  /** Behind the aliases there is nothing, or everything of the type at the last target, which
      is then in scope and at most eight hops away. */
  lemma {:induction false} ChaseTail(v: View, name: string, m: nat, out: seq<DnsRecord>)
    requires Faithful(v) && StopsAfter(v, name, m, out)
    ensures m <= |out| && out[m - 1].data.Cname?
    ensures out[m..] != [] ==> && out[m..] == v.terminal(out[m - 1].data.target)
                               && m <= MAX_CNAME_DEPTH && v.inScope(out[m - 1].data.target)
  {
    LinkLinks(v, name, m - 1, m);
    assert out[m..] == if m <= MAX_CNAME_DEPTH && Reaches(v, name, m) then v.terminal(Follow(v, name, m).value) else [];
    assert Reaches(v, name, m) ==> InScopeAt(v, name, m);
  }

  /** Every alias of a chase is one of the view's. */
  lemma {:induction false} ChaseAliases(v: View, name: string, m: nat, out: seq<DnsRecord>, i: nat)
    requires Faithful(v) && StopsAfter(v, name, m, out) && i < m
    ensures i < |out| && v.alias(out[i].name).Some? && v.alias(out[i].name).value.record == out[i]
  {
    LinksAt(v, name, i, m);
    LinkLinks(v, name, i, m);
  }

  /** A chain that reaches records of the type never visits a name twice on the way: a
      repetition would put those records at an earlier position. */
  lemma {:induction false} ReachingChainHasNoCycle(v: View, name: string, k: nat, i: nat, j: nat)
    requires Reaches(v, name, k) && j < i <= k
    ensures !Meets(v, name, j, i)
  {
    assert BareAt(v, name, j + (k - i)) && !BareAt(v, name, k);
    if Meets(v, name, j, i) {
      FollowShift(v, name, j, i, k - i);
      assert false;
    }
  }

  /** Completeness: if the unbounded chain reaches records of the type within eight
      in-scope hops, every chase returns exactly that chain and all of those records. */
  lemma {:induction false} ChaseComplete(v: View, name: string, k: nat, out: seq<DnsRecord>)
    requires Reaches(v, name, k) && k <= MAX_CNAME_DEPTH
    requires IsChase(v, name, out)
    ensures out == Links(v, name, k) + v.terminal(Follow(v, name, k).value)
  {
    var m: nat :| StopsAfter(v, name, m, out);
    forall i | 1 <= i < k ensures Passes(v, name, i) {
      FollowDefinedBelow(v, name, i + 1, k);
      forall j | 0 <= j < i ensures !Meets(v, name, j, i) {
        ReachingChainHasNoCycle(v, name, k, i, j);
      }
    }
    assert !Passes(v, name, k);
    assert m == k;
  }

  /** Soundness: a record of the type appears only at the end of a chain that reaches it
      within eight in-scope hops. */
  lemma {:induction false} ChaseSound(v: View, name: string, out: seq<DnsRecord>, r: DnsRecord)
    requires Faithful(v) && IsChase(v, name, out)
    requires r in out && !r.data.Cname?
    ensures exists k :: && 1 <= k <= MAX_CNAME_DEPTH
                        && Reaches(v, name, k)
                        && r in v.terminal(Follow(v, name, k).value)
  {
    var m: nat :| StopsAfter(v, name, m, out);
    var links := Links(v, name, m);
    forall i | 0 <= i < m ensures links[i] != r { LinkLinks(v, name, i, m); }
    assert r !in links;
  }

  /** A chase is determined by the view. */
  lemma {:induction false} ChaseUnique(v: View, name: string, a: seq<DnsRecord>, b: seq<DnsRecord>)
    requires IsChase(v, name, a) && IsChase(v, name, b)
    ensures a == b
  {
    var m: nat :| StopsAfter(v, name, m, a);
    var n: nat :| StopsAfter(v, name, n, b);
    assert m < n ==> Passes(v, name, m);
    assert n < m ==> Passes(v, name, n);
  }

  // ---------------------------------------------------------------------------
  // Lookup in a snapshot
  // ---------------------------------------------------------------------------

  function ViewOf(meshZone: string, snap: Snapshot, rtype: string): View {
    View(n => FirstAlias(At(snap.records, n)),
         n => Authoritative(meshZone, snap.zones, n),
         n => OfType(At(snap.records, n), rtype))
  }

  lemma {:induction false} ViewIsFaithful(meshZone: string, snap: Snapshot, rtype: string)
    requires KeyedByOwner(snap.records)
    ensures Faithful(ViewOf(meshZone, snap, rtype))
  {
  }

  /** What a chase-free lookup at a name in scope returns. */
  function Direct(snap: Snapshot, name: string, rtype: string): seq<DnsRecord> {
    if rtype == "ANY" then At(snap.records, name) else OfType(At(snap.records, name), rtype)
  }

  /** What `lookup` must answer for a normalised name and type: nothing out of scope;
      otherwise the direct records, or the chase when there are none and an alias exists. */
  ghost predicate IsAnswer(meshZone: string, snap: Snapshot, name: string, rtype: string, out: Option<seq<DnsRecord>>) {
    var direct := Direct(snap, name, rtype);
    && (out.Some? <==> Authoritative(meshZone, snap.zones, name))
    && (out.Some? ==>
          if rtype == "CNAME" || rtype == "ANY" || direct != [] then out.value == direct
          else if FirstAlias(At(snap.records, name)).None? then out.value == []
          else IsChase(ViewOf(meshZone, snap, rtype), name, out.value))
  }

  predicate HasSmall(s: string) { exists i :: 0 <= i < |s| && 'a' <= s[i] <= 'z' }

  lemma {:induction false} UpperIff(s: string, want: string)
    requires !HasSmall(want)
    ensures Upper(s) == want <==> SameLetters(s, want)
  {
    if |s| == |want| {
      forall i | 0 <= i < |s| ensures UpperChar(s[i]) == want[i] <==> SameLetter(s[i], want[i]) { }
    }
  }

  /** A spelling of a query: a name and a type with white space around them. */
  ghost predicate Spelt(name: string, core: string, rtype: string, typeCore: string) {
    && (exists lead, trail :: IsCore(name, core, lead, trail))
    && (exists lead, trail :: IsCore(rtype, typeCore, lead, trail))
  }

  /** White space around the name and the type, the case of their ASCII letters, and a missing
      final dot of the name never change the answer; names that differ otherwise have different
      keys. */
  lemma {:induction false} QuerySpellingIsIrrelevant(meshZone: string, snap: Snapshot, n1: string, c1: string, n2: string, c2: string,
                                                     t1: string, d1: string, t2: string, d2: string, out: Option<seq<DnsRecord>>)
    requires Spelt(n1, c1, t1, d1) && Spelt(n2, c2, t2, d2)
    ensures SameDotted(c1, c2) && SameLetters(d1, d2) ==>
              (IsAnswer(meshZone, snap, Normalise(n1), Upper(Trim(t1)), out)
               <==> IsAnswer(meshZone, snap, Normalise(n2), Upper(Trim(t2)), out))
    ensures Normalise(n1) == Normalise(n2) ==> SameDotted(c1, c2)
    ensures forall want :: !HasSmall(want) ==> (Upper(Trim(t1)) == want <==> SameLetters(d1, want))
  {
    forall want: string | !HasSmall(want) ensures Upper(d1) == want <==> SameLetters(d1, want) { UpperIff(d1, want); }
    SpeltIsTrimmed(n1, c1, t1, d1);
    SpeltIsTrimmed(n2, c2, t2, d2);
    NormaliseIsWithDot(n1);
    NormaliseIsWithDot(n2);
    SameDottedIff(c1, c2);
    if SameLetters(d1, d2) { UpperOfSame(d1, d2); }
  }

  lemma {:induction false} UpperOfSame(a: string, b: string)
    requires SameLetters(a, b)
    ensures Upper(a) == Upper(b)
  {
    forall i | 0 <= i < |a| ensures UpperChar(a[i]) == UpperChar(b[i]) { assert SameLetter(a[i], b[i]); }
  }

  lemma {:induction false} SpeltIsTrimmed(name: string, core: string, rtype: string, typeCore: string)
    requires Spelt(name, core, rtype, typeCore)
    ensures core == Trim(name) && typeCore == Trim(rtype)
  {
    var lead, trail :| IsCore(name, core, lead, trail);
    CoreIsTrim(name, core, lead, trail);
    var tl, tt :| IsCore(rtype, typeCore, tl, tt);
    CoreIsTrim(rtype, typeCore, tl, tt);
  }

  /** The answer without a chase: for ANY everything stored at the name; for CNAME the aliases;
      for another type the records with that data, if there are any.  In each case all of them,
      in stored order. */
  lemma {:induction false} DirectAnswerIs(meshZone: string, snap: Snapshot, name: string, rtype: string, out: seq<DnsRecord>)
    requires IsAnswer(meshZone, snap, name, rtype, Some(out))
    ensures rtype == "ANY" ==> out == At(snap.records, name)
    ensures rtype != "ANY" && (rtype == "CNAME" || exists r :: r in At(snap.records, name) && AsksFor(rtype, r.data)) ==>
              && Subsequence(out, At(snap.records, name))
              && forall r :: multiset(out)[r] == if AsksFor(rtype, r.data) then multiset(At(snap.records, name))[r] else 0
  {
    var rs := At(snap.records, name);
    OfTypeIsFilter(rs, rtype);
    FilterExact(rs, Asking(rtype));
    FilterIsSubsequence(rs, Asking(rtype));
    forall r ensures multiset(Filter(rs, Asking(rtype)))[r] == if Asking(rtype)(r) then multiset(rs)[r] else 0 {
      FilterCounts(rs, Asking(rtype), r);
    }
    if r :| r in rs && AsksFor(rtype, r.data) { assert Asking(rtype)(r); }
  }

  /** One turn of the loop at the `k`-th name. */
  lemma {:induction false} ChaseTurn(v: View, name: string, k: nat)
    requires 1 <= k && Follow(v, name, k).Some? && BareAt(v, name, 0)
    requires forall i :: 1 <= i < k ==> Passes(v, name, i)
    ensures Reaches(v, name, k) <==> InScopeAt(v, name, k) && !BareAt(v, name, k)
    ensures Repeats(v, name, k) ==> BareAt(v, name, k)
  {
    forall i | 1 <= i < k ensures InScopeAt(v, name, i) && BareAt(v, name, i) {
      assert Passes(v, name, i);
    }
    if Repeats(v, name, k) {
      var j :| 0 <= j < k && Meets(v, name, j, k);
      assert j > 0 ==> Passes(v, name, j);
    }
  }

  /** The loop of `collect_with_cname_chain`, from the first alias on. */
  method Chase(v: View, name: string, first: Alias) returns (out: seq<DnsRecord>)
    requires v.alias(name) == Some(first) && v.terminal(name) == []
    ensures IsChase(v, name, out)
  {
    out := [first.record];
    var visited := {name};
    var next := first.target;
    assert Follow(v, name, 1) == Some(next);
    for k := 1 to MAX_CNAME_DEPTH + 1
      invariant Follow(v, name, k) == Some(next)
      invariant out == Links(v, name, k)
      invariant visited == Visited(v, name, k)
      invariant forall i :: 1 <= i < k ==> Passes(v, name, i)
    {
      ChaseTurn(v, name, k);
      VisitedIsRepeated(v, name, k, k);
      if next in visited {
        assert StopsAfter(v, name, k, out);
        return;
      }
      visited := visited + {next};
      if !v.inScope(next) {
        assert StopsAfter(v, name, k, out);
        return;
      }
      var terminal := v.terminal(next);
      if terminal != [] {
        out := out + terminal;
        assert StopsAfter(v, name, k, out);
        return;
      }
      var hop := v.alias(next);
      if hop.None? {
        assert StopsAfter(v, name, k, out);
        return;
      }
      assert Follow(v, name, k + 1) == Some(hop.value.target);
      assert Passes(v, name, k);
      out := out + [hop.value.record];
      next := hop.value.target;
    }
    assert StopsAfter(v, name, MAX_CNAME_DEPTH + 1, out);
  }

  method LookUp(meshZone: string, snap: Snapshot, name: string, recordType: string)
    returns (out: Option<seq<DnsRecord>>)
    ensures IsAnswer(meshZone, snap, Normalise(name), Upper(Trim(recordType)), out)
  {
    var key, rtype := Normalise(name), Upper(Trim(recordType));
    if !Authoritative(meshZone, snap.zones, key) {
      return None;
    }
    var direct := Direct(snap, key, rtype);
    if rtype == "CNAME" || rtype == "ANY" || direct != [] {
      return Some(direct);
    }
    var first := FirstAlias(At(snap.records, key));
    if first.None? {
      return Some([]);
    }
    var chain := Chase(ViewOf(meshZone, snap, rtype), key, first.value);
    return Some(chain);
  }
}
