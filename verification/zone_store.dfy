/** The authoritative zone store: zone scope, the merged static and mesh record store,
    and lookup with the depth-capped CNAME chase. */
module ZoneStore {
  import opened Names
  import opened Spelling
  import opened Records

  datatype Snapshot = Snapshot(zones: seq<string>, records: map<string, seq<DnsRecord>>)

  /** A loaded, signature-verified mesh bundle. */
  datatype Bundle = Bundle(records: seq<DnsRecord>, generatedAt: nat, expiresAt: nat, nonce: nat)

  // ---------------------------------------------------------------------------
  // Zone scope
  // ---------------------------------------------------------------------------

  /** `normalise_name`: trimmed, lowercased, with a final dot. */
  function Normalise(name: string): string {
    var n := Lower(Trim(name));
    if EndsWith(n, ".") then n else n + "."
  }

  /** Normalising never leaves a leading space. */
  lemma {:induction false} NormalisedHead(name: string)
    ensures Normalise(name) != [] && !IsWhitespace(Normalise(name)[0])
  {
    TrimIsTrimmed(name);
    LowerHead(Trim(name));
  }

  lemma {:induction false} LowerHead(s: string)
    ensures s != [] ==> (IsWhitespace(Lower(s)[0]) <==> IsWhitespace(s[0]))
  {
  }

  predicate NameWithinZone(name: string, zone: string) {
    name == zone
    || (|name| > |zone| && EndsWith(name, zone) && name[|name| - |zone| - 1] == '.')
  }

  lemma {:induction false} NameWithinZoneIsLabelSuffix(name: string, zone: string)
    ensures NameWithinZone(name, zone) <==> Within(name, zone)
  {
    if |name| > |zone| {
      var k := |name| - |zone|;
      assert name[k - 1..] == [name[k - 1]] + name[k..];
      assert ("." + zone)[0] == '.' && ("." + zone)[1..] == zone;
    }
    TextualTestIsLabelSuffix(name, zone);
  }

  /** Does the authority answer for the normalised `name`? */
  predicate Authoritative(meshZone: string, zones: seq<string>, name: string) {
    NameWithinZone(name, meshZone)
    || exists i :: 0 <= i < |zones| && NameWithinZone(name, zones[i])
  }

  // ---------------------------------------------------------------------------
  // Static zones
  // ---------------------------------------------------------------------------

  datatype ZoneError = MalformedRecord | BareTld(apex: string) | RootClaim

  /** `static_zone_apex`. */
  function StaticZoneApex(name: string, meshZone: string, declared: set<string>): Result<string, ZoneError> {
    var dot := FirstIndex(name, '.');
    if dot + 1 < |name| then
      var parent := name[dot + 1..];
      if Free(parent[..|parent| - 1], '.') && parent != meshZone && parent !in declared
      then Err(BareTld(parent)) else Ok(parent)
    else if name == "." then Err(RootClaim)
    else if name in declared || name == meshZone then Ok(name)
    else Err(BareTld(name))
  }

  lemma {:induction false} ApexOfDeepName(name: string, meshZone: string, declared: set<string>)
    requires EndsWith(name, ".") && FirstIndex(name, '.') + 1 < |name|
    ensures var a, l := StaticZoneApex(name, meshZone, declared), Labels(name);
            var parent := name[FirstIndex(name, '.') + 1..];
            && |l| >= 3 && Labels(parent) == l[1..] && Within(name, parent)
            && a == if |l| == 3 && parent != meshZone && parent !in declared then Err(BareTld(parent)) else Ok(parent)
  {
    DeepLabels(name, FirstIndex(name, '.'));
  }

  lemma {:induction false} DeepLabels(name: string, dot: nat)
    requires EndsWith(name, ".") && dot == FirstIndex(name, '.') && dot + 1 < |name|
    ensures var l, parent := Labels(name), name[dot + 1..];
            && |l| >= 3 && Labels(parent) == l[1..] && Within(name, parent)
            && (|l| == 3 <==> Free(parent[..|parent| - 1], '.'))
  {
    SplitStep(name, '.');
    DottedParent(name, dot);
    TailIsDotted(name, dot + 1);
    LabelsOfDotted(name[dot + 1..]);
  }

  lemma {:induction false} TailIsDotted(name: string, k: nat)
    requires EndsWith(name, ".") && k < |name|
    ensures EndsWith(name[k..], ".")
  {
    var tail := name[k..];
    assert name[|name| - 1..] == [name[|name| - 1]] && tail[|tail| - 1..] == [tail[|tail| - 1]];
  }

  lemma {:induction false} ApexOfSingleLabel(name: string)
    requires EndsWith(name, ".") && FirstIndex(name, '.') + 1 >= |name|
    ensures |Labels(name)| == 2
  {
    var dot := FirstIndex(name, '.');
    SplitStep(name, '.');
    assert name[|name| - 1] == name[|name| - 1..][0] == '.';
    assert dot == |name| - 1 && name[dot + 1..] == [];
  }

  /** The zone of a record is its parent, or itself for a single label; it is refused exactly
      for the root and for a top-level domain that the operator did not name.  (The label list
      of a dotted name ends with an empty label, so a single label counts two.) */
  lemma {:induction false} ApexIsParent(name: string, meshZone: string, declared: set<string>)
    requires EndsWith(name, ".")
    ensures var a, l := StaticZoneApex(name, meshZone, declared), Labels(name);
            && (a.Ok? ==> Labels(a.value) == if |l| >= 3 then l[1..] else l)
            && (a.Ok? ==> Within(name, a.value)) && (name == "." ==> a.Err?)
            && (a.Ok? ==> |Labels(a.value)| >= 3 || a.value == meshZone || a.value in declared)
            && (a.Err? ==> |l| <= 3 && (|l| == 2 ==> name == "." || (name != meshZone && name !in declared)))
            && (a.Err? && |l| == 3 ==> a.error.BareTld? && a.error.apex != meshZone && a.error.apex !in declared
                                       && Labels(a.error.apex) == l[1..])
  {
    if FirstIndex(name, '.') + 1 < |name| {
      ApexOfDeepName(name, meshZone, declared);
    } else {
      ApexOfSingleLabel(name);
      WithinReflexive(name);
    }
  }

  lemma {:induction false} DottedParent(name: string, dot: nat)
    requires dot < |name| && name[dot] == '.'
    ensures Within(name, name[dot + 1..])
  {
    assert name == name[..dot] + "." + name[dot + 1..];
    DottedIsWithin(name[..dot], name[dot + 1..]);
  }

  /** A dotted name is a single label exactly when only its final dot remains. */
  lemma {:induction false} LabelsOfDotted(name: string)
    requires EndsWith(name, ".")
    ensures |Labels(name)| >= 2
    ensures |Labels(name)| == 2 <==> Free(name[..|name| - 1], '.')
  {
    var front := name[..|name| - 1];
    assert name == front + ['.'] + [];
    SplitAppend(front, '.', []);
    SplitStep(front, '.');
  }

  /** A static record of the configuration; `data` is None when its text does not parse. */
  datatype StaticRecord = StaticRecord(name: string, data: Option<RecordData>, ttl: nat)

  /** An alias never points to a name that starts with white space. */
  predicate WellTargeted(d: RecordData) {
    d.Cname? ==> d.target != [] && !IsWhitespace(d.target[0])
  }

  /** Domain-name payloads are normalised when a static record is converted. */
  function NormaliseTarget(d: RecordData): (n: RecordData)
    ensures WellTargeted(n)
  {
    match d
    case Cname(t) => NormalisedHead(t); Cname(Normalise(t))
    case Ptr(t) => Ptr(Normalise(t))
    case Ns(t) => Ns(Normalise(t))
    case Mx(p, e) => Mx(p, Normalise(e))
    case Srv(p, w, n, t) => Srv(p, w, n, Normalise(t))
    case _ => d
  }

  const STATIC_RECORD_TTL: nat := 300

  function Convert(sr: StaticRecord): Result<DnsRecord, ZoneError> {
    if sr.data.None? then Err(MalformedRecord)
    else Ok(NewRecord(sr.name, NormaliseTarget(sr.data.value), if sr.ttl == 0 then STATIC_RECORD_TTL else sr.ttl))
  }

  /** `n` is `t` without the white space around it, without ASCII capitals, and with a final
      dot. */
  ghost predicate IsNormalOf(t: string, n: string) {
    && !HasUpper(n)
    && exists core, lead, trail :: IsCore(t, core, lead, trail) && SameLetters(if Dotted(core) then core else core + ".", n)
  }

  lemma {:induction false} NormaliseIsWithDot(t: string)
    ensures Normalise(t) == Lower(WithDot(Trim(t)))
  {
    DottedEnd(Lower(Trim(t)));
    LowerWithDot(Trim(t));
    LowerIsSameLetters(Trim(t));
    DottedLetters(Trim(t), Lower(Trim(t)));
  }

  /** Normalising gives that name and no other. */
  lemma {:induction false} NormalIff(t: string, n: string)
    ensures IsNormalOf(t, n) <==> n == Normalise(t)
  {
    NormaliseIsWithDot(t);
    if IsNormalOf(t, n) {
      var core, lead, trail :| IsCore(t, core, lead, trail) && SameLetters(if Dotted(core) then core else core + ".", n);
      CoreIsTrim(t, core, lead, trail);
      LowerUnique(WithDot(core), n);
    }
    if n == Normalise(t) {
      TrimIsCore(t);
      var lead, trail :| IsCore(t, Trim(t), lead, trail);
      LowerIsSameLetters(WithDot(Trim(t)));
    }
  }

  /** The data that a configured record is to be served with: every number, address and text as
      configured, every name normalised. */
  ghost predicate ServesData(configured: RecordData, served: RecordData) {
    match configured
    case A(ip) => served.A? && served.ip4 == ip
    case Aaaa(ip) => served.Aaaa? && served.ip6 == ip
    case Txt(parts) => served.Txt? && served.parts == parts
    case Cname(t) => served.Cname? && IsNormalOf(t, served.target)
    case Ptr(t) => served.Ptr? && IsNormalOf(t, served.ptr)
    case Ns(t) => served.Ns? && IsNormalOf(t, served.server)
    case Mx(p, e) => served.Mx? && served.preference == p && IsNormalOf(e, served.exchange)
    case Srv(p, w, n, t) =>
      served.Srv? && served.priority == p && served.weight == w && served.port == n && IsNormalOf(t, served.host)
  }

  /** The record that a configuration entry is to be served as. */
  ghost predicate ServesEntry(sr: StaticRecord, r: DnsRecord) {
    && r.name == OwnerName(sr.name) && r.meshNode.None?
    && sr.data.Some? && ServesData(sr.data.value, r.data)
    && r.ttl == if sr.ttl == 0 then 300 else sr.ttl
  }

  lemma {:induction false} TargetIsServed(d: RecordData)
    ensures ServesData(d, NormaliseTarget(d))
  {
    match d
    case Cname(t) => NormalIff(t, Normalise(t));
    case Ptr(t) => NormalIff(t, Normalise(t));
    case Ns(t) => NormalIff(t, Normalise(t));
    case Mx(p, e) => NormalIff(e, Normalise(e));
    case Srv(p, w, n, t) => NormalIff(t, Normalise(t));
    case _ =>
  }

  lemma {:induction false} ConvertServes(sr: StaticRecord, r: DnsRecord)
    requires Convert(sr) == Ok(r)
    ensures ServesEntry(sr, r)
  {
    TargetIsServed(sr.data.value);
  }

  /** The store serves every entry under its owner, and nothing else. */
  ghost predicate ServesAll(config: seq<StaticRecord>, store: map<string, seq<DnsRecord>>) {
    && (forall i :: 0 <= i < |config| ==> ServedIn(store, config[i]))
    && (forall k, r :: k in store && r in store[k] ==> ServesSome(config, r))
  }

  ghost predicate ServedIn(store: map<string, seq<DnsRecord>>, sr: StaticRecord) {
    exists r :: r in At(store, OwnerName(sr.name)) && ServesEntry(sr, r)
  }

  ghost predicate ServesSome(config: seq<StaticRecord>, r: DnsRecord) {
    exists i :: 0 <= i < |config| && ServesEntry(config[i], r)
  }

  lemma {:induction false} PushServes(config: seq<StaticRecord>, store: map<string, seq<DnsRecord>>, sr: StaticRecord, r: DnsRecord)
    requires ServesAll(config, store) && ServesEntry(sr, r)
    ensures ServesAll(config + [sr], Push(store, r))
  {
    var all, now := config + [sr], Push(store, r);
    forall i | 0 <= i < |all| ensures ServedIn(now, all[i]) {
      if i < |config| {
        assert ServedIn(store, config[i]);
        var x :| x in At(store, OwnerName(config[i].name)) && ServesEntry(config[i], x);
        PushAt(store, r, OwnerName(config[i].name));
        assert x in At(now, OwnerName(all[i].name)) && ServesEntry(all[i], x);
      } else {
        PushAt(store, r, r.name);
        assert r in At(now, OwnerName(sr.name)) && ServesEntry(all[i], r);
      }
    }
    forall k, x | k in now && x in now[k] ensures ServesSome(all, x) {
      if x == r {
        assert ServesEntry(all[|config|], r);
      } else {
        PushAt(store, r, k);
        assert ServesSome(config, x);
        var i :| 0 <= i < |config| && ServesEntry(config[i], x);
        assert ServesEntry(all[i], x);
      }
    }
  }

  /** The records owned by `name`, in their original order. */
  function Named(rs: seq<DnsRecord>, name: string): seq<DnsRecord> {
    if rs == [] then []
    else
      var r := rs[|rs| - 1];
      Named(rs[..|rs| - 1], name) + (if r.name == name then [r] else [])
  }

  lemma {:induction false} NamedExact(rs: seq<DnsRecord>, name: string)
    ensures forall r :: r in Named(rs, name) <==> r in rs && r.name == name
  {
    if rs != [] {
      NamedExact(rs[..|rs| - 1], name);
      assert rs == rs[..|rs| - 1] + [rs[|rs| - 1]];
    }
  }

  function Owners(rs: seq<DnsRecord>): set<string> { set r | r in rs :: r.name }

  lemma {:induction false} NamedSnoc(rs: seq<DnsRecord>, r: DnsRecord, name: string)
    ensures Named(rs + [r], name) == if r.name == name then Named(rs, name) + [r] else Named(rs, name)
  {
    assert (rs + [r])[..|rs|] == rs;
  }

  lemma {:induction false} OwnersSnoc(rs: seq<DnsRecord>, r: DnsRecord)
    ensures Owners(rs + [r]) == Owners(rs) + {r.name}
  {
  }

  function At(store: map<string, seq<DnsRecord>>, name: string): seq<DnsRecord> {
    if name in store then store[name] else []
  }

  predicate KeyedByOwner(store: map<string, seq<DnsRecord>>) {
    forall k, r :: k in store && r in store[k] ==> r.name == k
  }

  /** `store` holds exactly `rs`, grouped by owner and in order within each owner. */
  predicate Groups(store: map<string, seq<DnsRecord>>, rs: seq<DnsRecord>) {
    store.Keys == Owners(rs) && forall k :: k in store ==> store[k] == Named(rs, k)
  }

  /** Appending one record to its owner's list: `entry(name).or_default().push(rec)`. */
  function Push(store: map<string, seq<DnsRecord>>, r: DnsRecord): map<string, seq<DnsRecord>> {
    store[r.name := At(store, r.name) + [r]]
  }

  lemma {:induction false} NamedOfAbsent(rs: seq<DnsRecord>, name: string)
    requires name !in Owners(rs)
    ensures Named(rs, name) == []
  {
    if rs != [] {
      var front, r := rs[..|rs| - 1], rs[|rs| - 1];
      assert r in rs && forall x :: x in front ==> x in rs;
      NamedOfAbsent(front, name);
    }
  }

  lemma {:induction false} PushGroups(store: map<string, seq<DnsRecord>>, rs: seq<DnsRecord>, r: DnsRecord)
    requires Groups(store, rs)
    ensures Groups(Push(store, r), rs + [r])
  {
    var all := rs + [r];
    OwnersSnoc(rs, r);
    if r.name !in store { NamedOfAbsent(rs, r.name); }
    forall k | k in Push(store, r) ensures Push(store, r)[k] == Named(all, k) {
      NamedSnoc(rs, r, k);
    }
  }

  predicate NoDuplicates<T(==)>(s: seq<T>) {
    forall i, j :: 0 <= i < j < |s| ==> s[i] != s[j]
  }

  /** Register a zone apex unless it is already known. */
  function AddZone(zones: seq<string>, z: string): (r: seq<string>)
    ensures zones <= r
    ensures Members(r) == Members(zones) + {z}
    ensures NoDuplicates(zones) ==> NoDuplicates(r)
  {
    if z in zones then zones else zones + [z]
  }

  /** The configuration entry converts and may claim its apex. */
  predicate Admissible(sr: StaticRecord, meshZone: string, declared: set<string>) {
    Convert(sr).Ok? && StaticZoneApex(Convert(sr).value.name, meshZone, declared).Ok?
  }

  function Apex(sr: StaticRecord, meshZone: string, declared: set<string>): string
    requires Admissible(sr, meshZone, declared)
  {
    StaticZoneApex(Convert(sr).value.name, meshZone, declared).value
  }

  predicate AllAdmissible(config: seq<StaticRecord>, meshZone: string, declared: set<string>) {
    forall i :: 0 <= i < |config| ==> Admissible(config[i], meshZone, declared)
  }

  function Converted(config: seq<StaticRecord>, meshZone: string, declared: set<string>): seq<DnsRecord>
    requires AllAdmissible(config, meshZone, declared)
  {
    if config == [] then []
    else Converted(config[..|config| - 1], meshZone, declared) + [Convert(config[|config| - 1]).value]
  }

  function Apexes(config: seq<StaticRecord>, meshZone: string, declared: set<string>): set<string>
    requires AllAdmissible(config, meshZone, declared)
  {
    set sr | sr in config :: Apex(sr, meshZone, declared)
  }

  lemma {:induction false} AdmitNext(config: seq<StaticRecord>, n: nat, meshZone: string, declared: set<string>)
    requires n < |config| && AllAdmissible(config[..n], meshZone, declared)
    requires Admissible(config[n], meshZone, declared)
    ensures AllAdmissible(config[..n + 1], meshZone, declared)
    ensures Converted(config[..n + 1], meshZone, declared)
         == Converted(config[..n], meshZone, declared) + [Convert(config[n]).value]
    ensures Apexes(config[..n + 1], meshZone, declared)
         == Apexes(config[..n], meshZone, declared) + {Apex(config[n], meshZone, declared)}
  {
    AdmitOne(config[..n], config[n], meshZone, declared);
    SnocPrefix(config, n);
  }

  lemma {:induction false} AdmitOne(front: seq<StaticRecord>, sr: StaticRecord, meshZone: string, declared: set<string>)
    requires AllAdmissible(front, meshZone, declared) && Admissible(sr, meshZone, declared)
    ensures AllAdmissible(front + [sr], meshZone, declared)
    ensures Converted(front + [sr], meshZone, declared) == Converted(front, meshZone, declared) + [Convert(sr).value]
    ensures Apexes(front + [sr], meshZone, declared) == Apexes(front, meshZone, declared) + {Apex(sr, meshZone, declared)}
  {
    assert (front + [sr])[..|front|] == front;
  }

  /** The store of an admissible configuration: its converted records by owner. */
  ghost predicate IsStaticStore(config: seq<StaticRecord>, meshZone: string, declared: set<string>, store: map<string, seq<DnsRecord>>) {
    AllAdmissible(config, meshZone, declared) && Groups(store, Converted(config, meshZone, declared)) && ServesAll(config, store)
  }

  lemma {:induction false} StaticStoreNext(config: seq<StaticRecord>, n: nat, meshZone: string, declared: set<string>,
                                     store: map<string, seq<DnsRecord>>, r: DnsRecord)
    requires n < |config| && IsStaticStore(config[..n], meshZone, declared, store)
    requires Admissible(config[n], meshZone, declared) && Convert(config[n]) == Ok(r)
    ensures IsStaticStore(config[..n + 1], meshZone, declared, Push(store, r))
    ensures Apexes(config[..n + 1], meshZone, declared)
         == Apexes(config[..n], meshZone, declared) + {Apex(config[n], meshZone, declared)}
  {
    AdmitNext(config, n, meshZone, declared);
    PushGroups(store, Converted(config[..n], meshZone, declared), r);
    ConvertServes(config[n], r);
    ServesNext(config, n, store, r);
  }

  lemma {:induction false} ServesNext(config: seq<StaticRecord>, n: nat, store: map<string, seq<DnsRecord>>, r: DnsRecord)
    requires n < |config| && ServesAll(config[..n], store) && ServesEntry(config[n], r)
    ensures ServesAll(config[..n + 1], Push(store, r))
  {
    PushServes(config[..n], store, config[n], r);
    SnocPrefix(config, n);
  }

  lemma {:induction false} SnocPrefix<T>(s: seq<T>, n: nat)
    requires n < |s|
    ensures s[..n] + [s[n]] == s[..n + 1]
  {
  }

  /** The static half of the store; it fails exactly when some entry is inadmissible. */
  method LoadStaticRecords(config: seq<StaticRecord>, meshZone: string, declared: set<string>)
    returns (error: Option<ZoneError>, store: map<string, seq<DnsRecord>>, zones: seq<string>)
    ensures error.None? <==> AllAdmissible(config, meshZone, declared)
    ensures error.None? ==> Groups(store, Converted(config, meshZone, declared))
    ensures error.None? ==> ServesAll(config, store)
    ensures error.None? ==> Members(zones) == Apexes(config, meshZone, declared)
    ensures NoDuplicates(zones)
  {
    store, zones := map[], [];
    for n := 0 to |config|
      invariant IsStaticStore(config[..n], meshZone, declared, store)
      invariant Members(zones) == Apexes(config[..n], meshZone, declared)
      invariant NoDuplicates(zones)
    {
      var rec := Convert(config[n]);
      if rec.Err? { return Some(rec.error), store, zones; }
      var apex := StaticZoneApex(rec.value.name, meshZone, declared);
      if apex.Err? { return Some(apex.error), store, zones; }
      StaticStoreNext(config, n, meshZone, declared, store, rec.value);
      zones := AddZone(zones, apex.value);
      store := Push(store, rec.value);
    }
    assert config[..|config|] == config;
    error := None;
  }

  /** A declared zone is claimed even before a record exists beneath it. */
  method AddDeclaredZones(apexes: seq<string>, meshZone: string, declared: set<string>) returns (zones: seq<string>)
    requires NoDuplicates(apexes)
    ensures Members(zones) == Members(apexes) + (declared - {meshZone})
    ensures NoDuplicates(zones)
  {
    zones := apexes;
    var done: set<string> := {};
    while declared - done != {}
      invariant done <= declared
      invariant Members(zones) == Members(apexes) + (done - {meshZone})
      invariant NoDuplicates(zones)
      decreases declared - done
    {
      var zone :| zone in declared - done;
      if zone != meshZone {
        zones := AddZone(zones, zone);
      }
      done := done + {zone};
    }
  }

  // ---------------------------------------------------------------------------
  // Snapshots
  // ---------------------------------------------------------------------------

  function ZonesWith(zones: seq<string>, rs: seq<DnsRecord>): seq<string> {
    if rs == [] then zones
    else AddZone(ZonesWith(zones, rs[..|rs| - 1]), rs[|rs| - 1].name)
  }

  lemma {:induction false} ZonesWithSnoc(zones: seq<string>, rs: seq<DnsRecord>, r: DnsRecord)
    ensures ZonesWith(zones, rs + [r]) == AddZone(ZonesWith(zones, rs), r.name)
  {
    assert (rs + [r])[..|rs|] == rs;
  }

  lemma {:induction false} ZonesWithMembers(zones: seq<string>, rs: seq<DnsRecord>)
    ensures Members(ZonesWith(zones, rs)) == Members(zones) + Owners(rs)
  {
    if rs != [] {
      var front, r := rs[..|rs| - 1], rs[|rs| - 1];
      ZonesWithMembers(zones, front);
      assert rs == front + [r];
      OwnersSnoc(front, r);
    }
  }

  /** The static records of each owner, then the bundle's. */
  function MergeStore(statics: map<string, seq<DnsRecord>>, rs: seq<DnsRecord>): map<string, seq<DnsRecord>> {
    map k | k in statics.Keys + Owners(rs) :: At(statics, k) + Named(rs, k)
  }

  /** The static store with the bundle's records merged in, and every bundle owner
      registered as a zone of its own. */
  function SnapshotOf(statics: map<string, seq<DnsRecord>>, zones: seq<string>, mesh: Option<Bundle>): Snapshot {
    var rs := if mesh.Some? then mesh.value.records else [];
    Snapshot(ZonesWith(zones, rs), MergeStore(statics, rs))
  }

  /** What may be said of a record under the name it is stored under. */
  type RecordLaw = (string, DnsRecord) -> bool

  predicate Obeys(store: map<string, seq<DnsRecord>>, law: RecordLaw) {
    forall k, r :: k in store && r in store[k] ==> law(k, r)
  }

  lemma {:induction false} GroupsObey(store: map<string, seq<DnsRecord>>, rs: seq<DnsRecord>, law: RecordLaw)
    requires Groups(store, rs) && forall r :: r in rs ==> law(r.name, r)
    ensures Obeys(store, law) && KeyedByOwner(store)
  {
    forall k: string, r: DnsRecord | k in store && r in store[k] ensures law(k, r) && r.name == k { NamedExact(rs, k); }
  }

  lemma {:induction false} MergedObeys(store: map<string, seq<DnsRecord>>, rs: seq<DnsRecord>, law: RecordLaw)
    requires Obeys(store, law) && KeyedByOwner(store) && forall r :: r in rs ==> law(r.name, r)
    ensures Obeys(MergeStore(store, rs), law)
  {
    var merged := MergeStore(store, rs);
    forall k: string, r: DnsRecord | k in merged && r in merged[k] ensures law(k, r) {
      assert r in At(merged, k);
      MergeExact(store, rs, k, r);
    }
  }

  lemma {:induction false} MergeStoreAt(statics: map<string, seq<DnsRecord>>, rs: seq<DnsRecord>, k: string)
    ensures At(MergeStore(statics, rs), k) == At(statics, k) + Named(rs, k)
  {
    if k !in Owners(rs) { NamedOfAbsent(rs, k); }
  }

  lemma {:induction false} PushAt(store: map<string, seq<DnsRecord>>, r: DnsRecord, k: string)
    ensures At(Push(store, r), k) == if k == r.name then At(store, k) + [r] else At(store, k)
  {
  }

  lemma {:induction false} Associates(a: seq<DnsRecord>, b: seq<DnsRecord>, c: seq<DnsRecord>)
    ensures (a + b) + c == a + (b + c)
  {
  }

  lemma {:induction false} MergeStorePushAt(statics: map<string, seq<DnsRecord>>, rs: seq<DnsRecord>, r: DnsRecord, k: string)
    ensures At(MergeStore(statics, rs + [r]), k) == At(Push(MergeStore(statics, rs), r), k)
  {
    NamedSnoc(rs, r, k);
    MergeStoreAt(statics, rs + [r], k);
    MergeStoreAt(statics, rs, k);
    PushAt(MergeStore(statics, rs), r, k);
    Associates(At(statics, k), Named(rs, k), [r]);
  }

  lemma {:induction false} MergeStorePush(statics: map<string, seq<DnsRecord>>, rs: seq<DnsRecord>, r: DnsRecord)
    ensures MergeStore(statics, rs + [r]) == Push(MergeStore(statics, rs), r)
  {
    var a, b := MergeStore(statics, rs + [r]), Push(MergeStore(statics, rs), r);
    assert a.Keys == b.Keys by { OwnersSnoc(rs, r); }
    forall k | k in a ensures a[k] == b[k] {
      MergeStorePushAt(statics, rs, r, k);
    }
  }

  lemma {:induction false} MergeStoreOfNothing(statics: map<string, seq<DnsRecord>>)
    ensures MergeStore(statics, []) == statics
  {
    assert Owners([]) == {};
    assert MergeStore(statics, []).Keys == statics.Keys;
    assert forall k :: At(statics, k) + Named([], k) == At(statics, k);
  }

  method BuildSnapshot(statics: map<string, seq<DnsRecord>>, staticZones: seq<string>, mesh: Option<Bundle>)
    returns (snap: Snapshot)
    ensures snap == SnapshotOf(statics, staticZones, mesh)
  {
    var records, zones := statics, staticZones;
    MergeStoreOfNothing(statics);
    if mesh.Some? {
      var rs := mesh.value.records;
      for n := 0 to |rs|
        invariant records == MergeStore(statics, rs[..n])
        invariant zones == ZonesWith(staticZones, rs[..n])
      {
        assert rs[..n + 1] == rs[..n] + [rs[n]];
        MergeStorePush(statics, rs[..n], rs[n]);
        ZonesWithSnoc(staticZones, rs[..n], rs[n]);
        records := Push(records, rs[n]);
        zones := AddZone(zones, rs[n].name);
      }
      assert rs[..|rs|] == rs;
    }
    snap := Snapshot(zones, records);
  }

  /** Merging loses nothing, adds nothing and keeps every record under its owner. */
  lemma {:induction false} MergeExact(statics: map<string, seq<DnsRecord>>, rs: seq<DnsRecord>, k: string, r: DnsRecord)
    requires KeyedByOwner(statics)
    ensures r in At(MergeStore(statics, rs), k)
       <==> r in At(statics, k) || (r in rs && r.name == k)
  {
    MergeStoreAt(statics, rs, k);
    NamedExact(rs, k);
  }
}
