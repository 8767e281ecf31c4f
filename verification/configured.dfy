/** The authority of a configuration: construction from the configured records and zones, and
    what its lookups find. */
module ConfiguredAuthority {
  import opened Names
  import opened Sequences
  import opened Text
  import opened Casing
  import opened Records
  import opened ZoneStore
  import opened MeshWire
  import opened MeshBundle
  import opened Lookup
  import opened ReloadProtocol
  import opened Authority

  /** The static state of an admissible configuration. */
  predicate Configured(config: seq<StaticRecord>, meshZone: string, declared: set<string>,
                       records: map<string, seq<DnsRecord>>, zones: seq<string>)
  {
    && AllAdmissible(config, meshZone, declared)
    && Groups(records, Converted(config, meshZone, declared))
    && Members(zones) == Apexes(config, meshZone, declared) + (declared - {meshZone})
  }

  function NormalisedSet(names: seq<string>): set<string> { set n | n in names :: Normalise(n) }

  /** `Authority::new`: it fails exactly when some record is malformed or claims a refused
      zone; otherwise the authority holds the configured state, publishes it with the initial
      bundle, and starts its watermark there. */
  method NewAuthority(config: seq<StaticRecord>, meshZone: string, declared: seq<string>, mesh: Option<Bundle>)
    returns (out: Result<Authority, ZoneError>)
    ensures out.Ok? <==> AllAdmissible(config, Normalise(meshZone), NormalisedSet(declared))
    ensures out.Ok? ==>
              var a := out.value;
              && fresh(a) && a.meshZone == Normalise(meshZone)
              && Configured(config, a.meshZone, NormalisedSet(declared), a.staticRecords, a.staticZones)
              && NoDuplicates(a.staticZones) && ServesAll(config, a.staticRecords)
              && a.snapshot == SnapshotOf(a.staticRecords, a.staticZones, mesh)
              && a.watermark == (if mesh.Some? then Some(Tag(mesh.value.generatedAt, mesh.value.nonce)) else None)
              && ((mesh.Some? ==> MintedFor(mesh.value, a.meshZone)) ==>
                    IsSnapshot(config, a.meshZone, NormalisedSet(declared), mesh, a.snapshot))
  {
    var zone, extra := Normalise(meshZone), NormalisedSet(declared);
    var error, records, apexes := LoadStaticRecords(config, zone, extra);
    if error.Some? { return Err(error.value); }
    var zones := AddDeclaredZones(apexes, zone, extra);
    var a := new Authority(zone, records, zones, mesh);
    return Ok(a);
  }

  // ---------------------------------------------------------------------------
  // The store
  // ---------------------------------------------------------------------------

  /** The snapshot of a configuration with a bundle minted for its zone, or with none. */
  ghost predicate IsSnapshot(config: seq<StaticRecord>, meshZone: string, declared: set<string>, mesh: Option<Bundle>, snap: Snapshot) {
    exists records, zones ::
      && Configured(config, meshZone, declared, records, zones)
      && snap == SnapshotOf(records, zones, mesh) && (mesh.Some? ==> MintedFor(mesh.value, meshZone))
  }

  function MeshRecords(mesh: Option<Bundle>): seq<DnsRecord> { if mesh.Some? then mesh.value.records else [] }

  lemma {:induction false} SnapshotIsWellStored(config: seq<StaticRecord>, meshZone: string, declared: set<string>,
                                                mesh: Option<Bundle>, snap: Snapshot)
    requires IsSnapshot(config, meshZone, declared, mesh, snap)
    ensures WellStored(snap.records)
  {
    var records, zones :| && Configured(config, meshZone, declared, records, zones)
                          && snap == SnapshotOf(records, zones, mesh) && (mesh.Some? ==> MintedFor(mesh.value, meshZone));
    StaticStoreIsWellStored(config, meshZone, declared, records);
    forall r | r in MeshRecords(mesh) ensures IsZoneName(r.name) && WellTargeted(r.data) {
      MintedRecordForm(mesh.value, meshZone, r);
    }
    MergedStoreIsWellStored(records, MeshRecords(mesh));
  }

  lemma {:induction false} ConvertedIsListed(config: seq<StaticRecord>, meshZone: string, declared: set<string>, i: nat)
    requires AllAdmissible(config, meshZone, declared) && i < |config|
    ensures Convert(config[i]).Ok? && Convert(config[i]).value in Converted(config, meshZone, declared)
    decreases |config|
  {
    assert Admissible(config[i], meshZone, declared);
    if i < |config| - 1 {
      assert config[..|config| - 1][i] == config[i];
      ConvertedIsListed(config[..|config| - 1], meshZone, declared, i);
    }
  }

  lemma {:induction false} ListedRecordIsStored(rs: seq<DnsRecord>, records: map<string, seq<DnsRecord>>, more: seq<DnsRecord>, r: DnsRecord)
    requires Groups(records, rs) && KeyedByOwner(records) && r in rs
    ensures r in At(MergeStore(records, more), r.name)
  {
    NamedExact(rs, r.name);
    assert r.name in Owners(rs);
    MergeExact(records, more, r.name, r);
  }

  /** Every configured record is stored under its owner and in scope. */
  lemma {:induction false} ConfiguredRecordIsStored(config: seq<StaticRecord>, meshZone: string, declared: set<string>,
                                                    mesh: Option<Bundle>, snap: Snapshot, i: nat)
    requires IsSnapshot(config, meshZone, declared, mesh, snap) && i < |config|
    ensures Convert(config[i]).Ok?
    ensures Convert(config[i]).value in At(snap.records, Convert(config[i]).value.name)
    ensures Authoritative(meshZone, snap.zones, Convert(config[i]).value.name)
  {
    var records, zones :| && Configured(config, meshZone, declared, records, zones)
                          && snap == SnapshotOf(records, zones, mesh) && (mesh.Some? ==> MintedFor(mesh.value, meshZone));
    ConvertedIsListed(config, meshZone, declared, i);
    StoredAndInScope(config, meshZone, declared, records, zones, MeshRecords(mesh), Convert(config[i]).value);
  }

  lemma {:induction false} StoredAndInScope(config: seq<StaticRecord>, meshZone: string, declared: set<string>,
                                            records: map<string, seq<DnsRecord>>, zones: seq<string>, more: seq<DnsRecord>, r: DnsRecord)
    requires Configured(config, meshZone, declared, records, zones) && r in Converted(config, meshZone, declared)
    ensures r in At(MergeStore(records, more), r.name) && Authoritative(meshZone, ZonesWith(zones, more), r.name)
  {
    StaticStoreIsWellStored(config, meshZone, declared, records);
    ListedRecordIsStored(Converted(config, meshZone, declared), records, more, r);
    ConfiguredIsInScope(config, meshZone, declared, records, zones, more, r);
  }

  lemma {:induction false} LeftOfUnion(a: set<string>, b: set<string>, c: set<string>)
    requires c == a + b
    ensures a <= c
  {
  }

  lemma {:induction false} ConfiguredIsInScope(config: seq<StaticRecord>, meshZone: string, declared: set<string>,
                                               records: map<string, seq<DnsRecord>>, zones: seq<string>, more: seq<DnsRecord>, r: DnsRecord)
    requires Configured(config, meshZone, declared, records, zones)
    requires r in Converted(config, meshZone, declared) || r in more
    ensures Authoritative(meshZone, ZonesWith(zones, more), r.name)
  {
    LeftOfUnion(Apexes(config, meshZone, declared), declared - {meshZone}, Members(zones));
    EveryRecordIsInScope(config, meshZone, declared, zones, more, r);
  }

  // ---------------------------------------------------------------------------
  // The data of a configured record
  // ---------------------------------------------------------------------------

  lemma {:induction false} GroupedIsListed(store: map<string, seq<DnsRecord>>, rs: seq<DnsRecord>, key: string, r: DnsRecord)
    requires Groups(store, rs) && r in At(store, key)
    ensures r in rs
  {
    NamedExact(rs, key);
  }

  lemma {:induction false} ListedServesSome(config: seq<StaticRecord>, meshZone: string, declared: set<string>, r: DnsRecord)
    requires AllAdmissible(config, meshZone, declared) && r in Converted(config, meshZone, declared)
    ensures ServesSome(config, r)
  {
    ConvertedAt(config, meshZone, declared, r);
    var i :| 0 <= i < |config| && Convert(config[i]) == Ok(r);
    ConvertServes(config[i], r);
  }

  /** Nothing is stored but what the configuration or the bundle says. */
  lemma {:induction false} StoredRecordIsConfigured(config: seq<StaticRecord>, meshZone: string, declared: set<string>,
                                                    mesh: Option<Bundle>, snap: Snapshot, key: string, r: DnsRecord)
    requires IsSnapshot(config, meshZone, declared, mesh, snap) && r in At(snap.records, key)
    ensures r in MeshRecords(mesh) || ServesSome(config, r)
  {
    var records, zones :| && Configured(config, meshZone, declared, records, zones)
                          && snap == SnapshotOf(records, zones, mesh) && (mesh.Some? ==> MintedFor(mesh.value, meshZone));
    StaticStoreIsWellStored(config, meshZone, declared, records);
    MergeExact(records, MeshRecords(mesh), key, r);
    if r in At(records, key) {
      GroupedIsListed(records, Converted(config, meshZone, declared), key, r);
      ListedServesSome(config, meshZone, declared, r);
    }
  }

  /** Every record of every answer is stored at its own name. */
  lemma {:induction false} AnswerIsStored(meshZone: string, snap: Snapshot, key: string, rtype: string, out: seq<DnsRecord>, r: DnsRecord)
    requires KeyedByOwner(snap.records) && IsAnswer(meshZone, snap, key, rtype, Some(out)) && r in out
    ensures r in At(snap.records, r.name)
  {
    DirectOwner(snap, key, rtype);
    if out != Direct(snap, key, rtype) { ChaseIsStored(meshZone, snap, key, rtype, out, r); }
  }

  lemma {:induction false} ChaseIsStored(meshZone: string, snap: Snapshot, key: string, rtype: string, out: seq<DnsRecord>, r: DnsRecord)
    requires KeyedByOwner(snap.records) && IsChase(ViewOf(meshZone, snap, rtype), key, out) && r in out
    ensures r in At(snap.records, r.name)
  {
    var v := ViewOf(meshZone, snap, rtype);
    ViewIsFaithful(meshZone, snap, rtype);
    var m: nat :| StopsAfter(v, key, m, out);
    var i :| 0 <= i < |out| && out[i] == r;
    if i < m {
      ChaseAliases(v, key, m, out, i);
      AliasIsStored(snap, out[i].name);
    } else {
      ChaseTail(v, key, m, out);
      assert out[m..][i - m] == r;
      TerminalIsStored(snap, out[m - 1].data.target, rtype, r);
    }
  }

  lemma {:induction false} AliasIsStored(snap: Snapshot, name: string)
    requires FirstAlias(At(snap.records, name)).Some?
    ensures FirstAlias(At(snap.records, name)).value.record in At(snap.records, name)
  {
  }

  lemma {:induction false} TerminalIsStored(snap: Snapshot, name: string, rtype: string, r: DnsRecord)
    requires KeyedByOwner(snap.records) && r in OfType(At(snap.records, name), rtype)
    ensures r.name == name && r in At(snap.records, r.name)
  {
  }

  /** Every record of every answer is a bundle record or carries the numbers, addresses, texts,
      names and lifetime of a configured entry. */
  lemma {:induction false} AnsweredDataIsConfigured(config: seq<StaticRecord>, meshZone: string, declared: set<string>,
                                                    mesh: Option<Bundle>, snap: Snapshot, key: string, rtype: string,
                                                    out: seq<DnsRecord>, r: DnsRecord)
    requires IsSnapshot(config, meshZone, declared, mesh, snap) && IsAnswer(meshZone, snap, key, rtype, Some(out)) && r in out
    ensures r in MeshRecords(mesh) || ServesSome(config, r)
  {
    SnapshotIsWellStored(config, meshZone, declared, mesh, snap);
    StoreIsKeyed(snap.records);
    AnswerIsStored(meshZone, snap, key, rtype, out, r);
    StoredRecordIsConfigured(config, meshZone, declared, mesh, snap, r.name, r);
  }

  /** The lookup of a configured key name and type answers with the configured data. */
  lemma {:induction false} ConfiguredDataIsServed(config: seq<StaticRecord>, meshZone: string, declared: set<string>,
                                                  mesh: Option<Bundle>, snap: Snapshot, i: nat, rtype: string, out: Option<seq<DnsRecord>>)
    requires IsSnapshot(config, meshZone, declared, mesh, snap) && i < |config| && KeyName(config[i].name)
    requires config[i].data.Some? && AsksFor(rtype, config[i].data.value)
    requires IsAnswer(meshZone, snap, Normalise(config[i].name), rtype, out)
    ensures out.Some? && exists r :: r in out.value && ServesEntry(config[i], r) && IsNormalOf(config[i].name, r.name)
  {
    var r := Convert(config[i]).value;
    TypeNameIff(rtype, config[i].data.value);
    TypeNameIsKept(r.data);
    ConfiguredRecordIsFoundIff(config, meshZone, declared, mesh, snap, i, out);
    ConvertServes(config[i], r);
    OwnerIsKeyIff(config[i].name);
    NormalIff(config[i].name, r.name);
  }

  // ---------------------------------------------------------------------------
  // Finding a configured record
  // ---------------------------------------------------------------------------

  /** A name whose stored owner is its query key: no white space around it, and no letter that
      full lowercasing changes outside ASCII. */
  predicate KeyName(name: string) { Trimmed(name) && PlainCase(name) }

  lemma {:induction false} NormaliseText(name: string)
    ensures Normalise(name) == Lower(Trim(name)) + (if EndsWith(Trim(name), ".") then "" else ".")
  {
    DottedEnd(Trim(name));
    DottedEnd(Lower(Trim(name)));
  }

  lemma {:induction false} TrimKeepsDot(name: string)
    requires EndsWith(name, ".")
    ensures EndsWith(Trim(name), ".")
  {
    DottedEnd(name);
    TrimStartExact(name);
    var t := TrimStart(name);
    assert t != [] && t[|t| - 1] == name[|name| - 1];
    assert TrimEnd(t) == t;
    DottedEnd(t);
  }

  /** A configured name is stored under its query key exactly under that condition. */
  lemma {:induction false} OwnerIsKeyIff(name: string)
    ensures OwnerName(name) == Normalise(name) <==> KeyName(name)
  {
    OwnerNameText(name);
    NormaliseText(name);
    LoweringsAgreeIff(name);
    TrimIsShorter(name);
    FullLowerIsSettled(name);
    if Trimmed(name) {
      SameWithDot(FullLower(name), Lower(name), if EndsWith(name, ".") then "" else ".");
    } else if EndsWith(name, ".") {
      TrimKeepsDot(name);
    }
  }

  lemma {:induction false} SameWithDot(a: string, b: string, dot: string)
    ensures a + dot == b + dot <==> a == b
  {
    if a + dot == b + dot {
      assert |a| == |b| && (a + dot)[..|a|] == a && (b + dot)[..|b|] == b;
    }
  }

  lemma {:induction false} StoredUnderOwner(store: map<string, seq<DnsRecord>>, r: DnsRecord, key: string)
    requires WellStored(store) && r in At(store, r.name)
    ensures r in At(store, key) <==> r.name == key
  {
  }

  lemma {:induction false} OwnerOfConverted(sr: StaticRecord)
    requires Convert(sr).Ok?
    ensures Convert(sr).value.name == OwnerName(sr.name)
  {
  }

  /** A configured record is stored under the key of its configured name if and only if that
      name has no white space around it and no letter that only full lowercasing changes. */
  lemma {:induction false} RecordIsKeyedIff(config: seq<StaticRecord>, meshZone: string, declared: set<string>,
                                                   mesh: Option<Bundle>, snap: Snapshot, i: nat)
    requires IsSnapshot(config, meshZone, declared, mesh, snap) && i < |config|
    ensures Convert(config[i]).Ok?
    ensures Convert(config[i]).value in At(snap.records, Normalise(config[i].name)) <==> KeyName(config[i].name)
  {
    ConfiguredRecordIsStored(config, meshZone, declared, mesh, snap, i);
    SnapshotIsWellStored(config, meshZone, declared, mesh, snap);
    StoredUnderOwner(snap.records, Convert(config[i]).value, Normalise(config[i].name));
    OwnerOfConverted(config[i]);
    OwnerIsKeyIff(config[i].name);
  }

  /** Aliases lead from `key` to the records that `r` is among, within eight in-scope hops. */
  ghost predicate LedTo(meshZone: string, snap: Snapshot, key: string, r: DnsRecord) {
    && !r.data.Cname? && Authoritative(meshZone, snap.zones, key)
    && exists n :: 1 <= n <= 8 && LedIn(ViewOf(meshZone, snap, TypeName(r.data)), key, r, n)
  }

  ghost predicate LedIn(v: View, key: string, r: DnsRecord, n: nat) { Reaches(v, key, n) && Follow(v, key, n) == Some(r.name) }

  lemma {:induction false} NotLedFrom(meshZone: string, snap: Snapshot, key: string, r: DnsRecord)
    requires Direct(snap, key, TypeName(r.data)) != [] || FirstAlias(At(snap.records, key)).None?
    ensures !LedTo(meshZone, snap, key, r)
  {
    var v := ViewOf(meshZone, snap, TypeName(r.data));
    TypeNameIsNotAny(r.data);
    forall n | 1 <= n <= 8 ensures !LedIn(v, key, r, n) {
      if Follow(v, key, n).Some? { FollowDefinedBelow(v, key, 0, n); }
      assert BareAt(v, key, 0) <==> Direct(snap, key, TypeName(r.data)) == [];
    }
  }

  lemma {:induction false} ChaseHoldsIff(meshZone: string, snap: Snapshot, key: string, r: DnsRecord, out: seq<DnsRecord>)
    requires WellStored(snap.records) && r in At(snap.records, r.name) && !r.data.Cname? && Authoritative(meshZone, snap.zones, key)
    requires IsChase(ViewOf(meshZone, snap, TypeName(r.data)), key, out)
    ensures r in out <==> LedTo(meshZone, snap, key, r)
  {
    var v := ViewOf(meshZone, snap, TypeName(r.data));
    StoreIsKeyed(snap.records);
    ViewIsFaithful(meshZone, snap, TypeName(r.data));
    if r in out {
      ChaseSound(v, key, out, r);
      var n: nat :| 1 <= n <= MAX_CNAME_DEPTH && Reaches(v, key, n) && r in v.terminal(Follow(v, key, n).value);
      StoredUnderOwner(snap.records, r, Follow(v, key, n).value);
      assert LedIn(v, key, r, n);
    }
    if LedTo(meshZone, snap, key, r) {
      var n :| 1 <= n <= 8 && LedIn(v, key, r, n);
      ChaseComplete(v, key, n, out);
      assert r in v.terminal(r.name);
    }
  }

  /** An answer holds a stored record exactly when it is stored at the key or aliases lead to it. */
  lemma {:induction false} AnswerHoldsIff(meshZone: string, snap: Snapshot, key: string, r: DnsRecord, out: Option<seq<DnsRecord>>)
    requires WellStored(snap.records) && r in At(snap.records, r.name) && Authoritative(meshZone, snap.zones, r.name)
    requires IsAnswer(meshZone, snap, key, TypeName(r.data), out)
    ensures out.Some? && r in out.value <==> r in At(snap.records, key) || LedTo(meshZone, snap, key, r)
  {
    var rtype := TypeName(r.data);
    TypeNameIsNotAny(r.data);
    StoredUnderOwner(snap.records, r, key);
    if Direct(snap, key, rtype) != [] || FirstAlias(At(snap.records, key)).None? {
      NotLedFrom(meshZone, snap, key, r);
    } else if out.Some? && !r.data.Cname? {
      ChaseHoldsIff(meshZone, snap, key, r, out.value);
    }
  }

  /** Looking up a configured record by its configured name and type finds it if and only if the
      name is a key name or aliases lead from its key to the record. */
  lemma {:induction false} ConfiguredRecordIsFoundIff(config: seq<StaticRecord>, meshZone: string, declared: set<string>,
                                                      mesh: Option<Bundle>, snap: Snapshot, i: nat, out: Option<seq<DnsRecord>>)
    requires IsSnapshot(config, meshZone, declared, mesh, snap) && i < |config| && Convert(config[i]).Ok?
    requires IsAnswer(meshZone, snap, Normalise(config[i].name), Upper(Trim(TypeName(Convert(config[i]).value.data))), out)
    ensures out.Some? && Convert(config[i]).value in out.value <==>
              KeyName(config[i].name) || LedTo(meshZone, snap, Normalise(config[i].name), Convert(config[i]).value)
  {
    var r, name := Convert(config[i]).value, config[i].name;
    SnapshotIsWellStored(config, meshZone, declared, mesh, snap);
    ConfiguredRecordIsStored(config, meshZone, declared, mesh, snap, i);
    RecordIsKeyedIff(config, meshZone, declared, mesh, snap, i);
    TypeNameIsKept(r.data);
    AnswerHoldsIff(meshZone, snap, Normalise(name), r, out);
  }

  /** A store without aliases. */
  const NO_ALIAS: RecordLaw := (k: string, r: DnsRecord) => !r.data.Cname?

  lemma {:induction false} NoAliasAtAll(store: map<string, seq<DnsRecord>>, key: string)
    requires Obeys(store, NO_ALIAS)
    ensures FirstAlias(At(store, key)).None?
  {
    if key in store { assert forall r :: r in store[key] ==> NO_ALIAS(key, r); }
  }

  lemma {:induction false} OneHostHasNoAlias(sr: StaticRecord, meshZone: string, declared: set<string>, mesh: Option<Bundle>, snap: Snapshot)
    requires IsSnapshot([sr], meshZone, declared, mesh, snap) && sr.data.Some? && sr.data.value.A?
    ensures Obeys(snap.records, NO_ALIAS)
  {
    var records, zones :| && Configured([sr], meshZone, declared, records, zones)
                          && snap == SnapshotOf(records, zones, mesh) && (mesh.Some? ==> MintedFor(mesh.value, meshZone));
    OneHostConverts(sr, meshZone, declared);
    GroupsObey(records, Converted([sr], meshZone, declared), NO_ALIAS);
    MintedHasNoAlias(mesh, meshZone);
    MergedObeys(records, MeshRecords(mesh), NO_ALIAS);
  }

  lemma {:induction false} OneHostConverts(sr: StaticRecord, meshZone: string, declared: set<string>)
    requires AllAdmissible([sr], meshZone, declared) && sr.data.Some? && sr.data.value.A?
    ensures forall r :: r in Converted([sr], meshZone, declared) ==> NO_ALIAS(r.name, r)
  {
    forall r | r in Converted([sr], meshZone, declared) ensures NO_ALIAS(r.name, r) {
      ConvertedAt([sr], meshZone, declared, r);
      assert Convert(sr) == Ok(r);
    }
  }

  lemma {:induction false} MintedHasNoAlias(mesh: Option<Bundle>, meshZone: string)
    requires mesh.Some? ==> MintedFor(mesh.value, meshZone)
    ensures forall r :: r in MeshRecords(mesh) ==> NO_ALIAS(r.name, r)
  {
    forall r | r in MeshRecords(mesh) ensures NO_ALIAS(r.name, r) {
      var k :| 0 <= k < |mesh.value.records| && mesh.value.records[k] == r;
      assert mesh.value.records[k].data.A?;
    }
  }

  /** An address record of the configuration. */
  function HostEntry(name: string, address: nat): StaticRecord { StaticRecord(name, Some(A(address)), 300) }

  /** An address record whose name is no key name: it is in no answer to a lookup of that name,
      whatever bundle is merged in. */
  lemma {:induction false} LostEntryIsNeverFound(name: string, address: nat, meshZone: string, declared: set<string>,
                                                 mesh: Option<Bundle>, snap: Snapshot, out: Option<seq<DnsRecord>>)
    requires !KeyName(name) && IsSnapshot([HostEntry(name, address)], meshZone, declared, mesh, snap)
    requires IsAnswer(meshZone, snap, Normalise(name), "A", out)
    ensures out.None? || NewRecord(name, A(address), 300) !in out.value
  {
    var sr := HostEntry(name, address);
    OneHostHasNoAlias(sr, meshZone, declared, mesh, snap);
    NoAliasAtAll(snap.records, Normalise(name));
    NotLedFrom(meshZone, snap, Normalise(name), Convert(sr).value);
    TypeNameIsKept(A(address));
    ConfiguredRecordIsFoundIff([sr], meshZone, declared, mesh, snap, 0, out);
  }

  /** The owner of a plain name with one more character in front. */
  lemma {:induction false} HeadedOwner(c: char, low: char, d: string)
    requires c != CAPITAL_SIGMA && UNICODE.low(c) == [low] && d != [] && PlainCase(d)
    ensures OwnerName([c] + d) == [low] + OwnerName(d)
  {
    HeadedLower(c, low, d);
    LoweringsAgreeIff(d);
    OwnerNameText(d);
    OwnerNameText([c] + d);
    DottedEnd(d);
    DottedEnd([c] + d);
  }

  /** A character in front of a name of several labels leaves its parent as it is. */
  lemma {:induction false} HeadedApex(c: char, name: string, meshZone: string, declared: set<string>)
    requires c != '.' && FirstIndex(name, '.') + 1 < |name|
    ensures StaticZoneApex([c] + name, meshZone, declared) == StaticZoneApex(name, meshZone, declared)
  {
    var dot := FirstIndex(name, '.');
    FirstIndexUnique([c] + name, '.', dot + 1);
    assert ([c] + name)[dot + 2..] == name[dot + 1..];
  }

  /** Such entries are easily admissible: of every admissible plain name with at least two labels
      in front of its final dot, a space or an accented capital in front makes another one. */
  lemma {:induction false} LostEntryIsAdmissible(c: char, d: string, address: nat, meshZone: string, declared: set<string>)
    requires c == ' ' || c == CAPITAL_E_ACUTE
    requires AllAdmissible([HostEntry(d, address)], meshZone, declared)
    requires PlainCase(d) && d != [] && FirstIndex(OwnerName(d), '.') + 1 < |OwnerName(d)|
    ensures AllAdmissible([HostEntry([c] + d, address)], meshZone, declared) && !KeyName([c] + d)
  {
    var low := if c == ' ' then c else SMALL_E_ACUTE;
    LostHead(c, low, d);
    HeadedOwner(c, low, d);
    HeadedApex(low, OwnerName(d), meshZone, declared);
    AdmissibleIffApex(d, address, meshZone, declared);
    AdmissibleIffApex([c] + d, address, meshZone, declared);
  }

  lemma {:induction false} LostHead(c: char, low: char, d: string)
    requires (c == ' ' && low == ' ') || (c == CAPITAL_E_ACUTE && low == SMALL_E_ACUTE)
    ensures UNICODE.low(c) == [low] && !KeyName([c] + d)
  {
    assert LawfulAt(UNICODE.low, c) && ([c] + d)[0] == c;
    AccentIsNotPlain();
  }

  lemma {:induction false} AdmissibleIffApex(name: string, address: nat, meshZone: string, declared: set<string>)
    ensures AllAdmissible([HostEntry(name, address)], meshZone, declared)
       <==> StaticZoneApex(OwnerName(name), meshZone, declared).Ok?
  {
    var sr := HostEntry(name, address);
    assert AllAdmissible([sr], meshZone, declared) <==> Admissible([sr][0], meshZone, declared);
  }

  lemma {:induction false} PlainEntryIsAdmissible(address: nat)
    ensures AllAdmissible([HostEntry("h.lan.", address)], "lan.", {})
    ensures PlainCase("h.lan.") && FirstIndex(OwnerName("h.lan."), '.') + 1 < |OwnerName("h.lan.")|
  {
    PlainOwner("h.lan.");
    ParentIsMeshZone("h.lan.");
    AdmissibleIffApex("h.lan.", address, "lan.", {});
  }

  lemma {:induction false} PlainOwner(d: string)
    requires IsAscii(d) && !HasUpper(d) && d != [] && d[|d| - 1] == '.'
    ensures PlainCase(d) && OwnerName(d) == d
  {
    AsciiIsPlainCase(d);
    LowerKeeps(d);
    DottedEnd(d);
    OwnerNameText(d);
  }

  lemma {:induction false} ParentIsMeshZone(d: string)
    requires d == "h.lan."
    ensures FirstIndex(d, '.') == 1 && StaticZoneApex(d, "lan.", {}).Ok?
  {
    FirstIndexUnique(d, '.', 1);
    assert d[2..] == "lan.";
  }

  /** A concrete one: under the mesh zone `lan.`, the name `h.lan.` with a space or an accented
      capital in front loads and is never found by its own name. */
  lemma {:induction false} LostEntryExample(c: char, address: nat, mesh: Option<Bundle>, snap: Snapshot, out: Option<seq<DnsRecord>>)
    requires c == ' ' || c == CAPITAL_E_ACUTE
    ensures var name := [c] + "h.lan.";
            && AllAdmissible([HostEntry(name, address)], "lan.", {})
            && (IsSnapshot([HostEntry(name, address)], "lan.", {}, mesh, snap) && IsAnswer("lan.", snap, Normalise(name), "A", out) ==>
                  out.None? || NewRecord(name, A(address), 300) !in out.value)
  {
    var name := [c] + "h.lan.";
    PlainEntryIsAdmissible(address);
    LostEntryIsAdmissible(c, "h.lan.", address, "lan.", {});
    if IsSnapshot([HostEntry(name, address)], "lan.", {}, mesh, snap) && IsAnswer("lan.", snap, Normalise(name), "A", out) {
      LostEntryIsNeverFound(name, address, "lan.", {}, mesh, snap, out);
    }
  }

  // ---------------------------------------------------------------------------
  // Finding a mesh record
  // ---------------------------------------------------------------------------

  predicate TrimmedEntries(es: seq<Option<Field>>) { forall i :: 0 <= i < |es| && es[i].Some? ==> Trimmed(es[i].value.value) }

  lemma {:induction false} EntriesAreTrimmed(parse: LineParser, ls: seq<string>)
    requires forall l :: parse(l).Some? ==> Trimmed(parse(l).value.value)
    ensures TrimmedEntries(Entries(parse, ls))
  {
    if ls != [] { EntriesAreTrimmed(parse, ls[..|ls| - 1]); }
  }

  lemma {:induction false} PayloadValuesAreTrimmed(payload: string, fields: Fields)
    requires WellFormed(PayloadEntries(payload)) && MeshWire.Holds(fields, PayloadEntries(payload))
    ensures forall k :: k in fields ==> Trimmed(fields[k])
  {
    forall l: string | LINE_PARSER(l).Some? ensures Trimmed(LINE_PARSER(l).value.value) {
      TrimIsTrimmed(l[FirstIndex(l, '=') + 1..]);
    }
    var es := PayloadEntries(payload);
    EntriesAreTrimmed(LINE_PARSER, Lines(payload));
    forall k | k in fields ensures Trimmed(fields[k]) {
      var i :| 0 <= i < |es| && es[i].value.key == k;
      assert Trimmed(es[i].value.value);
    }
  }

  lemma {:induction false} CleanPiecesAreHeaded(ps: seq<string>)
    ensures forall n :: n in CleanPieces(ps) ==> Headed(n)
  {
    if ps != [] {
      CleanPiecesAreHeaded(ps[1..]);
      TrimIsTrimmed(ps[0]);
    }
  }

  /** No name of a group read from a file starts with white space. */
  lemma {:induction false} GroupNamesAreHeaded(fields: Fields, parseIp: IpParser, i: nat, n: string)
    requires forall k :: k in fields ==> Trimmed(fields[k])
    requires ReadEntry(fields, parseIp, i).Ok? && n in ReadEntry(fields, parseIp, i).value.names
    ensures Headed(n)
  {
    var e, get, d := ReadEntry(fields, parseIp, i).value, GroupOf(fields, i), Standard(parseIp);
    GroupIsReadIff(get, GroupErrors(i), d, e);
    CleanPiecesAreHeaded(Split(AliasField(get), ','));
    if n == e.names[0] {
      assert d.valid(n) && Trimmed(fields[FieldName(i, HostLabel)]);
    } else {
      assert n in e.names[1..];
    }
  }

  lemma {:induction false} MeshNameHead(n: string, zone: string)
    requires Headed(n)
    ensures Headed(MeshName(n, zone))
  {
    OwnerNameText(n + MeshZoneDotted(zone));
  }

  lemma {:induction false} LoadedNamesAreHeaded(payload: string, zone: string, parseIp: IpParser, maxAge: nat, now: nat, b: Bundle, r: DnsRecord)
    requires LoadsPayload(payload, zone, parseIp, maxAge, now, b) && r in b.records
    ensures Headed(r.name)
  {
    var fields :| MeshWire.Holds(fields, PayloadEntries(payload)) && LoadedFrom(fields, zone, parseIp, maxAge, now, b);
    var read, count := GroupsIn(fields, parseIp), ReadHeader(fields, zone).value.count;
    var k :| 0 <= k < |b.records| && b.records[k] == r;
    RecordsComeFromEntries(read, zone, count, b.records, k);
    var i, n :| 0 <= i < count && MeshBundle.Published(read, zone, i, n, b.records[k]);
    PayloadValuesAreTrimmed(payload, fields);
    GroupNamesAreHeaded(fields, parseIp, i, n);
    MeshNameHead(n, zone);
  }

  lemma {:induction false} MeshRecordIsStored(config: seq<StaticRecord>, meshZone: string, declared: set<string>, b: Bundle,
                                              snap: Snapshot, r: DnsRecord)
    requires IsSnapshot(config, meshZone, declared, Some(b), snap) && r in b.records
    ensures r in At(snap.records, r.name) && Authoritative(meshZone, snap.zones, r.name)
  {
    var records, zones :| && Configured(config, meshZone, declared, records, zones)
                          && snap == SnapshotOf(records, zones, Some(b)) && MintedFor(b, meshZone);
    BundleRecordIsStored(config, meshZone, declared, records, zones, b.records, r);
  }

  lemma {:induction false} BundleRecordIsStored(config: seq<StaticRecord>, meshZone: string, declared: set<string>,
                                                records: map<string, seq<DnsRecord>>, zones: seq<string>, rs: seq<DnsRecord>, r: DnsRecord)
    requires Configured(config, meshZone, declared, records, zones) && r in rs
    ensures r in At(MergeStore(records, rs), r.name) && Authoritative(meshZone, ZonesWith(zones, rs), r.name)
  {
    StaticStoreIsWellStored(config, meshZone, declared, records);
    MergeExact(records, rs, r.name, r);
    ConfiguredIsInScope(config, meshZone, declared, records, zones, rs, r);
  }

  /** Every record of a bundle that was loaded from a file is found by its own name and type,
      over every admissible configuration. */
  lemma {:induction false} LoadedRecordIsFound(config: seq<StaticRecord>, meshZone: string, declared: set<string>, payload: string,
                                               parseIp: IpParser, maxAge: nat, now: nat, b: Bundle, snap: Snapshot, r: DnsRecord,
                                               out: Option<seq<DnsRecord>>)
    requires IsSnapshot(config, meshZone, declared, Some(b), snap)
    requires LoadsPayload(payload, meshZone, parseIp, maxAge, now, b) && r in b.records
    requires IsAnswer(meshZone, snap, Normalise(r.name), Upper(Trim(TypeName(r.data))), out)
    ensures out.Some? && r in out.value
  {
    TypeNameIsKept(r.data);
    LoadedNamesAreHeaded(payload, meshZone, parseIp, maxAge, now, b, r);
    SnapshotIsWellStored(config, meshZone, declared, Some(b), snap);
    MeshRecordIsStored(config, meshZone, declared, b, snap, r);
    StoredRecordIsFoundIff(meshZone, snap, r, out);
  }

  // ---------------------------------------------------------------------------
  // Alias answers
  // ---------------------------------------------------------------------------

  /** The first `m` records are one linked chain of in-scope aliases with distinct owners,
      from `key`. */
  predicate AliasChain(meshZone: string, snap: Snapshot, key: string, out: seq<DnsRecord>, m: nat) {
    && 1 <= m <= |out| && m <= 9 && out[0].name == key
    && (forall i :: 0 <= i < m ==> IsFirstAlias(At(snap.records, out[i].name), out[i])
                                   && Authoritative(meshZone, snap.zones, out[i].name))
    && (forall i :: 0 < i < m ==> out[i - 1].data == Cname(out[i].name))
    && (forall i, j :: 0 <= i < j < m ==> out[i].name != out[j].name)
  }

  /** Behind the chain there are all the records of the type at the last target, which is then in
      scope and at most eight hops away; or nothing, because that target is out of scope or in
      the chain already, holds neither such records nor an alias, or the chain is full. */
  predicate ChainTail(meshZone: string, snap: Snapshot, rtype: string, out: seq<DnsRecord>, m: nat) {
    && 1 <= m <= |out| && out[m - 1].data.Cname?
    && var last := out[m - 1].data.target;
       if out[m..] != [] then
         out[m..] == Filter(At(snap.records, last), Asking(rtype)) && m <= 8 && Authoritative(meshZone, snap.zones, last)
       else
         || m == 9 || !Authoritative(meshZone, snap.zones, last) || (exists i :: 0 <= i < m && out[i].name == last)
         || forall r :: r in At(snap.records, last) ==> !r.data.Cname? && !AsksFor(rtype, r.data)
  }

  lemma {:induction false} ChaseIsAliasChain(meshZone: string, snap: Snapshot, key: string, rtype: string, out: seq<DnsRecord>, m: nat)
    requires KeyedByOwner(snap.records) && Authoritative(meshZone, snap.zones, key)
    requires StopsAfter(ViewOf(meshZone, snap, rtype), key, m, out)
    ensures AliasChain(meshZone, snap, key, out, m)
  {
    var v := ViewOf(meshZone, snap, rtype);
    ViewIsFaithful(meshZone, snap, rtype);
    ChaseIsLinkedChain(v, key, m, out);
    forall i | 0 <= i < m ensures IsFirstAlias(At(snap.records, out[i].name), out[i]) { ChaseAliases(v, key, m, out, i); }
    assert forall n :: v.inScope(n) == Authoritative(meshZone, snap.zones, n);
  }

  lemma {:induction false} ChaseHasChainTail(meshZone: string, snap: Snapshot, key: string, rtype: string, out: seq<DnsRecord>, m: nat)
    requires KeyedByOwner(snap.records) && OfType(At(snap.records, key), rtype) == []
    requires StopsAfter(ViewOf(meshZone, snap, rtype), key, m, out)
    ensures ChainTail(meshZone, snap, rtype, out, m)
  {
    var v := ViewOf(meshZone, snap, rtype);
    ViewIsFaithful(meshZone, snap, rtype);
    ChaseTail(v, key, m, out);
    OfTypeIsFilter(At(snap.records, out[m - 1].data.target), rtype);
    if out[m..] == [] && m <= 8 { ChaseEndsFor(meshZone, snap, key, rtype, out, m); }
  }

  lemma {:induction false} NothingThere(rs: seq<DnsRecord>, rtype: string)
    requires FirstAlias(rs).None? && OfType(rs, rtype) == []
    ensures forall r :: r in rs ==> !r.data.Cname? && !AsksFor(rtype, r.data)
  {
    forall r | r in rs ensures !AsksFor(rtype, r.data) {
      TypeNameIff(rtype, r.data);
      assert r !in OfType(rs, rtype);
    }
  }

  lemma {:induction false} ChaseEndsFor(meshZone: string, snap: Snapshot, key: string, rtype: string, out: seq<DnsRecord>, m: nat)
    requires KeyedByOwner(snap.records) && OfType(At(snap.records, key), rtype) == []
    requires StopsAfter(ViewOf(meshZone, snap, rtype), key, m, out)
    requires m <= 8 && m <= |out| && out[m..] == [] && out[m - 1].data.Cname?
    ensures var last := out[m - 1].data.target;
            || !Authoritative(meshZone, snap.zones, last) || (exists i :: 0 <= i < m && out[i].name == last)
            || forall r :: r in At(snap.records, last) ==> !r.data.Cname? && !AsksFor(rtype, r.data)
  {
    var v, last := ViewOf(meshZone, snap, rtype), out[m - 1].data.target;
    ViewIsFaithful(meshZone, snap, rtype);
    LinkLinks(v, key, m - 1, m);
    assert out[m - 1] == Links(v, key, m)[m - 1] && Follow(v, key, m) == Some(last);
    if Repeats(v, key, m) {
      var j :| 0 <= j < m && Meets(v, key, j, m);
      LinkLinks(v, key, j, m);
      assert out[j].name == last;
    } else if Authoritative(meshZone, snap.zones, last) {
      ChaseEmptyHanded(v, key, m, out);
      NothingThere(At(snap.records, last), rtype);
    }
  }

  lemma {:induction false} ChaseEmptyHanded(v: View, key: string, m: nat, out: seq<DnsRecord>)
    requires StopsAfter(v, key, m, out) && m <= 8 && |out| == m && InScopeAt(v, key, m) && !Repeats(v, key, m) && BareAt(v, key, 0)
    ensures v.terminal(Follow(v, key, m).value) == [] && v.alias(Follow(v, key, m).value).None?
  {
    forall i | 1 <= i < m ensures InScopeAt(v, key, i) && BareAt(v, key, i) { assert Passes(v, key, i); }
    assert !Reaches(v, key, m);
    assert !Passes(v, key, m);
  }

  lemma {:induction false} AnswerIsChase(meshZone: string, snap: Snapshot, key: string, rtype: string, out: seq<DnsRecord>)
    requires IsAnswer(meshZone, snap, key, rtype, Some(out))
    requires rtype != "CNAME" && rtype != "ANY" && Direct(snap, key, rtype) == [] && FirstAlias(At(snap.records, key)).Some?
    ensures Authoritative(meshZone, snap.zones, key)
    ensures exists m: nat :: StopsAfter(ViewOf(meshZone, snap, rtype), key, m, out)
  {
    assert IsChase(ViewOf(meshZone, snap, rtype), key, out);
  }

  /** The answer to a query without direct records but with an alias, over every admissible
      configuration and minted bundle: a linked alias chain and its tail. */
  lemma {:induction false} AliasAnswer(config: seq<StaticRecord>, meshZone: string, declared: set<string>, mesh: Option<Bundle>,
                                       snap: Snapshot, key: string, rtype: string, out: seq<DnsRecord>)
    requires IsSnapshot(config, meshZone, declared, mesh, snap) && IsAnswer(meshZone, snap, key, rtype, Some(out))
    requires rtype != "CNAME" && rtype != "ANY" && Direct(snap, key, rtype) == [] && FirstAlias(At(snap.records, key)).Some?
    ensures exists m :: AliasChain(meshZone, snap, key, out, m) && ChainTail(meshZone, snap, rtype, out, m)
  {
    SnapshotIsWellStored(config, meshZone, declared, mesh, snap);
    StoreIsKeyed(snap.records);
    AnswerIsChase(meshZone, snap, key, rtype, out);
    var m: nat :| StopsAfter(ViewOf(meshZone, snap, rtype), key, m, out);
    ChaseIsAliasChain(meshZone, snap, key, rtype, out, m);
    ChaseHasChainTail(meshZone, snap, key, rtype, out, m);
  }

  /** Completeness of that answer: if following aliases from the key first meets records of the
      type after at most eight in-scope hops, the answer is exactly those aliases and all of
      those records.  Soundness: no other record of the type is ever in it. */
  lemma {:induction false} AliasAnswerIsExact(config: seq<StaticRecord>, meshZone: string, declared: set<string>, mesh: Option<Bundle>,
                                              snap: Snapshot, key: string, rtype: string, out: seq<DnsRecord>, k: nat, r: DnsRecord)
    requires IsSnapshot(config, meshZone, declared, mesh, snap) && IsAnswer(meshZone, snap, key, rtype, Some(out))
    requires rtype != "CNAME" && rtype != "ANY" && Direct(snap, key, rtype) == [] && FirstAlias(At(snap.records, key)).Some?
    ensures var v := ViewOf(meshZone, snap, rtype);
            && (Reaches(v, key, k) && k <= 8 ==> out == Links(v, key, k) + OfType(At(snap.records, Follow(v, key, k).value), rtype))
            && (r in out && !r.data.Cname? ==>
                  exists n :: 1 <= n <= 8 && Reaches(v, key, n) && r in OfType(At(snap.records, Follow(v, key, n).value), rtype))
  {
    var v := ViewOf(meshZone, snap, rtype);
    SnapshotIsWellStored(config, meshZone, declared, mesh, snap);
    StoreIsKeyed(snap.records);
    ViewIsFaithful(meshZone, snap, rtype);
    AnswerIsChase(meshZone, snap, key, rtype, out);
    if Reaches(v, key, k) && k <= 8 { ChaseComplete(v, key, k, out); }
    if r in out && !r.data.Cname? {
      ChaseSound(v, key, out, r);
      var n: nat :| 1 <= n <= MAX_CNAME_DEPTH && Reaches(v, key, n) && r in v.terminal(Follow(v, key, n).value);
      assert r in OfType(At(snap.records, Follow(v, key, n).value), rtype);
    }
  }
}
