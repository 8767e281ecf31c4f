/** The authority as the daemon uses it, and the laws that span its parts: which names it
    answers for across reloads, and when a stored record is found again. */
module Authority {
  import opened Names
  import opened Spelling
  import opened Text
  import opened Casing
  import opened Records
  import opened ZoneStore
  import opened MeshWire
  import BlockSchedule
  import opened MeshBundle
  import opened MeshPrint
  import opened Lookup
  import opened ReloadProtocol

  class Authority {
    const meshZone: string
    const staticRecords: map<string, seq<DnsRecord>>
    const staticZones: seq<string>
    var snapshot: Snapshot
    var watermark: Option<Tag>

    constructor (meshZone: string, staticRecords: map<string, seq<DnsRecord>>, staticZones: seq<string>, mesh: Option<Bundle>)
      ensures this.meshZone == meshZone && this.staticRecords == staticRecords && this.staticZones == staticZones
      ensures snapshot == SnapshotOf(staticRecords, staticZones, mesh)
      ensures watermark == TagOfOption(mesh)
    {
      this.meshZone := meshZone;
      this.staticRecords := staticRecords;
      this.staticZones := staticZones;
      snapshot := Snapshot([], map[]);
      watermark := TagOfOption(mesh);
      new;
      snapshot := BuildSnapshot(staticRecords, staticZones, mesh);
    }

    /** One uninterrupted reload call: `loaded` is None when no bundle is configured. */
    method ReloadMesh(loaded: Option<Result<Bundle, MeshError>>) returns (out: Result<Option<nat>, MeshError>)
      modifies this
      ensures loaded.None? ==> out == Ok(None)
      ensures loaded.Some? && loaded.value.Err? ==> out == Err(loaded.value.error)
      ensures out.IsFailure() || out == Ok(None) ==> snapshot == old(snapshot) && watermark == old(watermark)
      ensures loaded.Some? && loaded.value.Ok? ==>
                var b, was := loaded.value.value, old(watermark);
                if was.Some? && (b.generatedAt < was.value.generatedAt
                                 || (b.generatedAt == was.value.generatedAt && b.nonce < was.value.nonce)) then
                  out == Err(Rollback((b.generatedAt, b.nonce), (was.value.generatedAt, was.value.nonce)))
                else
                  && out == Ok(Some(|b.records|))
                  && snapshot == SnapshotOf(staticRecords, staticZones, Some(b))
                  && watermark == Some(Tag(b.generatedAt, b.nonce))
    {
      if loaded.None? { return Ok(None); }
      if loaded.value.Err? { return Err(loaded.value.error); }
      var b := loaded.value.value;
      var candidate := TagOf(b);
      if watermark.Some? && Older(candidate, watermark.value) {
        return Err(Rollback((candidate.generatedAt, candidate.nonce),
                            (watermark.value.generatedAt, watermark.value.nonce)));
      }
      snapshot := BuildSnapshot(staticRecords, staticZones, Some(b));
      watermark := Some(candidate);
      return Ok(Some(|b.records|));
    }

    method LookUp(name: string, recordType: string) returns (out: Option<seq<DnsRecord>>)
      ensures IsAnswer(meshZone, snapshot, Normalise(name), Upper(Trim(recordType)), out)
    {
      out := Lookup.LookUp(meshZone, snapshot, name, recordType);
    }
  }

  // ---------------------------------------------------------------------------
  // The names the authority answers for
  // ---------------------------------------------------------------------------

  /** Does merging `mesh` leave the answer for `name` as the static zones decide it? */
  ghost predicate ScopeKept(meshZone: string, zones: seq<string>, rs: seq<DnsRecord>, name: string) {
    Authoritative(meshZone, ZonesWith(zones, rs), name) <==> Authoritative(meshZone, zones, name)
  }

  predicate AnyZone(zones: set<string>, name: string) { exists z :: z in zones && NameWithinZone(name, z) }

  lemma {:induction false} AuthoritativeByMembers(meshZone: string, zones: seq<string>, name: string)
    ensures Authoritative(meshZone, zones, name)
       <==> NameWithinZone(name, meshZone) || AnyZone(Members(zones), name)
  {
    if AnyZone(Members(zones), name) {
      var z :| z in Members(zones) && NameWithinZone(name, z);
      var i :| 0 <= i < |zones| && zones[i] == z;
    }
    if Authoritative(meshZone, zones, name) && !NameWithinZone(name, meshZone) {
      var i :| 0 <= i < |zones| && NameWithinZone(name, zones[i]);
      assert zones[i] in Members(zones);
    }
  }

  /** A bundle whose names lie in the mesh zone changes nothing. */
  lemma {:induction false} BundleKeepsScope(meshZone: string, zones: seq<string>, b: Bundle, name: string)
    requires IsZoneName(meshZone) && meshZone[0] != '.' && PlainCase(meshZone) && MintedFor(b, meshZone)
    ensures ScopeKept(meshZone, zones, b.records, name)
  {
    AuthoritativeByMembers(meshZone, zones, name);
    AuthoritativeByMembers(meshZone, ZonesWith(zones, b.records), name);
    ZonesWithMembers(zones, b.records);
    forall z | z in Owners(b.records) && NameWithinZone(name, z)
      ensures NameWithinZone(name, meshZone)
    {
      var k :| 0 <= k < |b.records| && b.records[k].name == z;
      var n :| ValidLabel(n) && b.records[k].name == MeshName(n, meshZone);
      MeshNameScope(n, meshZone);
      NameWithinZoneIsLabelSuffix(name, z);
      NameWithinZoneIsLabelSuffix(z, meshZone);
      NameWithinZoneIsLabelSuffix(name, meshZone);
      WithinTransitive(name, z, meshZone);
    }
  }

  /** A zone under which no reload can add a name: it does not start with a dot and full
      lowercasing leaves it alone, or no bundle can name it. */
  predicate SteadyZone(meshZone: string) {
    meshZone != [] && (Nameable(meshZone) ==> meshZone[0] != '.' && PlainCase(meshZone))
  }

  /** A readable document of one host, generated and fresh at `now`. */
  function OneHostDoc(meshZone: string, ip: nat, ipText: string, now: nat): Doc {
    Doc(meshZone, now, now + 1, 0, [Group(Entry(["a"], ip, 60, "node"), ipText)])
  }

  /** A clock that the loader trusts. */
  predicate TrustedClock(now: nat) { BlockSchedule.MIN_TRUSTED_UNIX_SECS <= now < U64_MAX }

  lemma {:induction false} BeforeFinalDot(zone: string)
    requires EndsWith(zone, ".")
    ensures |zone| >= 1 && zone[|zone| - 1] == '.'
    ensures |zone| >= 2 && zone[|zone| - 2] == '.' ==> EndsWith(zone, "..")
  {
    assert zone[|zone| - 1..][0] == '.';
    if |zone| >= 2 { assert zone[|zone| - 2..] == [zone[|zone| - 2], zone[|zone| - 1]]; }
  }

  lemma {:induction false} DottedZoneTrims(zone: string)
    requires EndsWith(zone, ".") && !IsWhitespace(zone[0])
    ensures Trim(zone) == zone
  {
    BeforeFinalDot(zone);
    TrimOfTrimmed(zone);
  }

  lemma {:induction false} DottedZoneFront(zone: string)
    requires EndsWith(zone, ".") && !EndsWith(zone, "..")
    ensures TrimDots(zone) == zone[..|zone| - 1] && zone == zone[..|zone| - 1] + "."
  {
    BeforeFinalDot(zone);
    CutLast(zone);
    TrimOneDot(zone);
  }

  lemma {:induction false} TrimOneDot(zone: string)
    requires zone != [] && zone[|zone| - 1] == '.' && (|zone| >= 2 ==> zone[|zone| - 2] != '.')
    ensures TrimDots(zone) == zone[..|zone| - 1]
  {
    var front := zone[..|zone| - 1];
    assert front != [] ==> front[|front| - 1] == zone[|zone| - 2];
    assert TrimDots(front) == front;
  }

  lemma {:induction false} CutLast<T>(s: seq<T>)
    requires s != []
    ensures s == s[..|s| - 1] + [s[|s| - 1]]
  {
  }

  /** Can a bundle name this mesh zone?  Normalising its zone name leaves no white space in front
      and one dot at the end. */
  predicate Nameable(zone: string) { zone != [] && !IsWhitespace(zone[0]) && !EndsWith(zone, "..") }

  lemma {:induction false} ZoneIsItsBundleZone(zone: string)
    requires IsZoneName(zone) && Nameable(zone)
    ensures NormaliseZone(zone) == zone
  {
    DottedZoneTrims(zone);
    DottedZoneFront(zone);
    LowerPrefix(zone, zone[..|zone| - 1]);
  }

  lemma {:induction false} LowerPrefix(zone: string, x: string)
    requires Lower(zone) == zone && x <= zone
    ensures Lower(x) == x
  {
    assert forall i :: 0 <= i < |x| ==> Lower(x)[i] == Lower(zone)[i] == zone[i] == x[i];
  }

  /** No bundle names any other zone. */
  lemma {:induction false} BundleZoneIsNameable(value: string)
    ensures Nameable(NormaliseZone(value))
  {
    var t := TrimDots(Trim(value));
    TrimIsTrimmed(value);
    TrimDotsExact(Trim(value));
    LowerHead(t);
    var z := Lower(t) + ".";
    if |t| > 0 {
      assert z[|z| - 2] == LowerChar(t[|t| - 1]) != '.';
      assert z[|z| - 2..][0] != '.';
    }
  }

  lemma {:induction false} CanonicalZone(zone: string)
    requires IsZoneName(zone) && !EndsWith(zone, "..")
    ensures zone == Canonical(zone) + "."
  {
    DottedZoneFront(zone);
    LowerPrefix(zone, zone[..|zone| - 1]);
  }

  lemma {:induction false} CanonicalOfZone(core: string)
    ensures Canonical(Canonical(core) + ".") == Canonical(core) && IsZoneName(Canonical(core) + ".")
  {
    var t := Canonical(core);
    CanonicalIsLower(core);
    TrimAddedDot(t);
    LowerAppend(t, ".");
    assert Lower(".") == ".";
    DottedEnd(t + ".");
  }

  lemma {:induction false} CanonicalIsLower(core: string)
    ensures var t := Canonical(core); Lower(t) == t && (t != [] ==> t[|t| - 1] != '.')
  {
    var t := TrimDots(core);
    TrimDotsExact(core);
    LowerIsSameLetters(t);
    LowerKeeps(Lower(t));
    assert t != [] ==> Lower(t)[|t| - 1] == LowerChar(t[|t| - 1]);
  }

  lemma {:induction false} TrimAddedDot(t: string)
    requires t != [] ==> t[|t| - 1] != '.'
    ensures TrimDots(t + ".") == t
  {
    TrimDotsUnique(t + ".", |t|);
    assert (t + ".")[..|t|] == t;
  }

  /** A bundle names a mesh zone exactly when its zone name is that zone up to white space around
      it, the case of ASCII letters and final dots. */
  lemma {:induction false} BundleNamesZoneIff(value: string, core: string, lead: string, trail: string, zone: string)
    requires IsCore(value, core, lead, trail)
    ensures NormaliseZone(value) == zone <==> IsZoneName(zone) && !EndsWith(zone, "..") && SameName(core, zone)
  {
    CoreIsTrim(value, core, lead, trail);
    SameNameIff(core, zone);
    CanonicalOfZone(core);
    BundleZoneIsNameable(value);
    if IsZoneName(zone) && !EndsWith(zone, "..") { CanonicalZone(zone); }
  }

  lemma {:induction false} OnlyNameableZonesLoad(fields: Fields, zone: string, parseIp: IpParser, b: Bundle)
    requires BuiltFrom(fields, zone, parseIp, b)
    ensures Nameable(zone)
  {
    var r := HeaderOf(fields);
    HeaderIsReadIff(r, zone, ReadHeader(fields, zone).value);
    BundleZoneIsNameable(r.get(ZoneName).value);
  }

  lemma {:induction false} OneHostDocIsGood(meshZone: string, parseIp: IpParser, ipText: string, now: nat)
    requires TrustedClock(now)
    requires IsZoneName(meshZone) && Nameable(meshZone) && parseIp(ipText).Some?
    ensures HasNames(OneHostDoc(meshZone, parseIp(ipText).value, ipText, now))
    ensures GoodDoc(OneHostDoc(meshZone, parseIp(ipText).value, ipText, now), meshZone, parseIp)
  {
    ZoneIsItsBundleZone(meshZone);
    OneHostGroupIsGood(parseIp, ipText);
    OneGroupDocIsGood(OneHostDoc(meshZone, parseIp(ipText).value, ipText, now), meshZone, parseIp);
  }

  lemma {:induction false} OneGroupDocIsGood(doc: Doc, zone: string, parseIp: IpParser)
    requires |doc.groups| == 1 && GoodGroup(doc.groups[0], parseIp)
    requires NormaliseZone(doc.zoneName) == zone && GoodTimes(doc)
    ensures HasNames(doc) && GoodDoc(doc, zone, parseIp)
  {
  }

  lemma {:induction false} OneHostGroupIsGood(parseIp: IpParser, ipText: string)
    requires parseIp(ipText).Some?
    ensures GoodGroup(Group(Entry(["a"], parseIp(ipText).value, 60, "node"), ipText), parseIp)
  {
    assert ByteLen("a") == 1 && ValidLabel("a");
  }

  lemma {:induction false} OneHostDocIsPrintable(meshZone: string, ip: nat, ipText: string, now: nat)
    requires ValueText(meshZone) && ValueText(ipText)
    ensures PrintableDoc(OneHostDoc(meshZone, ip, ipText, now))
  {
    assert ValueText("a") && ValueText("node");
  }

  lemma {:induction false} OneHostGrowsScope(meshZone: string, b: Bundle)
    requires IsZoneName(meshZone) && !SteadyZone(meshZone)
    requires |b.records| == 1 && b.records[0].name == MeshName("a", meshZone)
    ensures !ScopeKept(meshZone, [], b.records, MeshName("a", meshZone))
  {
    var name := MeshName("a", meshZone);
    assert ByteLen("a") == 1 && ValidLabel("a");
    MeshNameScope("a", meshZone);
    assert b.records[..0] == [];
    assert ZonesWith([], b.records) == [name];
    assert NameWithinZone(name, [name][0]);
  }

  lemma {:induction false} OneHostBundle(meshZone: string, ip: nat, ipText: string, now: nat)
    requires TrustedClock(now)
    ensures var b := BundleOf(OneHostDoc(meshZone, ip, ipText, now), meshZone);
            && |b.records| == 1 && b.records[0].name == MeshName("a", meshZone)
            && Fresh(b, 0, now)
  {
    var doc := OneHostDoc(meshZone, ip, ipText, now);
    assert DocRecords(doc, meshZone, 0) == [];
    assert DocRecords(doc, meshZone, 1) == GroupRecords(doc.groups[0].entry, meshZone);
  }

  /** Every other zone breaks the law: a one-host bundle loads, is fresh, and makes the authority
      answer for a name it did not answer for. */
  lemma {:induction false} UnsteadyZoneGrowsScope(meshZone: string, parseIp: IpParser, ipText: string, now: nat)
    requires TrustedClock(now)
    requires IsZoneName(meshZone) && !SteadyZone(meshZone) && parseIp(ipText).Some?
    ensures var doc := OneHostDoc(meshZone, parseIp(ipText).value, ipText, now);
            var b := BundleOf(doc, meshZone);
            && LoadedFrom(DocFields(doc), meshZone, parseIp, 0, now, b)
            && !ScopeKept(meshZone, [], b.records, MeshName("a", meshZone))
  {
    var doc := OneHostDoc(meshZone, parseIp(ipText).value, ipText, now);
    var b := BundleOf(doc, meshZone);
    OneHostDocIsGood(meshZone, parseIp, ipText, now);
    DocIsBuilt(doc, meshZone, parseIp, b);
    OneHostBundle(meshZone, parseIp(ipText).value, ipText, now);
    OneHostGrowsScope(meshZone, b);
  }

  /** The same as a file: under every signature that verifies, that bundle's signed file loads,
      unless the zone's name alone makes it too large. */
  lemma {:induction false} UnsteadyZoneFileLoads(meshZone: string, parseIp: IpParser, ipText: string, now: nat,
                                               verify: Verifier, sig: seq<nat>)
    requires TrustedClock(now)
    requires IsZoneName(meshZone) && !SteadyZone(meshZone) && parseIp(ipText).Some?
    requires ValueText(meshZone) && ValueText(ipText) && SignatureBytes(sig)
    ensures var doc := OneHostDoc(meshZone, parseIp(ipText).value, ipText, now);
            && HasNames(doc)
            && (verify(Payload(doc), sig) && ByteLen(SignedFile(doc, sig)) <= 262_144 ==>
                  Loads(SignedFile(doc, sig), meshZone, verify, parseIp, 0, now, BundleOf(doc, meshZone)))
  {
    var doc := OneHostDoc(meshZone, parseIp(ipText).value, ipText, now);
    OneHostDocIsGood(meshZone, parseIp, ipText, now);
    OneHostBundle(meshZone, parseIp(ipText).value, ipText, now);
    OneHostDocIsPrintable(meshZone, parseIp(ipText).value, ipText, now);
    SignedFileLoads(doc, sig, meshZone, verify, parseIp, 0, now, BundleOf(doc, meshZone));
  }

  /** Every bundle that can ever be loaded leaves the set of answered names as it is. */
  ghost predicate ScopeAlwaysKept(meshZone: string, parseIp: IpParser) {
    forall fields, maxAge, now, b, zones, name ::
      LoadedFrom(fields, meshZone, parseIp, maxAge, now, b) ==> ScopeKept(meshZone, zones, b.records, name)
  }

  lemma {:induction false} LoadedBundleKeepsScope(meshZone: string, fields: Fields, parseIp: IpParser, b: Bundle,
                                                  zones: seq<string>, name: string)
    requires IsZoneName(meshZone) && SteadyZone(meshZone) && BuiltFrom(fields, meshZone, parseIp, b)
    ensures ScopeKept(meshZone, zones, b.records, name)
  {
    OnlyNameableZonesLoad(fields, meshZone, parseIp, b);
    BuiltIsMinted(fields, meshZone, parseIp, b);
    BundleKeepsScope(meshZone, zones, b, name);
  }

  /** Exactly which mesh zones keep the set of answered names fixed. */
  lemma {:induction false} ScopeIsFixedIffZoneIsSteady(meshZone: string, parseIp: IpParser, ipText: string)
    requires IsZoneName(meshZone) && parseIp(ipText).Some?
    ensures ScopeAlwaysKept(meshZone, parseIp) <==> SteadyZone(meshZone)
  {
    if SteadyZone(meshZone) {
      forall fields, maxAge, now, b, zones, name | LoadedFrom(fields, meshZone, parseIp, maxAge, now, b)
        ensures ScopeKept(meshZone, zones, b.records, name)
      {
        LoadedBundleKeepsScope(meshZone, fields, parseIp, b, zones, name);
      }
    } else {
      UnsteadyZoneGrowsScope(meshZone, parseIp, ipText, BlockSchedule.MIN_TRUSTED_UNIX_SECS);
    }
  }

  lemma {:induction false} OneFinalDot(zone: string)
    requires zone != [] && (|zone| >= 2 ==> zone[|zone| - 2] != '.')
    ensures !EndsWith(zone, "..")
  {
    assert |zone| >= 2 ==> zone[|zone| - 2..][0] == zone[|zone| - 2];
  }

  /** A zone that configuration accepts and that is not steady because of its first character. */
  lemma {:induction false} UnsteadyByHead(zone: string)
    requires zone != [] && zone[|zone| - 1] == '.' && (|zone| >= 2 ==> zone[|zone| - 2] != '.')
    requires !IsWhitespace(zone[0]) && !HasUpper(zone) && (zone[0] == '.' || !PlainChar(zone[0]))
    ensures Normalise(zone) == zone && IsZoneName(zone) && !SteadyZone(zone)
  {
    DottedEnd(zone);
    LowerKeeps(zone);
    NormaliseOfTrimmed(zone);
    OneFinalDot(zone);
  }

  /** Two of them: the root, and a capital letter outside ASCII. */
  lemma {:induction false} UnsteadyZones()
    ensures Normalise(".") == "." && IsZoneName(".") && !SteadyZone(".")
    ensures var zone := [CAPITAL_E_ACUTE, '.'];
            Normalise(zone) == zone && IsZoneName(zone) && !SteadyZone(zone)
  {
    UnsteadyByHead(".");
    AccentIsNotPlain();
    UnsteadyByHead([CAPITAL_E_ACUTE, '.']);
  }

  lemma {:induction false} AccentIsNotPlain()
    ensures !PlainChar(CAPITAL_E_ACUTE)
  {
  }

  /** Some fields and some clock load as `b`. */
  ghost predicate Loadable(meshZone: string, parseIp: IpParser, b: Bundle) {
    exists fields, maxAge, now :: LoadedFrom(fields, meshZone, parseIp, maxAge, now, b)
  }

  /** The protocol instantiated with this authority's static state and loader. */
  ghost function EnvOf(meshZone: string, parseIp: IpParser, records: map<string, seq<DnsRecord>>, zones: seq<string>): Env {
    Env(mesh => SnapshotOf(records, zones, mesh), b => Loadable(meshZone, parseIp, b))
  }

  /** In every interleaving of reloads and reads, the authority answers for the same names in
      every state. */
  lemma {:induction false} ScopeIsFixedOverEveryRun(meshZone: string, parseIp: IpParser, records: map<string, seq<DnsRecord>>,
                                                    zones: seq<string>, states: seq<State>, steps: seq<Step>, i: nat, name: string)
    requires IsZoneName(meshZone) && SteadyZone(meshZone)
    requires IsRun(EnvOf(meshZone, parseIp, records, zones), states, steps) && i < |states|
    ensures Authoritative(meshZone, states[i].snapshot.zones, name) <==> Authoritative(meshZone, zones, name)
  {
    RunInv(EnvOf(meshZone, parseIp, records, zones), states, steps, i);
    var p := states[i].published;
    if p.Some? {
      var fields, maxAge, now :| LoadedFrom(fields, meshZone, parseIp, maxAge, now, p.value);
      LoadedBundleKeepsScope(meshZone, fields, parseIp, p.value, zones, name);
    }
  }

  // ---------------------------------------------------------------------------
  // Finding a stored record again
  // ---------------------------------------------------------------------------

  lemma {:induction false} OwnerNameForm(name: string)
    ensures IsZoneName(OwnerName(name))
  {
    OwnerIsSettled(name);
  }

  lemma {:induction false} NormaliseOfTrimmed(name: string)
    requires IsZoneName(name) && !IsWhitespace(name[0])
    ensures Normalise(name) == name
  {
    assert name[|name| - 1..][0] == '.';
    assert Trimmed(name);
    TrimOfTrimmed(name);
  }

  /** An owner name survives normalisation exactly when it has no leading white space. */
  lemma {:induction false} OwnerIsNormalIff(name: string)
    requires IsZoneName(name)
    ensures Normalise(name) == name <==> !IsWhitespace(name[0])
  {
    NormalisedHead(name);
    if !IsWhitespace(name[0]) { NormaliseOfTrimmed(name); }
  }

  predicate Headed(n: string) { n != [] && !IsWhitespace(n[0]) }

  /** Every record is stored under its owner, and every alias points to a normalised name. */
  predicate WellStored(store: map<string, seq<DnsRecord>>) {
    forall k, r :: k in store && r in store[k] ==> r.name == k && IsZoneName(k) && WellTargeted(r.data)
  }

  /** A name met by a chase from a normalised name never starts with white space. */
  lemma {:induction false} FollowedNameHead(v: View, name: string, k: nat)
    requires name != [] && !IsWhitespace(name[0])
    requires forall n :: v.alias(n).Some? ==> v.alias(n).value.target != [] && !IsWhitespace(v.alias(n).value.target[0])
    requires Follow(v, name, k).Some?
    ensures Follow(v, name, k).value != [] && !IsWhitespace(Follow(v, name, k).value[0])
  {
  }

  lemma {:induction false} ChasedRecordHead(v: View, name: string, out: seq<DnsRecord>, r: DnsRecord)
    requires name != [] && !IsWhitespace(name[0]) && Faithful(v)
    requires forall n :: v.alias(n).Some? ==> v.alias(n).value.target != [] && !IsWhitespace(v.alias(n).value.target[0])
    requires forall n, x :: x in v.terminal(n) ==> x.name == n
    requires IsChase(v, name, out) && r in out
    ensures r.name != [] && !IsWhitespace(r.name[0])
  {
    var m: nat :| StopsAfter(v, name, m, out);
    FollowedNameHead(v, name, m);
    var links := Links(v, name, m);
    if r in links {
      var i :| 0 <= i < m && links[i] == r;
      LinkLinks(v, name, i, m);
      FollowedNameHead(v, name, i);
    }
  }

  lemma {:induction false} ViewOfWellStored(meshZone: string, snap: Snapshot, rtype: string, n: string)
    requires WellStored(snap.records)
    ensures var v := ViewOf(meshZone, snap, rtype);
            && (v.alias(n).Some? ==>
                  && v.alias(n).value.record.name == n
                  && v.alias(n).value.record.data == Cname(v.alias(n).value.target)
                  && v.alias(n).value.target != [] && !IsWhitespace(v.alias(n).value.target[0]))
            && forall x :: x in v.terminal(n) ==> x.name == n
  {
  }

  lemma {:induction false} ChaseInStoreHead(meshZone: string, snap: Snapshot, name: string, rtype: string, out: seq<DnsRecord>, r: DnsRecord)
    requires WellStored(snap.records) && name != [] && !IsWhitespace(name[0])
    requires IsChase(ViewOf(meshZone, snap, rtype), name, out) && r in out
    ensures r.name != [] && !IsWhitespace(r.name[0])
  {
    var v := ViewOf(meshZone, snap, rtype);
    forall n
      ensures v.alias(n).Some? ==>
                && v.alias(n).value.record.name == n
                && v.alias(n).value.record.data == Cname(v.alias(n).value.target)
                && v.alias(n).value.target != [] && !IsWhitespace(v.alias(n).value.target[0])
      ensures forall x :: x in v.terminal(n) ==> x.name == n
    {
      ViewOfWellStored(meshZone, snap, rtype, n);
    }
    ChasedRecordHead(v, name, out, r);
  }

  lemma {:induction false} DirectOwner(snap: Snapshot, name: string, rtype: string)
    requires KeyedByOwner(snap.records)
    ensures forall x :: x in Direct(snap, name, rtype) ==> x.name == name
  {
  }

  lemma {:induction false} AnsweredRecordHead(meshZone: string, snap: Snapshot, name: string, rtype: string,
                           out: seq<DnsRecord>, r: DnsRecord)
    requires WellStored(snap.records) && name != [] && !IsWhitespace(name[0])
    requires IsAnswer(meshZone, snap, name, rtype, Some(out)) && r in out
    ensures r.name != [] && !IsWhitespace(r.name[0])
  {
    StoreIsKeyed(snap.records);
    DirectOwner(snap, name, rtype);
    if out != Direct(snap, name, rtype) { ChaseInStoreHead(meshZone, snap, name, rtype, out, r); }
  }

  lemma {:induction false} DirectAnswer(meshZone: string, snap: Snapshot, name: string, rtype: string, out: seq<DnsRecord>, r: DnsRecord)
    requires IsAnswer(meshZone, snap, name, rtype, Some(out))
    requires rtype != "ANY" && r in OfType(At(snap.records, name), rtype)
    ensures out == OfType(At(snap.records, name), rtype)
  {
  }

  lemma {:induction false} TypeNameIsNotAny(d: RecordData)
    ensures TypeName(d) != "ANY"
  {
  }

  /** A stored record whose owner starts with white space is returned by no query at all,
      because no normalised key starts that way (NormalisedHead). */
  lemma {:induction false} UntrimmedRecordIsUnreachable(meshZone: string, snap: Snapshot, r: DnsRecord,
                                                        key: string, rtype: string, out: seq<DnsRecord>)
    requires WellStored(snap.records) && r.name != [] && IsWhitespace(r.name[0])
    requires key != [] && !IsWhitespace(key[0])
    requires IsAnswer(meshZone, snap, key, rtype, Some(out))
    ensures r !in out
  {
    if r in out { AnsweredRecordHead(meshZone, snap, key, rtype, out, r); }
  }

  /** The query type of a record's own type. */
  lemma {:induction false} TypeNameIsKept(d: RecordData)
    ensures Upper(Trim(TypeName(d))) == TypeName(d)
  {
    TrimOfTrimmed(TypeName(d));
    assert Upper(TypeName(d)) == TypeName(d);
  }

  /** A stored record in scope is found by its own stored name and type if and only if that
      name does not start with white space. */
  lemma {:induction false} StoredRecordIsFoundIff(meshZone: string, snap: Snapshot, r: DnsRecord, out: Option<seq<DnsRecord>>)
    requires WellStored(snap.records) && r in At(snap.records, r.name) && Authoritative(meshZone, snap.zones, r.name)
    requires IsAnswer(meshZone, snap, Normalise(r.name), TypeName(r.data), out)
    ensures out.Some? && r in out.value <==> Headed(r.name)
  {
    OwnerIsNormalIff(r.name);
    NormalisedHead(r.name);
    if !IsWhitespace(r.name[0]) {
      TypeNameIsNotAny(r.data);
      DirectAnswer(meshZone, snap, r.name, TypeName(r.data), out.value, r);
    } else if out.Some? {
      UntrimmedRecordIsUnreachable(meshZone, snap, r, Normalise(r.name), TypeName(r.data), out.value);
    }
  }

  // ---------------------------------------------------------------------------
  // Every configured record
  // ---------------------------------------------------------------------------

  lemma {:induction false} ConvertedRecordForm(sr: StaticRecord)
    requires Convert(sr).Ok?
    ensures IsZoneName(Convert(sr).value.name)
    ensures WellTargeted(Convert(sr).value.data)
  {
    OwnerNameForm(sr.name);
  }

  lemma {:induction false} ConvertedAt(config: seq<StaticRecord>, meshZone: string, declared: set<string>, r: DnsRecord)
    requires AllAdmissible(config, meshZone, declared)
    requires r in Converted(config, meshZone, declared)
    ensures exists i :: 0 <= i < |config| && Convert(config[i]) == Ok(r)
  {
    if r in Converted(config[..|config| - 1], meshZone, declared) {
      ConvertedAt(config[..|config| - 1], meshZone, declared, r);
    }
  }

  /** A record as every store keeps it. */
  predicate GoodRecord(k: string, r: DnsRecord) { r.name == k && IsZoneName(k) && WellTargeted(r.data) }

  const GOOD: RecordLaw := (k, r) => GoodRecord(k, r)

  lemma {:induction false} ObeyingIsWellStored(store: map<string, seq<DnsRecord>>)
    ensures Obeys(store, GOOD) <==> WellStored(store)
  {
    forall k: string, r: DnsRecord ensures GOOD(k, r) <==> GoodRecord(k, r) { }
  }

  lemma {:induction false} ConvertedIsGood(config: seq<StaticRecord>, meshZone: string, declared: set<string>, r: DnsRecord)
    requires AllAdmissible(config, meshZone, declared) && r in Converted(config, meshZone, declared)
    ensures GOOD(r.name, r)
  {
    ConvertedAt(config, meshZone, declared, r);
    var i :| 0 <= i < |config| && Convert(config[i]) == Ok(r);
    ConvertedRecordForm(config[i]);
  }

  lemma {:induction false} StaticStoreIsWellStored(config: seq<StaticRecord>, meshZone: string, declared: set<string>,
                                store: map<string, seq<DnsRecord>>)
    requires AllAdmissible(config, meshZone, declared)
    requires Groups(store, Converted(config, meshZone, declared))
    ensures WellStored(store) && KeyedByOwner(store)
  {
    forall r | r in Converted(config, meshZone, declared) ensures GOOD(r.name, r) {
      ConvertedIsGood(config, meshZone, declared, r);
    }
    GroupsObey(store, Converted(config, meshZone, declared), GOOD);
    ObeyingIsWellStored(store);
  }

  lemma {:induction false} MeshNameForm(host: string, zone: string)
    ensures IsZoneName(MeshName(host, zone))
  {
    OwnerNameForm(host + MeshZoneDotted(zone));
  }

  lemma {:induction false} MintedRecordForm(b: Bundle, meshZone: string, r: DnsRecord)
    requires MintedFor(b, meshZone) && r in b.records
    ensures IsZoneName(r.name) && WellTargeted(r.data)
  {
    var j :| 0 <= j < |b.records| && b.records[j] == r;
    var n :| ValidLabel(n) && b.records[j].name == MeshName(n, meshZone);
    MeshNameForm(n, meshZone);
  }

  lemma {:induction false} MergedStoreIsWellStored(store: map<string, seq<DnsRecord>>, rs: seq<DnsRecord>)
    requires WellStored(store) && forall r :: r in rs ==> IsZoneName(r.name) && WellTargeted(r.data)
    ensures WellStored(MergeStore(store, rs))
  {
    ObeyingIsWellStored(store);
    StoreIsKeyed(store);
    forall r | r in rs ensures GOOD(r.name, r) { }
    MergedObeys(store, rs, GOOD);
    ObeyingIsWellStored(MergeStore(store, rs));
  }

  lemma {:induction false} StoreIsKeyed(store: map<string, seq<DnsRecord>>)
    requires WellStored(store)
    ensures KeyedByOwner(store)
  {
  }

  /** Every record of an admissible configuration and every record of the bundle is in scope,
      so a lookup of its name always gets an answer. */
  lemma {:induction false} EveryRecordIsInScope(config: seq<StaticRecord>, meshZone: string, declared: set<string>,
                             zones: seq<string>, rs: seq<DnsRecord>, r: DnsRecord)
    requires AllAdmissible(config, meshZone, declared)
    requires Apexes(config, meshZone, declared) <= Members(zones)
    requires r in Converted(config, meshZone, declared) || r in rs
    ensures Authoritative(meshZone, ZonesWith(zones, rs), r.name)
  {
    AuthoritativeByMembers(meshZone, ZonesWith(zones, rs), r.name);
    ZonesWithMembers(zones, rs);
    if r in rs {
      assert r.name in Owners(rs) && NameWithinZone(r.name, r.name);
    } else {
      ConvertedAt(config, meshZone, declared, r);
      var i :| 0 <= i < |config| && Convert(config[i]) == Ok(r);
      var apex := Apex(config[i], meshZone, declared);
      assert apex in Apexes(config, meshZone, declared);
      ConvertedRecordForm(config[i]);
      ApexIsParent(r.name, meshZone, declared);
      NameWithinZoneIsLabelSuffix(r.name, apex);
    }
  }
}
