/** From the fields of a verified mesh bundle to the records it contributes. */
module MeshBundle {
  import opened Names
  import opened Spelling
  import opened Text
  import opened Casing
  import opened Records
  import opened ZoneStore
  import opened MeshWire
  import BlockSchedule

  const MAX_BUNDLE_BYTES: nat := 262_144
  const MAX_BUNDLE_RECORDS: nat := 100_000
  const U64_MAX: nat := 0xffff_ffff_ffff_ffff

  type Fields = map<string, string>

  /** Parsing of dotted-quad text, which this model leaves open. */
  type IpParser = string -> Option<nat>

  // ---------------------------------------------------------------------------
  // Numbers and labels
  // ---------------------------------------------------------------------------

  function ParseU64(s: string): Option<nat> { ParseUnsigned(s, U64_MAX) }

  predicate ValidLabel(s: string) {
    s != [] && ByteLen(s) <= 63 && IsAscii(s) && Free(s, '.')
  }

  /** One to 63 ASCII characters, none of them a dot. */
  lemma {:induction false} LabelIsValidIff(s: string)
    ensures ValidLabel(s) <==> 1 <= |s| <= 63 && forall i :: 0 <= i < |s| ==> s[i] as int < 128 && s[i] != '.'
  {
    if IsAscii(s) { ByteLenOfAscii(s); }
  }

  function MeshZoneDotted(zone: string): string {
    if zone == [] then "." else if zone[0] == '.' then zone else "." + zone
  }

  /** The zone name of a bundle in the form of a normalised `mesh_zone`. */
  function NormaliseZone(value: string): string { Lower(TrimDots(Trim(value))) + "." }

  /** The stored owner name of a mesh label. */
  function MeshName(host: string, zone: string): string { OwnerName(host + MeshZoneDotted(zone)) }

  /** A normalised mesh zone. */
  predicate IsZoneName(zone: string) { Lower(zone) == zone && EndsWith(zone, ".") }

  lemma {:induction false} MeshNameText(host: string, zone: string)
    requires IsZoneName(zone) && ValidLabel(host) && PlainCase(zone)
    ensures MeshName(host, zone) == Lower(host) + MeshZoneDotted(zone)
  {
    var dotted := MeshZoneDotted(zone);
    PlainAppend(".", zone);
    AsciiIsPlainCase(host);
    PlainAppend(host, dotted);
    LoweringsAgreeIff(host + dotted);
    LowerAppend(host, dotted);
    DottedZoneIsLower(zone);
    DottedEnd(dotted);
    DottedEnd(host + dotted);
    OwnerNameText(host + dotted);
  }

  lemma {:induction false} DottedZoneIsLower(zone: string)
    requires IsZoneName(zone)
    ensures Lower(MeshZoneDotted(zone)) == MeshZoneDotted(zone) && EndsWith(MeshZoneDotted(zone), ".")
  {
    LowerAppend(".", zone);
    DottedEnd(zone);
    DottedEnd(MeshZoneDotted(zone));
  }

  lemma {:induction false} WithinMembers(name: string, zone: string)
    requires NameWithinZone(name, zone)
    ensures forall i :: 0 <= i < |zone| ==> zone[i] in name
  {
    if name != zone {
      var k := |name| - |zone|;
      forall i | 0 <= i < |zone| ensures zone[i] in name { assert name[k..][i] == name[k + i]; }
    }
  }

  /** A stored name lies only in zones that full lowercasing leaves alone. */
  lemma {:induction false} OwnerZoneIsPlain(name: string, zone: string)
    requires NameWithinZone(OwnerName(name), zone)
    ensures PlainCase(zone)
  {
    OwnerIsSettled(name);
    WithinMembers(OwnerName(name), zone);
  }

  /** A bundle name is one label below the mesh zone exactly when the configured zone does not
      start with a dot and full lowercasing leaves it alone.  Zones such as `.lan.`, the root and
      one with an accented capital pass configuration checks, but the names minted for them
      fall outside. */
  lemma {:induction false} MeshNameScope(host: string, zone: string)
    requires IsZoneName(zone) && ValidLabel(host)
    ensures NameWithinZone(MeshName(host, zone), zone) <==> zone[0] != '.' && PlainCase(zone)
    ensures zone[0] != '.' && PlainCase(zone) ==> Labels(MeshName(host, zone)) == [Lower(host)] + Labels(zone)
  {
    if NameWithinZone(MeshName(host, zone), zone) { OwnerZoneIsPlain(host + MeshZoneDotted(zone), zone); }
    if PlainCase(zone) {
      MeshNameText(host, zone);
      LowerLabel(host);
      if zone[0] != '.' {
        OneLabelBelow(Lower(host), zone);
      } else {
        GluedLabelIsOutside(Lower(host), zone);
      }
    }
  }

  lemma {:induction false} LowerLabel(host: string)
    requires Free(host, '.')
    ensures Free(Lower(host), '.')
  {
  }

  lemma {:induction false} OneLabelBelow(l: string, zone: string)
    requires Free(l, '.')
    ensures NameWithinZone(l + ("." + zone), zone)
    ensures Labels(l + ("." + zone)) == [l] + Labels(zone)
  {
    var name := l + ("." + zone);
    assert name == l + ['.'] + zone;
    SplitAppend(l, '.', zone);
    SplitOfFree(l, '.');
    assert name[|name| - |zone|..] == zone && name[|name| - |zone| - 1] == '.';
  }

  lemma {:induction false} GluedLabelIsOutside(l: string, zone: string)
    requires l != [] && Free(l, '.')
    ensures !NameWithinZone(l + zone, zone)
  {
    var name := l + zone;
    assert name[|name| - |zone| - 1] == l[|l| - 1];
  }

  // ---------------------------------------------------------------------------
  // One record group
  // ---------------------------------------------------------------------------

  /** The parsed fields of one `record.N`: every name it publishes, and what they map to. */
  datatype Entry = Entry(names: seq<string>, ip: nat, ttl: nat, node: string)

  function CleanPieces(ps: seq<string>): seq<string> {
    if ps == [] then []
    else
      var p := Trim(ps[0]);
      (if p == [] then [] else [p]) + CleanPieces(ps[1..])
  }

  /** The aliases of a comma-separated list. */
  function Aliases(text: string): seq<string> { CleanPieces(Split(text, ',')) }

  /** The fields of one record group. */
  datatype GroupField = HostLabel | RrType | AddrKind | ExpectedIp | TtlSecs | NodeId | AliasList

  function Suffix(field: GroupField): string {
    match field
    case HostLabel => "label"
    case RrType => "rr_type"
    case AddrKind => "target_addr_kind"
    case ExpectedIp => "expected_ip"
    case TtlSecs => "ttl_secs"
    case NodeId => "target_node_id"
    case AliasList => "aliases"
  }

  function FieldName(i: nat, field: GroupField): string { "record." + Decimal(i) + "." + Suffix(field) }

  type GroupReader = GroupField -> Option<string>
  type FieldError = GroupField -> MeshError

  function Expect(get: GroupReader, bad: FieldError, field: GroupField): Result<string, MeshError> {
    if get(field).None? then Err(bad(field)) else Ok(get(field).value)
  }

  /** How the texts of a group are decoded. */
  datatype Decoders = Decoders(ip: IpParser, ttl: string -> Option<nat>, aliases: string -> seq<string>, valid: string -> bool)

  function Standard(parseIp: IpParser): Decoders {
    Decoders(parseIp, s => ParseU64(s), s => Aliases(s), s => ValidLabel(s))
  }

  /** A group without the alias field has no aliases. */
  function AliasField(get: GroupReader): string { if get(AliasList).Some? then get(AliasList).value else "" }

  /** The checks of `build_record`, in the source's order. */
  function ReadGroup(get: GroupReader, bad: FieldError, d: Decoders): (out: Result<Entry, MeshError>)
    ensures out.Ok? ==> |out.value.names| >= 1 && forall n :: n in out.value.names ==> d.valid(n)
  {
    var host :- Expect(get, bad, HostLabel);
    if !d.valid(host) then Err(bad(HostLabel)) else
    var rrType :- Expect(get, bad, RrType);
    var kind :- Expect(get, bad, AddrKind);
    var ipText :- Expect(get, bad, ExpectedIp);
    var ttlText :- Expect(get, bad, TtlSecs);
    var node :- Expect(get, bad, NodeId);
    var aliases := d.aliases(AliasField(get));
    if rrType != "A" then Err(bad(RrType)) else
    if kind != "mesh_ipv4" then Err(bad(AddrKind)) else
    var ip := d.ip(ipText);
    if ip.None? then Err(bad(ExpectedIp)) else
    var ttl := d.ttl(ttlText);
    if ttl.None? then Err(bad(TtlSecs)) else
    if exists a :: a in aliases && !d.valid(a) then Err(bad(AliasList)) else
    Ok(Entry([host] + aliases, ip.value, ttl.value, node))
  }

  function Lookup(fields: Fields, i: nat, field: GroupField): Option<string> {
    var name := FieldName(i, field);
    if name in fields then Some(fields[name]) else None
  }

  function GroupOf(fields: Fields, i: nat): GroupReader { field => Lookup(fields, i, field) }

  function GroupErrors(i: nat): FieldError { field => InvalidField(FieldName(i, field)) }

  function ReadEntry(fields: Fields, parseIp: IpParser, i: nat): (out: Result<Entry, MeshError>)
    ensures out.Ok? ==> && |out.value.names| >= 1
                        && forall n :: n in out.value.names ==> ValidLabel(n)
  {
    ReadGroup(GroupOf(fields, i), GroupErrors(i), Standard(parseIp))
  }

  lemma {:induction false} CleanPiecesKeep(ps: seq<string>)
    requires forall i :: 0 <= i < |ps| ==> ps[i] != [] && Trimmed(ps[i])
    ensures CleanPieces(ps) == ps
  {
    if ps != [] {
      CleanPiecesKeep(ps[1..]);
      TrimOfTrimmed(ps[0]);
      assert ps == [ps[0]] + ps[1..];
    }
  }

  /** `cores` are the pieces without the white space around them. */
  ghost predicate AreCores(ps: seq<string>, cores: seq<string>) {
    |ps| == |cores| && forall i :: 0 <= i < |ps| ==> TrimsTo(ps[i], cores[i])
  }

  function NonEmpty(cores: seq<string>): seq<string> {
    if cores == [] then [] else (if cores[0] == [] then [] else [cores[0]]) + NonEmpty(cores[1..])
  }

  /** White space around the pieces of an alias list does not matter, and empty pieces vanish. */
  lemma {:induction false} PiecesAreTrimmed(ps: seq<string>, cores: seq<string>)
    requires AreCores(ps, cores)
    ensures CleanPieces(ps) == NonEmpty(cores)
  {
    if ps != [] {
      TrimsToIff(ps[0], cores[0]);
      PiecesAreTrimmed(ps[1..], cores[1..]);
    }
  }

  /** The alias text of a record group. */
  function AliasText(aliases: seq<string>): string { if aliases == [] then "" else Join(aliases, ',') }

  lemma {:induction false} AliasesInvertText(aliases: seq<string>)
    requires forall i :: 0 <= i < |aliases| ==> aliases[i] != [] && Trimmed(aliases[i]) && Free(aliases[i], ',')
    ensures Aliases(AliasText(aliases)) == aliases
  {
    if aliases == [] {
      assert Split("", ',') == [""];
      TrimOfTrimmed("");
      assert CleanPieces([""][1..]) == [];
    } else {
      SplitJoin(aliases, ',');
      CleanPiecesKeep(aliases);
    }
  }

  /** The fields of a group as the bundle format writes them. */
  predicate PrintsEntry(get: GroupReader, e: Entry, ipText: string) {
    && e.names != []
    && get(HostLabel) == Some(e.names[0])
    && get(RrType) == Some("A")
    && get(AddrKind) == Some("mesh_ipv4")
    && get(ExpectedIp) == Some(ipText)
    && get(TtlSecs) == Some(Decimal(e.ttl))
    && get(NodeId) == Some(e.node)
    && get(AliasList) == Some(AliasText(e.names[1..]))
  }

  /** A group is read as `e` exactly when its fields decode, one by one, to the parts of `e`. */
  lemma {:induction false} GroupIsReadIff(get: GroupReader, bad: FieldError, d: Decoders, e: Entry)
    ensures ReadGroup(get, bad, d) == Ok(e) <==>
              && e.names != [] && get(HostLabel) == Some(e.names[0]) && get(NodeId) == Some(e.node)
              && get(RrType) == Some("A") && get(AddrKind) == Some("mesh_ipv4")
              && get(ExpectedIp).Some? && d.ip(get(ExpectedIp).value) == Some(e.ip)
              && get(TtlSecs).Some? && d.ttl(get(TtlSecs).value) == Some(e.ttl)
              && d.aliases(AliasField(get)) == e.names[1..]
              && forall n :: n in e.names ==> d.valid(n)
  {
    var aliases := d.aliases(AliasField(get));
    if e.names != [] { assert [e.names[0]] + e.names[1..] == e.names; }
    if get(HostLabel).Some? { assert ([get(HostLabel).value] + aliases)[1..] == aliases; }
  }

  /** Reading a printed group gives back its names, address, lifetime and node. */
  lemma {:induction false} ReadInvertsPrint(fields: Fields, parseIp: IpParser, i: nat, e: Entry, ipText: string)
    requires PrintsEntry(GroupOf(fields, i), e, ipText) && parseIp(ipText) == Some(e.ip)
    requires e.ttl <= U64_MAX
    requires forall k :: 0 <= k < |e.names| ==> ValidLabel(e.names[k])
    requires forall k :: 1 <= k < |e.names| ==> Trimmed(e.names[k]) && Free(e.names[k], ',')
    ensures ReadEntry(fields, parseIp, i) == Ok(e)
  {
    var rest := e.names[1..];
    DecimalParses(e.ttl, U64_MAX);
    forall k | 0 <= k < |rest|
      ensures rest[k] != [] && Trimmed(rest[k]) && Free(rest[k], ',')
    {
      assert rest[k] == e.names[k + 1];
    }
    AliasesInvertText(rest);
    GroupIsReadIff(GroupOf(fields, i), GroupErrors(i), Standard(parseIp), e);
  }

  predicate IsRecordOf(r: DnsRecord, e: Entry, zone: string, name: string) {
    r == DnsRecord(MeshName(name, zone), A(e.ip), e.ttl, Some(e.node))
  }

  /** The records of one group: one per name, in order. */
  method BuildRecords(e: Entry, zone: string) returns (out: seq<DnsRecord>)
    ensures |out| == |e.names|
    ensures forall j :: 0 <= j < |out| ==> IsRecordOf(out[j], e, zone, e.names[j])
  {
    out := [];
    for j := 0 to |e.names|
      invariant |out| == j
      invariant forall k :: 0 <= k < j ==> IsRecordOf(out[k], e, zone, e.names[k])
    {
      var fqdn := e.names[j] + MeshZoneDotted(zone);
      var r := NewRecord(fqdn, A(e.ip), e.ttl).(meshNode := Some(e.node));
      assert IsRecordOf(r, e, zone, e.names[j]);
      out := out + [r];
    }
  }

  // ---------------------------------------------------------------------------
  // The whole bundle
  // ---------------------------------------------------------------------------

  datatype Header = Header(generatedAt: nat, expiresAt: nat, nonce: nat, count: nat)

  datatype HeaderField = Version | ZoneName | GeneratedAt | ExpiresAt | Nonce | RecordCount

  function HeaderName(field: HeaderField): string {
    match field
    case Version => "version"
    case ZoneName => "zone_name"
    case GeneratedAt => "generated_at_unix"
    case ExpiresAt => "expires_at_unix"
    case Nonce => "nonce"
    case RecordCount => "record_count"
  }

  /** The header's fields and how their texts are decoded. */
  datatype HeaderReader = HeaderReader(get: HeaderField -> Option<string>, number: string -> Option<nat>, zone: string -> string)
  {
    function Text(field: HeaderField): Result<string, MeshError> {
      if get(field).None? then Err(MissingField(HeaderName(field))) else Ok(get(field).value)
    }

    function Number(field: HeaderField): Result<nat, MeshError> {
      var text :- Text(field);
      if number(text).None? then Err(InvalidField(HeaderName(field))) else Ok(number(text).value)
    }

    predicate Says(field: HeaderField, n: nat) { get(field).Some? && number(get(field).value) == Some(n) }
  }

  /** The checks of `build_loaded_bundle` before its loop, in the source's order. */
  function ReadHeaderWith(r: HeaderReader, zone: string): Result<Header, MeshError> {
    var version :- r.Text(Version);
    if version != "1" then Err(InvalidField(HeaderName(Version))) else
    var zoneName :- r.Text(ZoneName);
    if r.zone(zoneName) != zone then Err(ZoneMismatch) else
    var generatedAt :- r.Number(GeneratedAt);
    var expiresAt :- r.Number(ExpiresAt);
    if generatedAt >= expiresAt then Err(InvalidField(HeaderName(ExpiresAt))) else
    var nonce :- r.Number(Nonce);
    var count :- r.Number(RecordCount);
    if count > MAX_BUNDLE_RECORDS then Err(InvalidField(HeaderName(RecordCount))) else
    Ok(Header(generatedAt, expiresAt, nonce, count))
  }

  /** A header is read as `h` exactly when its six fields say so, for this zone, with a
      lifetime that is not empty and a bounded record count. */
  lemma {:induction false} HeaderIsReadIff(r: HeaderReader, zone: string, h: Header)
    ensures ReadHeaderWith(r, zone) == Ok(h) <==>
              && r.get(Version) == Some("1") && r.get(ZoneName).Some? && r.zone(r.get(ZoneName).value) == zone
              && r.Says(GeneratedAt, h.generatedAt) && r.Says(ExpiresAt, h.expiresAt)
              && r.Says(Nonce, h.nonce) && r.Says(RecordCount, h.count)
              && h.generatedAt < h.expiresAt && h.count <= 100_000
  {
    var out := ReadHeaderWith(r, zone);
    if out.Ok? {
      assert out.value == Header(r.Number(GeneratedAt).value, r.Number(ExpiresAt).value,
                                 r.Number(Nonce).value, r.Number(RecordCount).value);
    }
  }

  function HeaderOf(fields: Fields): HeaderReader {
    HeaderReader(field => if HeaderName(field) in fields then Some(fields[HeaderName(field)]) else None,
                 text => ParseU64(text), text => NormaliseZone(text))
  }

  function ReadHeader(fields: Fields, zone: string): Result<Header, MeshError> { ReadHeaderWith(HeaderOf(fields), zone) }

  type EntryReader = nat -> Result<Entry, MeshError>

  /** `records` are the records of groups `0..count`, group after group. */
  ghost predicate Concatenates(read: EntryReader, zone: string, count: nat, records: seq<DnsRecord>) {
    if count == 0 then records == []
    else
      && read(count - 1).Ok?
      && var e := read(count - 1).value;
         var split := |records| - |e.names|;
      && split >= 0
      && Concatenates(read, zone, count - 1, records[..split])
      && forall j :: 0 <= j < |e.names| ==> IsRecordOf(records[split + j], e, zone, e.names[j])
  }

  ghost predicate Published(read: EntryReader, zone: string, i: nat, n: string, r: DnsRecord) {
    read(i).Ok? && n in read(i).value.names && IsRecordOf(r, read(i).value, zone, n)
  }

  /** Every record of the bundle publishes a name of one of its groups. */
  lemma {:induction false} RecordsComeFromEntries(read: EntryReader, zone: string, count: nat, records: seq<DnsRecord>, k: nat)
    requires Concatenates(read, zone, count, records) && k < |records|
    ensures exists i, n :: 0 <= i < count && Published(read, zone, i, n, records[k])
  {
    var e := read(count - 1).value;
    var split := |records| - |e.names|;
    if k < split {
      RecordsComeFromEntries(read, zone, count - 1, records[..split], k);
    } else {
      assert IsRecordOf(records[split + (k - split)], e, zone, e.names[k - split]);
      assert Published(read, zone, count - 1, e.names[k - split], records[k]);
    }
  }

  /** Every name of every group is published. */
  lemma {:induction false} EntriesArePublished(read: EntryReader, zone: string, count: nat, records: seq<DnsRecord>, i: nat, j: nat)
    requires Concatenates(read, zone, count, records) && i < count
    requires read(i).Ok? && j < |read(i).value.names|
    ensures exists r :: r in records && IsRecordOf(r, read(i).value, zone, read(i).value.names[j])
  {
    var split := |records| - |read(count - 1).value.names|;
    if i < count - 1 {
      EntriesArePublished(read, zone, count - 1, records[..split], i, j);
    } else {
      assert records[split + j] in records;
    }
  }

  /** All the groups were readable, and they determine the records. */
  lemma {:induction false} ConcatenatesUnique(read: EntryReader, zone: string, count: nat, a: seq<DnsRecord>, b: seq<DnsRecord>)
    requires Concatenates(read, zone, count, a)
    ensures forall i :: 0 <= i < count ==> read(i).Ok?
    ensures Concatenates(read, zone, count, b) ==> a == b
  {
    if count > 0 {
      var e := read(count - 1).value;
      var n := |e.names|;
      var front := a[..|a| - n];
      ConcatenatesUnique(read, zone, count - 1, front, if |b| >= n then b[..|b| - n] else []);
      if Concatenates(read, zone, count, b) {
        assert front == b[..|b| - n];
        forall k | |front| <= k < |a| ensures a[k] == b[k] {
          var j := k - |front|;
          assert IsRecordOf(a[|front| + j], e, zone, e.names[j]) && IsRecordOf(b[|front| + j], e, zone, e.names[j]);
        }
        assert forall k :: 0 <= k < |front| ==> a[k] == front[k] && b[k] == front[k];
      }
    }
  }

  lemma {:induction false} ConcatenatesSnoc(read: EntryReader, zone: string, count: nat, records: seq<DnsRecord>, more: seq<DnsRecord>)
    requires Concatenates(read, zone, count, records) && read(count).Ok? && |more| == |read(count).value.names|
    requires forall j :: 0 <= j < |more| ==> IsRecordOf(more[j], read(count).value, zone, read(count).value.names[j])
    ensures Concatenates(read, zone, count + 1, records + more)
  {
    AppendParts(records, more);
  }

  lemma {:induction false} AppendParts<T>(a: seq<T>, b: seq<T>)
    ensures (a + b)[..|a + b| - |b|] == a && |a + b| == |a| + |b|
    ensures forall j :: 0 <= j < |b| ==> (a + b)[|a| + j] == b[j]
  {
  }

  /** The loop of `build_loaded_bundle`. */
  method BuildAll(read: EntryReader, zone: string, count: nat) returns (out: Result<seq<DnsRecord>, MeshError>)
    ensures out.Ok? <==> forall i :: 0 <= i < count ==> read(i).Ok?
    ensures out.Ok? ==> Concatenates(read, zone, count, out.value)
  {
    var records: seq<DnsRecord> := [];
    for i := 0 to count
      invariant forall k :: 0 <= k < i ==> read(k).Ok?
      invariant Concatenates(read, zone, i, records)
    {
      var e := read(i);
      if e.Err? { return Err(e.error); }
      var more := BuildRecords(e.value, zone);
      ConcatenatesSnoc(read, zone, i, records, more);
      records := records + more;
    }
    return Ok(records);
  }

  /** Every record of the bundle is a tagged A record one valid label under the zone. */
  ghost predicate MintedFor(b: Bundle, zone: string) {
    forall k :: 0 <= k < |b.records| ==>
      && b.records[k].data.A? && b.records[k].meshNode.Some?
      && exists n :: ValidLabel(n) && b.records[k].name == MeshName(n, zone)
  }

  lemma {:induction false} ConcatenationIsMinted(read: EntryReader, zone: string, count: nat, b: Bundle)
    requires Concatenates(read, zone, count, b.records)
    requires forall i :: read(i).Ok? ==> forall n :: n in read(i).value.names ==> ValidLabel(n)
    ensures MintedFor(b, zone)
  {
    forall k | 0 <= k < |b.records|
      ensures && b.records[k].data.A? && b.records[k].meshNode.Some?
              && exists n :: ValidLabel(n) && b.records[k].name == MeshName(n, zone)
    {
      RecordsComeFromEntries(read, zone, count, b.records, k);
      var i, n :| 0 <= i < count && Published(read, zone, i, n, b.records[k]);
      assert ValidLabel(n) && b.records[k].name == MeshName(n, zone);
    }
  }

  /** The groups of a payload, one by one. */
  function GroupsIn(fields: Fields, parseIp: IpParser): EntryReader { (i: nat) => ReadEntry(fields, parseIp, i) }

  /** `b` carries the header's times and nonce and the announced groups' records, in order. */
  ghost predicate BuiltFrom(fields: Fields, zone: string, parseIp: IpParser, b: Bundle) {
    && ReadHeader(fields, zone).Ok?
    && var h := ReadHeader(fields, zone).value;
    && b.generatedAt == h.generatedAt && b.expiresAt == h.expiresAt && b.nonce == h.nonce
    && Concatenates(GroupsIn(fields, parseIp), zone, h.count, b.records)
  }

  lemma {:induction false} BuiltUnique(fields: Fields, zone: string, parseIp: IpParser, a: Bundle, b: Bundle)
    requires BuiltFrom(fields, zone, parseIp, a) && BuiltFrom(fields, zone, parseIp, b)
    ensures a == b
  {
    ConcatenatesUnique(GroupsIn(fields, parseIp), zone, ReadHeader(fields, zone).value.count, a.records, b.records);
  }

  lemma {:induction false} BuiltIsMinted(fields: Fields, zone: string, parseIp: IpParser, b: Bundle)
    requires BuiltFrom(fields, zone, parseIp, b)
    ensures MintedFor(b, zone)
  {
    ConcatenationIsMinted(GroupsIn(fields, parseIp), zone, ReadHeader(fields, zone).value.count, b);
  }

  /** `build_loaded_bundle`: it succeeds exactly when the header and every announced group
      are readable, and then publishes those groups in order. */
  method BuildLoadedBundle(fields: Fields, zone: string, parseIp: IpParser) returns (out: Result<Bundle, MeshError>)
    ensures out.Ok? ==> BuiltFrom(fields, zone, parseIp, out.value) && MintedFor(out.value, zone)
    ensures out.Err? ==> ReadHeader(fields, zone).Err?
                         || exists i :: 0 <= i < ReadHeader(fields, zone).value.count && ReadEntry(fields, parseIp, i).Err?
    ensures out.Err? ==> forall b :: !BuiltFrom(fields, zone, parseIp, b)
  {
    var read := GroupsIn(fields, parseIp);
    var header := ReadHeader(fields, zone);
    if header.Err? { return Err(header.error); }
    var h := header.value;
    var records := BuildAll(read, zone, h.count);
    if records.Err? {
      forall b | BuiltFrom(fields, zone, parseIp, b) ensures false {
        ConcatenatesUnique(read, zone, h.count, b.records, b.records);
      }
      return Err(records.error);
    }
    var b := Bundle(records.value, h.generatedAt, h.expiresAt, h.nonce);
    BuiltIsMinted(fields, zone, parseIp, b);
    return Ok(b);
  }

  // ---------------------------------------------------------------------------
  // Freshness
  // ---------------------------------------------------------------------------

  function SaturatingAdd(a: nat, b: nat): nat { if a + b > U64_MAX then U64_MAX else a + b }

  /** `enforce_freshness_at`. */
  predicate Fresh(b: Bundle, maxAge: nat, now: nat) {
    && now >= BlockSchedule.MIN_TRUSTED_UNIX_SECS
    && now < b.expiresAt
    && !(maxAge > 0 && now > SaturatingAdd(b.generatedAt, maxAge))
  }

  /** On every 64-bit clock the saturating comparison is the exact one, and a bundle that
      ceases to be fresh under a trusted clock never becomes fresh again. */
  lemma {:induction false} FreshnessIsExactAndMonotone(b: Bundle, maxAge: nat, now: nat, later: nat)
    requires now <= later <= U64_MAX
    ensures Fresh(b, maxAge, now)
       <==> BlockSchedule.MIN_TRUSTED_UNIX_SECS <= now < b.expiresAt && (maxAge == 0 || now <= b.generatedAt + maxAge)
    ensures now >= BlockSchedule.MIN_TRUSTED_UNIX_SECS && Fresh(b, maxAge, later) ==> Fresh(b, maxAge, now)
  {
  }

  // ---------------------------------------------------------------------------
  // The whole load
  // ---------------------------------------------------------------------------

  /** Signature verification with the configured key, which this model leaves open. */
  type Verifier = (string, seq<nat>) -> bool

  /** The file's signature line spells 64 bytes that verify over exactly its payload. */
  ghost predicate Signed(raw: string, verify: Verifier) {
    && SplitPayload(raw).Ok?
    && exists sig :: |sig| == 64 && Spells(Trim(SplitPayload(raw).value.1), sig) && verify(SplitPayload(raw).value.0, sig)
  }

  /** What a load of these fields at this time returns. */
  ghost predicate LoadedFrom(fields: Fields, zone: string, parseIp: IpParser, maxAge: nat, now: nat, b: Bundle) {
    BuiltFrom(fields, zone, parseIp, b) && Fresh(b, maxAge, now)
  }

  /** What a load of this file returns: the file is small enough, signed over exactly its
      payload and well formed, and `b` is built from the payload's fields and fresh. */
  ghost predicate Loads(raw: string, zone: string, verify: Verifier, parseIp: IpParser, maxAge: nat, now: nat, b: Bundle) {
    && ByteLen(raw) <= 262_144 && Signed(raw, verify)
    && LoadsPayload(SplitPayload(raw).value.0, zone, parseIp, maxAge, now, b)
  }

  ghost predicate LoadsPayload(payload: string, zone: string, parseIp: IpParser, maxAge: nat, now: nat, b: Bundle) {
    && WellFormed(PayloadEntries(payload))
    && exists fields :: Holds(fields, PayloadEntries(payload)) && LoadedFrom(fields, zone, parseIp, maxAge, now, b)
  }

  lemma {:induction false} PayloadLoadUnique(payload: string, zone: string, parseIp: IpParser, maxAge: nat, now: nat,
                                             fields: Fields, b: Bundle)
    requires WellFormed(PayloadEntries(payload)) && Holds(fields, PayloadEntries(payload))
    ensures LoadsPayload(payload, zone, parseIp, maxAge, now, b) <==> LoadedFrom(fields, zone, parseIp, maxAge, now, b)
  {
    if LoadsPayload(payload, zone, parseIp, maxAge, now, b) {
      var other :| Holds(other, PayloadEntries(payload)) && LoadedFrom(other, zone, parseIp, maxAge, now, b);
      HeldMapUnique(PayloadEntries(payload), other, fields);
    }
  }

  /** A file loads as at most one bundle, and only with names minted for the zone. */
  lemma {:induction false} LoadIsDetermined(raw: string, zone: string, verify: Verifier, parseIp: IpParser,
                                            maxAge: nat, now: nat, a: Bundle, b: Bundle)
    requires Loads(raw, zone, verify, parseIp, maxAge, now, a) && Loads(raw, zone, verify, parseIp, maxAge, now, b)
    ensures a == b && MintedFor(a, zone)
  {
    var payload := SplitPayload(raw).value.0;
    var fields :| Holds(fields, PayloadEntries(payload)) && LoadedFrom(fields, zone, parseIp, maxAge, now, a);
    PayloadLoadUnique(payload, zone, parseIp, maxAge, now, fields, b);
    BuiltUnique(fields, zone, parseIp, a, b);
    BuiltIsMinted(fields, zone, parseIp, a);
  }

  /** `load_mesh_bundle`: a file loads exactly as the bundle of its signed payload, or not at
      all. */
  method LoadMeshBundle(raw: string, zone: string, maxAge: nat, now: nat, verify: Verifier, parseIp: IpParser)
    returns (out: Result<Bundle, MeshError>)
    ensures out.Ok? ==> Loads(raw, zone, verify, parseIp, maxAge, now, out.value) && MintedFor(out.value, zone)
    ensures out.Err? ==> forall b :: !Loads(raw, zone, verify, parseIp, maxAge, now, b)
  {
    if ByteLen(raw) > MAX_BUNDLE_BYTES { return Err(TooLarge); }
    var cut := SplitPayload(raw);
    if cut.Err? { return Err(cut.error); }
    var payload, sigText := cut.value.0, cut.value.1;
    var sig := DecodeHexFixed(sigText, 64);
    if sig.None? { return Err(MissingSignature); }
    SpelledBytesAreUnique(Trim(sigText), sig.value);
    if !verify(payload, sig.value) { return Err(SignatureMismatch); }
    out := LoadPayload(payload, zone, maxAge, now, parseIp);
  }

  lemma {:induction false} SpelledBytesAreUnique(text: string, bytes: seq<nat>)
    requires Spells(text, bytes)
    ensures forall other :: |other| == |bytes| && Spells(text, other) ==> other == bytes
  {
  }

  /** The part of the load after the signature. */
  method LoadPayload(payload: string, zone: string, maxAge: nat, now: nat, parseIp: IpParser)
    returns (out: Result<Bundle, MeshError>)
    ensures out.Ok? ==> LoadsPayload(payload, zone, parseIp, maxAge, now, out.value) && MintedFor(out.value, zone)
    ensures out.Err? ==> forall b :: !LoadsPayload(payload, zone, parseIp, maxAge, now, b)
  {
    var parsed := ParseFields(payload);
    if parsed.Err? { return Err(parsed.error); }
    var fields := parsed.value;
    forall b
      ensures LoadsPayload(payload, zone, parseIp, maxAge, now, b) <==> LoadedFrom(fields, zone, parseIp, maxAge, now, b)
    {
      PayloadLoadUnique(payload, zone, parseIp, maxAge, now, fields, b);
    }
    out := LoadFields(fields, zone, maxAge, now, parseIp);
  }

  method LoadFields(fields: Fields, zone: string, maxAge: nat, now: nat, parseIp: IpParser)
    returns (out: Result<Bundle, MeshError>)
    ensures out.Ok? ==> LoadedFrom(fields, zone, parseIp, maxAge, now, out.value) && MintedFor(out.value, zone)
    ensures out.Err? ==> forall b :: !LoadedFrom(fields, zone, parseIp, maxAge, now, b)
  {
    var bundle := BuildLoadedBundle(fields, zone, parseIp);
    if bundle.Err? { return bundle; }
    if !Fresh(bundle.value, maxAge, now) {
      forall b | BuiltFrom(fields, zone, parseIp, b) ensures !Fresh(b, maxAge, now) {
        BuiltUnique(fields, zone, parseIp, b, bundle.value);
      }
      return Err(Stale);
    }
    return bundle;
  }
}
