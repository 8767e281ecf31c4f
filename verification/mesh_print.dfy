/** Printed mesh bundles: the field list of a bundle document, its signed file, and the proof
    that loading the file returns exactly the document's records. */
module MeshPrint {
  import opened Names
  import opened Text
  import opened Records
  import opened ZoneStore
  import opened MeshWire
  import opened MeshBundle

  // ---------------------------------------------------------------------------
  // Field names
  // ---------------------------------------------------------------------------

  /** Letters, digits, underscores and dots. */
  predicate KeyChar(c: char) { 'a' <= c <= 'z' || '0' <= c <= '9' || c == '_' || c == '.' }

  predicate KeyText(s: string) { s != [] && forall i :: 0 <= i < |s| ==> KeyChar(s[i]) }

  /** A key without dots. */
  predicate Word(s: string) { s != [] && forall i :: 0 <= i < |s| ==> KeyChar(s[i]) && s[i] != '.' }

  lemma {:induction false} WordIsKey(s: string)
    requires Word(s)
    ensures KeyText(s) && Free(s, '.')
  {
  }

  lemma {:induction false} HeaderNameText(a: HeaderField)
    ensures KeyText(HeaderName(a)) && Free(HeaderName(a), '.')
  {
    match a {
    case Version => assert Word("version");
    case ZoneName => assert Word("zone_name");
    case GeneratedAt => assert Word("generated_at_unix");
    case ExpiresAt => assert Word("expires_at_unix");
    case Nonce => assert Word("nonce");
    case RecordCount => assert Word("record_count");
    }
    WordIsKey(HeaderName(a));
  }

  lemma {:induction false} SuffixText(f: GroupField)
    ensures KeyText(Suffix(f)) && Free(Suffix(f), '.')
  {
    match f {
    case HostLabel => assert Word("label");
    case RrType => assert Word("rr_type");
    case AddrKind => assert Word("target_addr_kind");
    case ExpectedIp => assert Word("expected_ip");
    case TtlSecs => assert Word("ttl_secs");
    case NodeId => assert Word("target_node_id");
    case AliasList => assert Word("aliases");
    }
    WordIsKey(Suffix(f));
  }

  lemma {:induction false} HeaderNameInjective(a: HeaderField, b: HeaderField)
    requires HeaderName(a) == HeaderName(b)
    ensures a == b
  {
    assert |HeaderName(a)| == |HeaderName(b)|;
  }

  lemma {:induction false} SuffixInjective(f: GroupField, g: GroupField)
    requires Suffix(f) == Suffix(g)
    ensures f == g
  {
    assert |Suffix(f)| == |Suffix(g)| && Suffix(f)[0] == Suffix(g)[0];
  }

  lemma {:induction false} DecimalDigits(n: nat)
    ensures forall i :: 0 <= i < |Decimal(n)| ==> IsDigit(Decimal(n)[i])
  {
    DecimalValue(n);
    DigitsAreDigits(Decimal(n));
  }

  lemma {:induction false} CutAtDot(front: string, tail: string, front': string, tail': string)
    requires Free(front, '.') && Free(front', '.') && front + "." + tail == front' + "." + tail'
    ensures front == front' && tail == tail'
  {
    var s := front + "." + tail;
    FirstIndexUnique(s, '.', |front|);
    FirstIndexUnique(s, '.', |front'|);
    assert s[..|front|] == front && s[..|front'|] == front';
    assert s[|front| + 1..] == tail && s[|front'| + 1..] == tail';
  }

  lemma {:induction false} FieldNameParts(i: nat, f: GroupField)
    ensures FieldName(i, f) == "record" + "." + (Decimal(i) + "." + Suffix(f))
  {
  }

  /** Groups and their fields have different names. */
  lemma {:induction false} FieldNameInjective(i: nat, f: GroupField, j: nat, g: GroupField)
    requires FieldName(i, f) == FieldName(j, g)
    ensures i == j && f == g
  {
    FieldNameParts(i, f);
    FieldNameParts(j, g);
    CutAtDot("record", Decimal(i) + "." + Suffix(f), "record", Decimal(j) + "." + Suffix(g));
    DecimalDigits(i);
    DecimalDigits(j);
    CutAtDot(Decimal(i), Suffix(f), Decimal(j), Suffix(g));
    DecimalValue(i);
    DecimalValue(j);
    SuffixInjective(f, g);
  }

  lemma {:induction false} HeaderIsNoGroup(a: HeaderField, i: nat, f: GroupField)
    ensures HeaderName(a) != FieldName(i, f)
  {
    HeaderNameText(a);
    assert FieldName(i, f)[6] == '.';
  }

  lemma {:induction false} FieldNameText(i: nat, f: GroupField)
    ensures KeyText(FieldName(i, f))
  {
    DecimalDigits(i);
    SuffixText(f);
    assert KeyText("record.");
  }

  // ---------------------------------------------------------------------------
  // Documents
  // ---------------------------------------------------------------------------

  /** A record group, with its address as text. */
  datatype Group = Group(entry: Entry, ipText: string)

  datatype Doc = Doc(zoneName: string, generatedAt: nat, expiresAt: nat, nonce: nat, groups: seq<Group>)

  const HEADER_FIELDS: seq<HeaderField> := [Version, ZoneName, GeneratedAt, ExpiresAt, Nonce, RecordCount]
  const GROUP_FIELDS: seq<GroupField> := [HostLabel, RrType, AddrKind, ExpectedIp, TtlSecs, NodeId, AliasList]

  function HeaderText(doc: Doc, a: HeaderField): string {
    match a
    case Version => "1"
    case ZoneName => doc.zoneName
    case GeneratedAt => Decimal(doc.generatedAt)
    case ExpiresAt => Decimal(doc.expiresAt)
    case Nonce => Decimal(doc.nonce)
    case RecordCount => Decimal(|doc.groups|)
  }

  function GroupText(g: Group, f: GroupField): string
    requires g.entry.names != []
  {
    match f
    case HostLabel => g.entry.names[0]
    case RrType => "A"
    case AddrKind => "mesh_ipv4"
    case ExpectedIp => g.ipText
    case TtlSecs => Decimal(g.entry.ttl)
    case NodeId => g.entry.node
    case AliasList => AliasText(g.entry.names[1..])
  }

  predicate HasNames(doc: Doc) { forall i :: 0 <= i < |doc.groups| ==> doc.groups[i].entry.names != [] }

  function HeaderFieldOf(doc: Doc, a: HeaderField): Field { Field(HeaderName(a), HeaderText(doc, a)) }

  function GroupFieldOf(doc: Doc, i: nat, f: GroupField): Field
    requires HasNames(doc) && i < |doc.groups|
  {
    Field(FieldName(i, f), GroupText(doc.groups[i], f))
  }

  /** One field for each name, in order. */
  function FieldsFor<T>(field: T -> Field, names: seq<T>): seq<Field> {
    if names == [] then [] else FieldsFor(field, names[..|names| - 1]) + [field(names[|names| - 1])]
  }

  lemma {:induction false} FieldsAt<T>(field: T -> Field, names: seq<T>)
    ensures |FieldsFor(field, names)| == |names|
    ensures forall k :: 0 <= k < |names| ==> FieldsFor(field, names)[k] == field(names[k])
  {
    if names != [] { FieldsAt(field, names[..|names| - 1]); }
  }

  lemma {:induction false} FieldsDistinct<T>(field: T -> Field, names: seq<T>)
    requires NoDuplicates(names) && forall a, b :: a in names && b in names && field(a).key == field(b).key ==> a == b
    ensures DistinctKeys(FieldsFor(field, names))
  {
    FieldsAt(field, names);
  }

  function HeaderPart(doc: Doc): seq<Field> { FieldsFor(a => HeaderFieldOf(doc, a), HEADER_FIELDS) }

  function GroupPart(doc: Doc, i: nat): seq<Field>
    requires HasNames(doc) && i < |doc.groups|
  {
    FieldsFor(f => GroupFieldOf(doc, i, f), GROUP_FIELDS)
  }

  /** The header and the first `n` groups, field by field. */
  function FieldList(doc: Doc, n: nat): seq<Field>
    requires HasNames(doc) && n <= |doc.groups|
  {
    if n == 0 then HeaderPart(doc) else FieldList(doc, n - 1) + GroupPart(doc, n - 1)
  }

  predicate DistinctKeys(fs: seq<Field>) { forall i, j :: 0 <= i < j < |fs| ==> fs[i].key != fs[j].key }

  predicate IsHeaderField(doc: Doc, f: Field) { exists a :: f == HeaderFieldOf(doc, a) }

  predicate IsGroupField(doc: Doc, n: nat, f: Field)
    requires HasNames(doc) && n <= |doc.groups|
  {
    exists i, g :: 0 <= i < n && f == GroupFieldOf(doc, i, g)
  }

  lemma {:induction false} HeaderPartDistinct(doc: Doc)
    ensures DistinctKeys(HeaderPart(doc))
  {
    var field := (a: HeaderField) => HeaderFieldOf(doc, a);
    forall a, b | field(a).key == field(b).key ensures a == b { HeaderNameInjective(a, b); }
    FieldsDistinct(field, HEADER_FIELDS);
  }

  lemma {:induction false} HeaderPartExact(doc: Doc, a: HeaderField)
    ensures HeaderFieldOf(doc, a) in HeaderPart(doc)
  {
    var k := match a case Version => 0 case ZoneName => 1 case GeneratedAt => 2 case ExpiresAt => 3 case Nonce => 4 case RecordCount => 5;
    FieldsAt(x => HeaderFieldOf(doc, x), HEADER_FIELDS);
    assert HEADER_FIELDS[k] == a && HeaderPart(doc)[k] == HeaderFieldOf(doc, a);
  }

  lemma {:induction false} GroupPartDistinct(doc: Doc, i: nat)
    requires HasNames(doc) && i < |doc.groups|
    ensures DistinctKeys(GroupPart(doc, i))
  {
    var field := (f: GroupField) => GroupFieldOf(doc, i, f);
    forall f, g | field(f).key == field(g).key ensures f == g { FieldNameInjective(i, f, i, g); }
    FieldsDistinct(field, GROUP_FIELDS);
  }

  lemma {:induction false} GroupPartExact(doc: Doc, i: nat, g: GroupField)
    requires HasNames(doc) && i < |doc.groups|
    ensures GroupFieldOf(doc, i, g) in GroupPart(doc, i)
  {
    var k := match g case HostLabel => 0 case RrType => 1 case AddrKind => 2 case ExpectedIp => 3 case TtlSecs => 4
      case NodeId => 5 case AliasList => 6;
    FieldsAt(f => GroupFieldOf(doc, i, f), GROUP_FIELDS);
    assert GROUP_FIELDS[k] == g && GroupPart(doc, i)[k] == GroupFieldOf(doc, i, g);
  }

  lemma {:induction false} HeaderPartField(doc: Doc, f: Field)
    requires f in HeaderPart(doc)
    ensures IsHeaderField(doc, f)
  {
    FieldsAt(a => HeaderFieldOf(doc, a), HEADER_FIELDS);
    var k :| 0 <= k < |HeaderPart(doc)| && HeaderPart(doc)[k] == f;
    assert f == HeaderFieldOf(doc, HEADER_FIELDS[k]);
  }

  lemma {:induction false} GroupPartField(doc: Doc, i: nat, f: Field) returns (g: GroupField)
    requires HasNames(doc) && i < |doc.groups| && f in GroupPart(doc, i)
    ensures f == GroupFieldOf(doc, i, g)
  {
    FieldsAt(x => GroupFieldOf(doc, i, x), GROUP_FIELDS);
    var k :| 0 <= k < |GroupPart(doc, i)| && GroupPart(doc, i)[k] == f;
    g := GROUP_FIELDS[k];
  }

  /** Every listed field belongs to the header or to one of the groups listed so far. */
  lemma {:induction false} ListedField(doc: Doc, n: nat, f: Field)
    requires HasNames(doc) && n <= |doc.groups| && f in FieldList(doc, n)
    ensures IsHeaderField(doc, f) || IsGroupField(doc, n, f)
  {
    if n == 0 {
      HeaderPartField(doc, f);
    } else if f in FieldList(doc, n - 1) {
      ListedField(doc, n - 1, f);
    } else {
      var g := GroupPartField(doc, n - 1, f);
      assert f == GroupFieldOf(doc, n - 1, g);
    }
  }

  lemma {:induction false} FieldListStep(doc: Doc, n: nat, f: Field)
    requires HasNames(doc) && 0 < n <= |doc.groups|
    ensures f in FieldList(doc, n) <==> f in FieldList(doc, n - 1) || f in GroupPart(doc, n - 1)
  {
    InAppend(FieldList(doc, n - 1), GroupPart(doc, n - 1), f);
  }

  lemma {:induction false} InAppend<T>(a: seq<T>, b: seq<T>, x: T)
    ensures x in a + b <==> x in a || x in b
  {
  }

  lemma {:induction false} HeaderFieldIsListed(doc: Doc, n: nat, a: HeaderField)
    requires HasNames(doc) && n <= |doc.groups|
    ensures HeaderFieldOf(doc, a) in FieldList(doc, n)
  {
    if n == 0 {
      HeaderPartExact(doc, a);
    } else {
      HeaderFieldIsListed(doc, n - 1, a);
      FieldListStep(doc, n, HeaderFieldOf(doc, a));
    }
  }

  lemma {:induction false} GroupFieldIsListed(doc: Doc, n: nat, i: nat, g: GroupField)
    requires HasNames(doc) && i < n <= |doc.groups|
    ensures GroupFieldOf(doc, i, g) in FieldList(doc, n)
  {
    if i == n - 1 { GroupPartExact(doc, i, g); } else { GroupFieldIsListed(doc, n - 1, i, g); }
    FieldListStep(doc, n, GroupFieldOf(doc, i, g));
  }

  predicate Apart(fs: seq<Field>, more: seq<Field>) { forall f, g :: f in fs && g in more ==> f.key != g.key }

  lemma {:induction false} KeysApart(fs: seq<Field>, more: seq<Field>)
    requires DistinctKeys(fs) && DistinctKeys(more) && Apart(fs, more)
    ensures DistinctKeys(fs + more)
  {
    var all := fs + more;
    forall i, j | 0 <= i < j < |all| ensures all[i].key != all[j].key {
      if i < |fs| && |fs| <= j { assert all[i] in fs && all[j] in more; }
    }
  }

  lemma {:induction false} GroupKeysAreNew(doc: Doc, n: nat, f: Field, g: Field)
    requires HasNames(doc) && n < |doc.groups| && f in FieldList(doc, n) && g in GroupPart(doc, n)
    ensures f.key != g.key
  {
    ListedField(doc, n, f);
    var gf := GroupPartField(doc, n, g);
    if IsHeaderField(doc, f) {
      var a :| f == HeaderFieldOf(doc, a);
      HeaderIsNoGroup(a, n, gf);
    } else {
      var i, h :| 0 <= i < n && f == GroupFieldOf(doc, i, h);
      if f.key == g.key { FieldNameInjective(i, h, n, gf); }
    }
  }

  lemma {:induction false} GroupPartIsNew(doc: Doc, n: nat)
    requires HasNames(doc) && n < |doc.groups|
    ensures Apart(FieldList(doc, n), GroupPart(doc, n))
  {
    forall f, g | f in FieldList(doc, n) && g in GroupPart(doc, n) ensures f.key != g.key {
      GroupKeysAreNew(doc, n, f, g);
    }
  }

  lemma {:induction false} AppendGroupDistinct(doc: Doc, n: nat)
    requires HasNames(doc) && n < |doc.groups| && DistinctKeys(FieldList(doc, n))
    ensures DistinctKeys(FieldList(doc, n) + GroupPart(doc, n))
  {
    GroupPartDistinct(doc, n);
    GroupPartIsNew(doc, n);
    KeysApart(FieldList(doc, n), GroupPart(doc, n));
  }

  /** No two fields of a document have the same name. */
  lemma {:induction false} FieldListDistinct(doc: Doc, n: nat)
    requires HasNames(doc) && n <= |doc.groups|
    ensures DistinctKeys(FieldList(doc, n))
  {
    if n == 0 {
      HeaderPartDistinct(doc);
    } else {
      FieldListDistinct(doc, n - 1);
      AppendGroupDistinct(doc, n - 1);
    }
  }

  function MapOf(fs: seq<Field>): map<string, string> {
    if fs == [] then map[] else MapOf(fs[..|fs| - 1])[fs[|fs| - 1].key := fs[|fs| - 1].value]
  }

  lemma {:induction false} MapOfLists(fs: seq<Field>)
    requires DistinctKeys(fs)
    ensures Lists(fs, MapOf(fs))
  {
    if fs != [] {
      var n := |fs| - 1;
      var front, m := fs[..n], MapOf(fs[..n]);
      MapOfLists(front);
      forall i | 0 <= i < |fs| ensures fs[i].key in MapOf(fs) && MapOf(fs)[fs[i].key] == fs[i].value {
        if i < n { assert front[i] == fs[i]; }
      }
      forall k | k in MapOf(fs) ensures exists i :: 0 <= i < |fs| && fs[i].key == k {
        if k in m {
          var i :| 0 <= i < |front| && front[i].key == k;
          assert fs[i].key == k;
        } else {
          assert fs[n].key == k;
        }
      }
    }
  }

  // ---------------------------------------------------------------------------
  // Reading a document back
  // ---------------------------------------------------------------------------

  /** The fields of a whole document. */
  function DocFields(doc: Doc): Fields
    requires HasNames(doc)
  {
    MapOf(FieldList(doc, |doc.groups|))
  }

  lemma {:induction false} ListedValue(fs: seq<Field>, m: map<string, string>, f: Field)
    requires Lists(fs, m) && f in fs
    ensures f.key in m && m[f.key] == f.value
  {
    var i :| 0 <= i < |fs| && fs[i] == f;
  }

  lemma {:induction false} DocFieldsHold(doc: Doc)
    requires HasNames(doc)
    ensures Lists(FieldList(doc, |doc.groups|), DocFields(doc))
  {
    FieldListDistinct(doc, |doc.groups|);
    MapOfLists(FieldList(doc, |doc.groups|));
  }

  lemma {:induction false} DocFieldAt(doc: Doc, a: HeaderField, i: nat, g: GroupField)
    requires HasNames(doc)
    ensures HeaderOf(DocFields(doc)).get(a) == Some(HeaderText(doc, a))
    ensures i < |doc.groups| ==> GroupOf(DocFields(doc), i)(g) == Some(GroupText(doc.groups[i], g))
  {
    var fs := FieldList(doc, |doc.groups|);
    DocFieldsHold(doc);
    HeaderFieldIsListed(doc, |doc.groups|, a);
    ListedValue(fs, DocFields(doc), HeaderFieldOf(doc, a));
    if i < |doc.groups| {
      GroupFieldIsListed(doc, |doc.groups|, i, g);
      ListedValue(fs, DocFields(doc), GroupFieldOf(doc, i, g));
    }
  }

  /** A group whose text decodes to its entry. */
  predicate GoodGroup(g: Group, parseIp: IpParser) {
    && g.entry.names != [] && g.entry.ttl <= U64_MAX && parseIp(g.ipText) == Some(g.entry.ip)
    && (forall k :: 0 <= k < |g.entry.names| ==> ValidLabel(g.entry.names[k]))
    && (forall k :: 1 <= k < |g.entry.names| ==> Trimmed(g.entry.names[k]) && Free(g.entry.names[k], ','))
  }

  /** A document for `zone` that the loader can read. */
  predicate GoodDoc(doc: Doc, zone: string, parseIp: IpParser) {
    && NormaliseZone(doc.zoneName) == zone
    && GoodTimes(doc)
    && forall i :: 0 <= i < |doc.groups| ==> GoodGroup(doc.groups[i], parseIp)
  }

  function HeaderOfDoc(doc: Doc): Header { Header(doc.generatedAt, doc.expiresAt, doc.nonce, |doc.groups|) }

  /** The header part of GoodDoc. */
  predicate GoodTimes(doc: Doc) {
    && doc.generatedAt < doc.expiresAt <= U64_MAX && doc.nonce <= U64_MAX && |doc.groups| <= 100_000
  }

  lemma {:induction false} DocTextsAreRead(doc: Doc, r: HeaderReader, zone: string)
    requires forall a :: r.get(a) == Some(HeaderText(doc, a))
    requires forall n: nat :: n <= U64_MAX ==> r.number(Decimal(n)) == Some(n)
    requires r.zone(doc.zoneName) == zone && GoodTimes(doc)
    ensures ReadHeaderWith(r, zone) == Ok(HeaderOfDoc(doc))
  {
    HeaderIsReadIff(r, zone, HeaderOfDoc(doc));
  }

  lemma {:induction false} HeaderDecodes(fields: Fields, text: string, n: nat)
    ensures HeaderOf(fields).zone(text) == NormaliseZone(text)
    ensures n <= U64_MAX ==> HeaderOf(fields).number(Decimal(n)) == Some(n)
  {
    if n <= U64_MAX { DecimalParses(n, U64_MAX); }
  }

  lemma {:induction false} DocHeaderIsRead(doc: Doc, zone: string)
    requires HasNames(doc) && GoodTimes(doc) && NormaliseZone(doc.zoneName) == zone
    ensures ReadHeader(DocFields(doc), zone) == Ok(HeaderOfDoc(doc))
  {
    var r := HeaderOf(DocFields(doc));
    forall a ensures r.get(a) == Some(HeaderText(doc, a)) { DocFieldAt(doc, a, 0, HostLabel); }
    forall n: nat | n <= U64_MAX ensures r.number(Decimal(n)) == Some(n) { HeaderDecodes(DocFields(doc), "", n); }
    HeaderDecodes(DocFields(doc), doc.zoneName, 0);
    DocTextsAreRead(doc, r, zone);
  }

  lemma {:induction false} GroupPrints(get: GroupReader, g: Group)
    requires g.entry.names != [] && forall f :: get(f) == Some(GroupText(g, f))
    ensures PrintsEntry(get, g.entry, g.ipText)
  {
  }

  lemma {:induction false} DocGroupIsRead(doc: Doc, parseIp: IpParser, i: nat)
    requires HasNames(doc) && i < |doc.groups| && GoodGroup(doc.groups[i], parseIp)
    ensures ReadEntry(DocFields(doc), parseIp, i) == Ok(doc.groups[i].entry)
  {
    var get, g := GroupOf(DocFields(doc), i), doc.groups[i];
    forall f ensures get(f) == Some(GroupText(g, f)) { DocFieldAt(doc, Version, i, f); }
    GroupPrints(get, g);
    ReadInvertsPrint(DocFields(doc), parseIp, i, g.entry, g.ipText);
  }

  /** The records of one group, in the order of its names. */
  function GroupRecords(e: Entry, zone: string): seq<DnsRecord> {
    seq(|e.names|, j requires 0 <= j < |e.names| => DnsRecord(MeshName(e.names[j], zone), A(e.ip), e.ttl, Some(e.node)))
  }

  /** The records of the first `n` groups. */
  function DocRecords(doc: Doc, zone: string, n: nat): seq<DnsRecord>
    requires n <= |doc.groups|
  {
    if n == 0 then [] else DocRecords(doc, zone, n - 1) + GroupRecords(doc.groups[n - 1].entry, zone)
  }

  function BundleOf(doc: Doc, zone: string): Bundle {
    Bundle(DocRecords(doc, zone, |doc.groups|), doc.generatedAt, doc.expiresAt, doc.nonce)
  }

  lemma {:induction false} GroupRecordsFit(e: Entry, zone: string)
    ensures var more := GroupRecords(e, zone);
            |more| == |e.names| && forall j :: 0 <= j < |more| ==> IsRecordOf(more[j], e, zone, e.names[j])
  {
  }

  /** `sofar(n)` are the records of the first `n` groups. */
  ghost predicate Accumulates(read: EntryReader, zone: string, sofar: nat -> seq<DnsRecord>, n: nat) {
    && sofar(0) == []
    && forall i: nat :: i < n ==> read(i).Ok? && sofar(i + 1) == sofar(i) + GroupRecords(read(i).value, zone)
  }

  lemma {:induction false} AccumulatedConcatenate(read: EntryReader, zone: string, sofar: nat -> seq<DnsRecord>, n: nat)
    requires Accumulates(read, zone, sofar, n)
    ensures Concatenates(read, zone, n, sofar(n))
  {
    if n > 0 {
      AccumulatedConcatenate(read, zone, sofar, n - 1);
      assert read(n - 1).Ok? && sofar(n - 1 + 1) == sofar(n - 1) + GroupRecords(read(n - 1).value, zone);
      GroupRecordsFit(read(n - 1).value, zone);
      ConcatenatesSnoc(read, zone, n - 1, sofar(n - 1), GroupRecords(read(n - 1).value, zone));
    }
  }

  lemma {:induction false} DocRecordsConcatenate(doc: Doc, zone: string, read: EntryReader, n: nat)
    requires n <= |doc.groups| && forall i :: 0 <= i < n ==> read(i) == Ok(doc.groups[i].entry)
    ensures Concatenates(read, zone, n, DocRecords(doc, zone, n))
  {
    var sofar := (k: nat) => if k <= |doc.groups| then DocRecords(doc, zone, k) else [];
    forall i: nat | i < n ensures read(i).Ok? && sofar(i + 1) == sofar(i) + GroupRecords(read(i).value, zone) { }
    AccumulatedConcatenate(read, zone, sofar, n);
  }

  /** Building from a document's fields gives the document's bundle and nothing else. */
  lemma {:induction false} DocIsBuilt(doc: Doc, zone: string, parseIp: IpParser, b: Bundle)
    requires HasNames(doc) && GoodDoc(doc, zone, parseIp)
    ensures BuiltFrom(DocFields(doc), zone, parseIp, b) <==> b == BundleOf(doc, zone)
  {
    var fields, read := DocFields(doc), GroupsIn(DocFields(doc), parseIp);
    DocHeaderIsRead(doc, zone);
    forall i | 0 <= i < |doc.groups| ensures read(i) == Ok(doc.groups[i].entry) { DocGroupIsRead(doc, parseIp, i); }
    DocRecordsConcatenate(doc, zone, read, |doc.groups|);
    assert BuiltFrom(fields, zone, parseIp, BundleOf(doc, zone));
    if BuiltFrom(fields, zone, parseIp, b) { BuiltUnique(fields, zone, parseIp, b, BundleOf(doc, zone)); }
  }

  // ---------------------------------------------------------------------------
  // Fields as they are written
  // ---------------------------------------------------------------------------

  predicate Says(fields: Fields, key: string, value: string) { key in fields && fields[key] == value }

  /** The header of a document, key by key. */
  predicate WrittenHeader(fields: Fields, doc: Doc) {
    && Says(fields, "version", "1") && Says(fields, "zone_name", doc.zoneName)
    && Says(fields, "generated_at_unix", Decimal(doc.generatedAt)) && Says(fields, "expires_at_unix", Decimal(doc.expiresAt))
    && Says(fields, "nonce", Decimal(doc.nonce)) && Says(fields, "record_count", Decimal(|doc.groups|))
  }

  /** Group `i` of a document, key by key. */
  predicate WrittenGroup(fields: Fields, i: nat, g: Group)
    requires g.entry.names != []
  {
    var key := "record." + Decimal(i) + ".";
    && Says(fields, key + "label", g.entry.names[0]) && Says(fields, key + "rr_type", "A")
    && Says(fields, key + "target_addr_kind", "mesh_ipv4") && Says(fields, key + "expected_ip", g.ipText)
    && Says(fields, key + "ttl_secs", Decimal(g.entry.ttl)) && Says(fields, key + "target_node_id", g.entry.node)
    && Says(fields, key + "aliases", AliasText(g.entry.names[1..]))
  }

  lemma {:induction false} WrittenHeaderIsRead(fields: Fields, doc: Doc, zone: string)
    requires WrittenHeader(fields, doc) && NormaliseZone(doc.zoneName) == zone && GoodTimes(doc)
    ensures ReadHeader(fields, zone) == Ok(HeaderOfDoc(doc))
  {
    var r := HeaderOf(fields);
    forall a ensures r.get(a) == Some(HeaderText(doc, a)) { WrittenHeaderAt(fields, doc, a); }
    forall n: nat | n <= U64_MAX ensures r.number(Decimal(n)) == Some(n) { DecimalParses(n, U64_MAX); }
    DocTextsAreRead(doc, r, zone);
  }

  lemma {:induction false} WrittenHeaderAt(fields: Fields, doc: Doc, a: HeaderField)
    requires WrittenHeader(fields, doc)
    ensures HeaderOf(fields).get(a) == Some(HeaderText(doc, a))
  {
    match a
    case Version =>
    case ZoneName =>
    case GeneratedAt =>
    case ExpiresAt =>
    case Nonce =>
    case RecordCount =>
  }

  lemma {:induction false} WrittenGroupIsRead(fields: Fields, parseIp: IpParser, i: nat, g: Group)
    requires GoodGroup(g, parseIp) && WrittenGroup(fields, i, g)
    ensures ReadEntry(fields, parseIp, i) == Ok(g.entry)
  {
    WrittenGroupPrints(fields, i, g);
    ReadInvertsPrint(fields, parseIp, i, g.entry, g.ipText);
  }

  lemma {:induction false} WrittenGroupPrints(fields: Fields, i: nat, g: Group)
    requires g.entry.names != [] && WrittenGroup(fields, i, g)
    ensures PrintsEntry(GroupOf(fields, i), g.entry, g.ipText)
  {
    forall f ensures FieldName(i, f) == "record." + Decimal(i) + "." + Suffix(f) { }
  }

  /** A field map with the keys of the format written out, whatever else it holds, builds the
      bundle of the document it spells. */
  lemma {:induction false} WrittenFieldsAreBuilt(fields: Fields, doc: Doc, zone: string, parseIp: IpParser)
    requires HasNames(doc) && GoodDoc(doc, zone, parseIp) && WrittenHeader(fields, doc)
    requires forall i :: 0 <= i < |doc.groups| ==> WrittenGroup(fields, i, doc.groups[i])
    ensures BuiltFrom(fields, zone, parseIp, BundleOf(doc, zone))
  {
    var read := GroupsIn(fields, parseIp);
    WrittenHeaderIsRead(fields, doc, zone);
    forall i | 0 <= i < |doc.groups| ensures read(i) == Ok(doc.groups[i].entry) { WrittenGroupIsRead(fields, parseIp, i, doc.groups[i]); }
    DocRecordsConcatenate(doc, zone, read, |doc.groups|);
  }

  // ---------------------------------------------------------------------------
  // The signed file
  // ---------------------------------------------------------------------------

  /** A text that survives as the value of a field. */
  predicate ValueText(s: string) { Trimmed(s) && Free(s, '\n') }

  predicate PrintableGroup(g: Group) {
    ValueText(g.ipText) && ValueText(g.entry.node) && forall k :: 0 <= k < |g.entry.names| ==> ValueText(g.entry.names[k])
  }

  predicate PrintableDoc(doc: Doc) {
    ValueText(doc.zoneName) && forall i :: 0 <= i < |doc.groups| ==> PrintableGroup(doc.groups[i])
  }

  lemma {:induction false} KeyIsPrintable(key: string, value: string)
    requires KeyText(key) && ValueText(value)
    ensures Printable(Field(key, value))
  {
    assert KeyChar(key[0]) && KeyChar(key[|key| - 1]);
  }

  lemma {:induction false} DecimalIsValue(n: nat)
    ensures ValueText(Decimal(n))
  {
    DecimalDigits(n);
    var s := Decimal(n);
    assert IsDigit(s[0]) && IsDigit(s[|s| - 1]);
  }

  lemma {:induction false} JoinIsValue(ps: seq<string>)
    requires ps != [] && forall k :: 0 <= k < |ps| ==> ps[k] != [] && ValueText(ps[k])
    ensures Join(ps, ',') != [] && ValueText(Join(ps, ',')) && Join(ps, ',')[0] == ps[0][0]
  {
    if |ps| > 1 {
      JoinIsValue(ps[1..]);
      var tail := Join(ps[1..], ',');
      var s := ps[0] + [','] + tail;
      assert s[|s| - 1] == tail[|tail| - 1];
    }
  }

  lemma {:induction false} HeaderTextIsValue(doc: Doc, a: HeaderField)
    requires ValueText(doc.zoneName)
    ensures ValueText(HeaderText(doc, a))
  {
    match a
    case Version =>
    case ZoneName =>
    case GeneratedAt => DecimalIsValue(doc.generatedAt);
    case ExpiresAt => DecimalIsValue(doc.expiresAt);
    case Nonce => DecimalIsValue(doc.nonce);
    case RecordCount => DecimalIsValue(|doc.groups|);
  }

  lemma {:induction false} AliasTextIsValue(aliases: seq<string>)
    requires forall k :: 0 <= k < |aliases| ==> aliases[k] != [] && ValueText(aliases[k])
    ensures ValueText(AliasText(aliases))
  {
    if aliases != [] { JoinIsValue(aliases); }
  }

  lemma {:induction false} GroupTextIsValue(g: Group, f: GroupField)
    requires PrintableGroup(g) && g.entry.names != [] && forall k :: 0 <= k < |g.entry.names| ==> g.entry.names[k] != []
    ensures ValueText(GroupText(g, f))
  {
    match f
    case TtlSecs => DecimalIsValue(g.entry.ttl);
    case AliasList =>
      var rest := g.entry.names[1..];
      assert forall k :: 0 <= k < |rest| ==> rest[k] == g.entry.names[k + 1];
      AliasTextIsValue(rest);
    case _ =>
  }

  predicate NamesFilled(doc: Doc) {
    forall i, k :: 0 <= i < |doc.groups| && 0 <= k < |doc.groups[i].entry.names| ==> doc.groups[i].entry.names[k] != []
  }

  lemma {:induction false} ListedFieldIsPrintable(doc: Doc, f: Field)
    requires HasNames(doc) && NamesFilled(doc) && PrintableDoc(doc) && f in FieldList(doc, |doc.groups|)
    ensures Printable(f)
  {
    ListedField(doc, |doc.groups|, f);
    if IsHeaderField(doc, f) {
      var a :| f == HeaderFieldOf(doc, a);
      HeaderNameText(a);
      HeaderTextIsValue(doc, a);
      KeyIsPrintable(HeaderName(a), HeaderText(doc, a));
    } else {
      var i, g :| 0 <= i < |doc.groups| && f == GroupFieldOf(doc, i, g);
      FieldNameText(i, g);
      GroupTextIsValue(doc.groups[i], g);
      KeyIsPrintable(FieldName(i, g), GroupText(doc.groups[i], g));
    }
  }

  /** The payload of a document: one field per line. */
  function Payload(doc: Doc): string
    requires HasNames(doc)
  {
    Unlines(PrintFields(FieldList(doc, |doc.groups|)))
  }

  lemma {:induction false} UnlinesEnds(ls: seq<string>)
    requires ls != []
    ensures EndsWith(Unlines(ls), "\n")
  {
    if |ls| == 1 {
      assert Unlines(ls[1..]) == [];
      assert Unlines(ls) == ls[0] + "\n";
    } else {
      UnlinesEnds(ls[1..]);
      var tail := Unlines(ls[1..]);
      var s := ls[0] + "\n" + tail;
      assert tail[|tail| - 1..][0] == '\n' && s[|s| - 1] == tail[|tail| - 1];
      assert s[|s| - 1..] == ['\n'];
    }
  }

  lemma {:induction false} FieldListNotEmpty(doc: Doc, n: nat)
    requires HasNames(doc) && n <= |doc.groups|
    ensures FieldList(doc, n) != []
  {
    HeaderFieldIsListed(doc, n, Version);
  }

  /** The fields that a document's payload is parsed into are the document's. */
  lemma {:induction false} PayloadParses(doc: Doc, fields: Fields)
    requires HasNames(doc) && NamesFilled(doc) && PrintableDoc(doc)
    ensures EndsWith(Payload(doc), "\n") && WellFormed(PayloadEntries(Payload(doc)))
    ensures Holds(fields, PayloadEntries(Payload(doc))) <==> fields == DocFields(doc)
  {
    var fs := FieldList(doc, |doc.groups|);
    FieldListNotEmpty(doc, |doc.groups|);
    UnlinesEnds(PrintFields(fs));
    DocFieldsHold(doc);
    forall i | 0 <= i < |fs| ensures Printable(fs[i]) { ListedFieldIsPrintable(doc, fs[i]); }
    PrintedMapParsesBack(DocFields(doc), fs, fields);
  }

  predicate SignatureBytes(sig: seq<nat>) { |sig| == 64 && forall i :: 0 <= i < |sig| ==> sig[i] < 256 }

  lemma {:induction false} HexTextIsClean(bytes: seq<nat>)
    requires forall i :: 0 <= i < |bytes| ==> bytes[i] < 256
    ensures NoWhitespace(HexText(bytes)) && |HexText(bytes)| == 2 * |bytes|
  {
    if bytes != [] { HexTextIsClean(bytes[1..]); }
  }

  /** The file of a document under a signature. */
  function SignedFile(doc: Doc, sig: seq<nat>): string
    requires HasNames(doc) && SignatureBytes(sig)
  {
    RenderWire(Payload(doc), HexText(sig))
  }

  lemma {:induction false} SignedFileSplits(payload: string, sig: seq<nat>, verify: Verifier)
    requires EndsWith(payload, "\n") && SignatureBytes(sig)
    ensures var raw := RenderWire(payload, HexText(sig));
            && SplitPayload(raw) == Ok((payload, HexText(sig)))
            && (Signed(raw, verify) <==> verify(payload, sig))
  {
    var raw, text := RenderWire(payload, HexText(sig)), HexText(sig);
    HexTextIsClean(sig);
    SplitInvertsRender(payload, text);
    TrimOfTrimmed(text);
    HexTextSpells(sig, sig);
    if Signed(raw, verify) {
      var other :| |other| == 64 && Spells(Trim(SplitPayload(raw).value.1), other) && verify(SplitPayload(raw).value.0, other);
      HexTextSpells(sig, other);
    }
  }

  lemma {:induction false} GoodDocIsFilled(doc: Doc, zone: string, parseIp: IpParser)
    requires GoodDoc(doc, zone, parseIp)
    ensures HasNames(doc) && NamesFilled(doc)
  {
    forall i, k | 0 <= i < |doc.groups| && 0 <= k < |doc.groups[i].entry.names|
      ensures doc.groups[i].entry.names[k] != []
    {
      assert GoodGroup(doc.groups[i], parseIp);
      assert ValidLabel(doc.groups[i].entry.names[k]);
    }
    assert forall i :: 0 <= i < |doc.groups| ==> GoodGroup(doc.groups[i], parseIp);
  }

  /** The round trip of the whole load: the signed file of a readable document loads exactly
      when it is small enough, its signature verifies and it is fresh, and then it loads as the
      document's records, times and nonce. */
  lemma {:induction false} SignedFileLoads(doc: Doc, sig: seq<nat>, zone: string, verify: Verifier, parseIp: IpParser,
                                           maxAge: nat, now: nat, b: Bundle)
    requires HasNames(doc) && PrintableDoc(doc) && GoodDoc(doc, zone, parseIp) && SignatureBytes(sig)
    ensures Loads(SignedFile(doc, sig), zone, verify, parseIp, maxAge, now, b) <==>
              && ByteLen(SignedFile(doc, sig)) <= 262_144 && verify(Payload(doc), sig)
              && b == BundleOf(doc, zone) && Fresh(b, maxAge, now)
  {
    GoodDocIsFilled(doc, zone, parseIp);
    PayloadParses(doc, DocFields(doc));
    SignedFileSplits(Payload(doc), sig, verify);
    PayloadLoadUnique(Payload(doc), zone, parseIp, maxAge, now, DocFields(doc), b);
    DocIsBuilt(doc, zone, parseIp, b);
  }
}
