/** Static records as the configuration file spells them: a type, an address or a target text. */
module StaticText {
  import opened Names
  import opened Spelling
  import opened Text
  import opened WordText
  import opened Records
  import opened ZoneStore
  import opened Lookup
  import opened ConfiguredAuthority

  /** One `[[authority.static_records]]` entry. */
  datatype Entry = Entry(name: string, recordType: string, address: Option<string>, target: Option<string>, ttl: nat)

  /** Parsing of address text and UTF-8 encoding, which this model leaves open. */
  datatype Readers = Readers(v4: string -> Option<nat>, v6: string -> Option<nat>, utf8: string -> seq<nat>)

  function U16(s: string): Option<nat> { ParseUnsigned(s, 65535) }

  /** A field that must be present and not empty. */
  function Required(field: Option<string>): Option<string> { if field.Some? && field.value != [] then field else None }

  function Address(read: string -> Option<nat>, field: Option<string>): Option<nat> {
    var text := Required(field);
    if text.None? then None else read(text.value)
  }

  function MxData(words: seq<string>): Option<RecordData> {
    if |words| != 2 || U16(words[0]).None? then None else Some(Mx(U16(words[0]).value, words[1]))
  }

  function SrvData(words: seq<string>): Option<RecordData> {
    if |words| != 4 || U16(words[0]).None? || U16(words[1]).None? || U16(words[2]).None? then None
    else Some(Srv(U16(words[0]).value, U16(words[1]).value, U16(words[2]).value, words[3]))
  }

  function TargetData(rtype: string, target: string, utf8: string -> seq<nat>): Option<RecordData> {
    if rtype == "CNAME" then Some(Cname(target))
    else if rtype == "PTR" then Some(Ptr(target))
    else if rtype == "NS" then Some(Ns(target))
    else if rtype == "TXT" then if ByteLen(target) > 255 then None else Some(Txt([utf8(target)]))
    else if rtype == "MX" then MxData(Words(target))
    else if rtype == "SRV" then SrvData(Words(target))
    else None
  }

  function DataOf(read: Readers, rtype: string, address: Option<string>, target: Option<string>): Option<RecordData> {
    if rtype == "A" then
      var ip := Address(read.v4, address);
      if ip.Some? then Some(A(ip.value)) else None
    else if rtype == "AAAA" then
      var ip := Address(read.v6, address);
      if ip.Some? then Some(Aaaa(ip.value)) else None
    else
      var text := Required(target);
      if text.Some? then TargetData(rtype, text.value, read.utf8) else None
  }

  /** The decoding half of `static_record_to_dns_record`. */
  function Decode(read: Readers, e: Entry): StaticRecord {
    StaticRecord(e.name, DataOf(read, Upper(Trim(e.recordType)), e.address, e.target), e.ttl)
  }

  // ---------------------------------------------------------------------------
  // What an entry says
  // ---------------------------------------------------------------------------

  /** `text` spells `want` in any letter case, with any white space around it. */
  ghost predicate Spells(text: string, want: string) {
    exists core, lead, trail :: IsCore(text, core, lead, trail) && SameLetters(core, want)
  }

  lemma {:induction false} SpelledType(text: string, want: string)
    requires Spells(text, want) && !HasSmall(want)
    ensures Upper(Trim(text)) == want
  {
    var core, lead, trail :| IsCore(text, core, lead, trail) && SameLetters(core, want);
    CoreIsTrim(text, core, lead, trail);
    UpperIff(core, want);
  }

  lemma {:induction false} NumberIsWord(n: nat)
    ensures SafeWord(Decimal(n))
  {
    if n >= 10 { NumberIsWord(n / 10); }
  }

  /** An MX entry: the preference, then the host. */
  lemma {:induction false} MxEntryIsRead(read: Readers, e: Entry, preference: nat, host: string)
    requires Spells(e.recordType, "MX") && preference <= 65535 && SafeWord(host)
    requires e.target == Some(Decimal(preference) + " " + host)
    ensures Decode(read, e) == StaticRecord(e.name, Some(Mx(preference, host)), e.ttl)
  {
    SpelledType(e.recordType, "MX");
    NumberIsWord(preference);
    WordsInvertJoin([Decimal(preference), host]);
    assert [Decimal(preference), host][1..] == [host];
    assert Join([Decimal(preference), host], ' ') == e.target.value;
    DecimalParses(preference, 65535);
  }

  lemma {:induction false} JoinOfFour(a: string, b: string, c: string, d: string)
    ensures Join([a, b, c, d], ' ') == a + " " + (b + " " + (c + " " + d))
  {
    assert [c, d][1..] == [d] && Join([c, d], ' ') == c + [' '] + d;
    assert [b, c, d][1..] == [c, d] && Join([b, c, d], ' ') == b + [' '] + (c + [' '] + d);
    assert [a, b, c, d][1..] == [b, c, d];
  }

  /** An SRV entry: priority, weight, port, then the host. */
  lemma {:induction false} SrvEntryIsRead(read: Readers, e: Entry, priority: nat, weight: nat, port: nat, host: string)
    requires Spells(e.recordType, "SRV") && priority <= 65535 && weight <= 65535 && port <= 65535 && SafeWord(host)
    requires e.target == Some(Decimal(priority) + " " + (Decimal(weight) + " " + (Decimal(port) + " " + host)))
    ensures Decode(read, e) == StaticRecord(e.name, Some(Srv(priority, weight, port, host)), e.ttl)
  {
    SpelledType(e.recordType, "SRV");
    var words := [Decimal(priority), Decimal(weight), Decimal(port), host];
    NumberIsWord(priority);
    NumberIsWord(weight);
    NumberIsWord(port);
    WordsInvertJoin(words);
    JoinOfFour(words[0], words[1], words[2], words[3]);
    DecimalParses(priority, 65535);
    DecimalParses(weight, 65535);
    DecimalParses(port, 65535);
  }

  /** The other types: the address field for A and AAAA, the whole target for the rest. */
  lemma {:induction false} AddressEntryIsRead(read: Readers, e: Entry, text: string)
    requires text != [] && e.address == Some(text)
    ensures Spells(e.recordType, "A") && read.v4(text).Some? ==> Decode(read, e).data == Some(A(read.v4(text).value))
    ensures Spells(e.recordType, "AAAA") && read.v6(text).Some? ==> Decode(read, e).data == Some(Aaaa(read.v6(text).value))
  {
    if Spells(e.recordType, "A") { SpelledType(e.recordType, "A"); }
    if Spells(e.recordType, "AAAA") { SpelledType(e.recordType, "AAAA"); }
  }

  /** The data that a target text stands for, by type. */
  predicate TextData(want: string, text: string, utf8: string -> seq<nat>, d: RecordData) {
    || (want == "CNAME" && d == Cname(text)) || (want == "PTR" && d == Ptr(text)) || (want == "NS" && d == Ns(text))
    || (want == "TXT" && ByteLen(text) <= 255 && d == Txt([utf8(text)]))
  }

  lemma {:induction false} TextEntryIsRead(read: Readers, e: Entry, want: string, text: string, d: RecordData)
    requires text != [] && e.target == Some(text) && Spells(e.recordType, want) && TextData(want, text, read.utf8, d)
    ensures Decode(read, e).data == Some(d)
  {
    SpelledType(e.recordType, want);
  }

  /** Looking up a configured service finds its priority, weight and port as they were written,
      and its host normalised. */
  lemma {:induction false} SrvEntryIsServed(read: Readers, config: seq<StaticRecord>, e: Entry, i: nat, priority: nat, weight: nat,
                                            port: nat, host: string, meshZone: string, declared: set<string>,
                                            mesh: Option<Bundle>, snap: Snapshot, out: Option<seq<DnsRecord>>)
    requires Spells(e.recordType, "SRV") && priority <= 65535 && weight <= 65535 && port <= 65535 && SafeWord(host)
    requires e.target == Some(Decimal(priority) + " " + (Decimal(weight) + " " + (Decimal(port) + " " + host)))
    requires i < |config| && config[i] == Decode(read, e) && KeyName(e.name)
    requires IsSnapshot(config, meshZone, declared, mesh, snap) && IsAnswer(meshZone, snap, Normalise(e.name), "SRV", out)
    ensures out.Some? && exists r :: && r in out.value && IsNormalOf(e.name, r.name) && r.data.Srv?
                                     && r.data.priority == priority && r.data.weight == weight && r.data.port == port
                                     && IsNormalOf(host, r.data.host) && r.ttl == if e.ttl == 0 then 300 else e.ttl
  {
    SrvEntryIsRead(read, e, priority, weight, port, host);
    ConfiguredDataIsServed(config, meshZone, declared, mesh, snap, i, "SRV", out);
  }
}
