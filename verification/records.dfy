/** The in-memory resource record shared by the authority and the resolver. */
module Records {
  import opened Names
  import opened Casing

  datatype RecordData =
    | A(ip4: nat)
    | Aaaa(ip6: nat)
    | Cname(target: string)
    | Ptr(ptr: string)
    | Txt(parts: seq<seq<nat>>)
    | Mx(preference: nat, exchange: string)
    | Ns(server: string)
    | Srv(priority: nat, weight: nat, port: nat, host: string)

  function TypeName(d: RecordData): string {
    match d
    case A(_) => "A"
    case Aaaa(_) => "AAAA"
    case Cname(_) => "CNAME"
    case Ptr(_) => "PTR"
    case Txt(_) => "TXT"
    case Mx(_, _) => "MX"
    case Ns(_) => "NS"
    case Srv(_, _, _, _) => "SRV"
  }

  /** Does a question for the type `want` ask for records with this data? */
  predicate AsksFor(want: string, d: RecordData) {
    || (want == "A" && d.A?) || (want == "AAAA" && d.Aaaa?) || (want == "CNAME" && d.Cname?) || (want == "PTR" && d.Ptr?)
    || (want == "TXT" && d.Txt?) || (want == "MX" && d.Mx?) || (want == "NS" && d.Ns?) || (want == "SRV" && d.Srv?)
  }

  lemma {:induction false} TypeNameIff(want: string, d: RecordData)
    ensures TypeName(d) == want <==> AsksFor(want, d)
  {
  }

  datatype DnsRecord = DnsRecord(name: string, data: RecordData, ttl: nat, meshNode: Option<string>)

  /** The owner name that `DnsRecord::new` stores: in full lowercase, with a final dot. */
  function OwnerName(name: string): string {
    var n := FullLower(name);
    if EndsWith(n, ".") then n else n + "."
  }

  lemma {:induction false} DottedEnd(s: string)
    ensures EndsWith(s, ".") <==> s != [] && s[|s| - 1] == '.'
  {
    if s != [] { assert s[|s| - 1..] == [s[|s| - 1]]; }
  }

  /** The final dot is added exactly to a name without one; the first character is white space
      exactly in a name that starts with white space. */
  lemma {:induction false} OwnerNameText(name: string)
    ensures OwnerName(name) == FullLower(name) + (if EndsWith(name, ".") then "" else ".")
    ensures OwnerName(name) != [] && (IsWhitespace(OwnerName(name)[0]) <==> name != [] && IsWhitespace(name[0]))
  {
    DottedEnd(name);
    DottedEnd(FullLower(name));
    if name != [] { FullLowerEnds(name); }
  }

  /** A stored owner is lowercase in every script. */
  lemma {:induction false} OwnerIsSettled(name: string)
    ensures AllSettled(OwnerName(name)) && Lower(OwnerName(name)) == OwnerName(name) && EndsWith(OwnerName(name), ".")
  {
    FullLowerIsSettled(name);
    assert LawfulAt(UNICODE.low, '.');
    SettledIsLower(OwnerName(name));
    DottedEnd(OwnerName(name));
  }

  function NewRecord(name: string, data: RecordData, ttl: nat): DnsRecord {
    DnsRecord(OwnerName(name), data, ttl, None)
  }
}
