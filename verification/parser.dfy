/** Blocklist content: format detection, the four line formats and domain validation. */
module BlocklistParser {
  import opened Names
  import opened Text
  import opened Casing
  import opened WordText

  const MAX_LINE_BYTES: nat := 512
  const MAX_DOMAIN_BYTES: nat := 253
  const MAX_LABEL_BYTES: nat := 63

  datatype ParsedEntry =
    | Exact(domain: string)
    | WildcardParent(domain: string)
    | Allow(domain: string)

  datatype ListFormat = Hosts | Plain | Rpz | AdGuard

  /** IP text parsing, which this model leaves open. */
  type IpTest = string -> bool

  // ---------------------------------------------------------------------------
  // Domain validation
  // ---------------------------------------------------------------------------

  predicate PrintableLower(c: char) { 0x20 <= c as int < 0x7f && !IsUpper(c) }

  predicate LabelFits(l: string) { 1 <= |l| <= 63 }

  /** A canonical domain (section 2.3.4 of RFC 1035): lowercase printable ASCII, at most 253
      bytes, labels of 1 to 63 bytes. */
  predicate WellFormedDomain(d: string) {
    && 1 <= |d| <= 253
    && (forall i :: 0 <= i < |d| ==> PrintableLower(d[i]))
    && (forall i :: 0 <= i < |Labels(d)| ==> LabelFits(Labels(d)[i]))
  }

  /** The guard against entries for a whole top-level domain. */
  predicate BelowTld(d: string) { |Labels(d)| >= 2 }

  predicate IsControlOrNonAscii(c: char) { (c as int) < 0x20 || (c as int) >= 0x7f }

  /** `validate_and_normalize`. */
  function ValidateDomain(s: string): (out: Option<string>)
    ensures out.Some? ==> WellFormedDomain(out.value)
  {
    var t := TrimDots(Trim(s));
    if t == [] then None
    else if exists i :: 0 <= i < |t| && IsControlOrNonAscii(t[i]) then None
    else
      var lower := Lower(t);
      if |lower| > MAX_DOMAIN_BYTES then None
      else if exists i :: 0 <= i < |Labels(lower)| && (|Labels(lower)[i]| > MAX_LABEL_BYTES || Labels(lower)[i] == []) then None
      else Some(lower)
  }

  lemma {:induction false} DotMeansTwoLabels(d: string)
    ensures BelowTld(d) <==> FirstIndex(d, '.') < |d|
  {
    SplitStep(d, '.');
  }

  /** `validate_block_entry` and `validate_allow_entry`: at least two labels. */
  function ValidateEntry(s: string): (out: Option<string>)
    ensures out.Some? ==> WellFormedDomain(out.value) && BelowTld(out.value)
  {
    var d := ValidateDomain(s);
    if d.None? then None
    else if FirstIndex(d.value, '.') == |d.value| then None
    else DotMeansTwoLabels(d.value); d
  }

  lemma {:induction false} PrintableBefore(t: string)
    requires forall i :: 0 <= i < |t| ==> PrintableLower(Lower(t)[i])
    ensures forall i :: 0 <= i < |t| ==> !IsControlOrNonAscii(t[i])
  {
    forall i | 0 <= i < |t| ensures !IsControlOrNonAscii(t[i]) { assert PrintableLower(Lower(t)[i]); }
  }

  lemma {:induction false} DomainTextIsAccepted(t: string)
    requires WellFormedDomain(Lower(t))
    ensures t != [] && forall i :: 0 <= i < |t| ==> !IsControlOrNonAscii(t[i])
  {
    PrintableBefore(t);
  }

  /** A text is accepted exactly when its trimmed lowercase form, without trailing dots, is a
      canonical domain, and that form is what is kept. */
  lemma {:induction false} DomainIsAcceptedIff(s: string, d: string)
    ensures ValidateDomain(s) == Some(d) <==> d == Lower(TrimDots(Trim(s))) && WellFormedDomain(d)
  {
    var t := TrimDots(Trim(s));
    if WellFormedDomain(Lower(t)) { DomainTextIsAccepted(t); }
  }

  lemma {:induction false} EntryIsAcceptedIff(s: string, d: string)
    ensures ValidateEntry(s) == Some(d) <==> d == Lower(TrimDots(Trim(s))) && WellFormedDomain(d) && BelowTld(d)
  {
    DomainIsAcceptedIff(s, d);
    DotMeansTwoLabels(d);
  }

  predicate AlwaysSkipped(d: string) {
    d in ["localhost", "broadcasthost", "local", "ip6-localhost", "ip6-loopback", "ip6-localnet",
          "ip6-mcastprefix", "ip6-allnodes", "ip6-allrouters", "ip6-allhosts"]
  }

  lemma {:induction false} SkippedNamesAreDotFree(d: string)
    requires AlwaysSkipped(d)
    ensures Free(d, '.')
  {
    assert Free("localhost", '.');
    assert Free("broadcasthost", '.');
    assert Free("local", '.');
    assert Free("ip6-localhost", '.');
    assert Free("ip6-loopback", '.');
    assert Free("ip6-localnet", '.');
    assert Free("ip6-mcastprefix", '.');
    assert Free("ip6-allnodes", '.');
    assert Free("ip6-allrouters", '.');
    assert Free("ip6-allhosts", '.');
  }

  /** The skip list changes nothing: the label guard already refuses everything on it. */
  lemma {:induction false} SkipListIsRedundant(s: string)
    ensures ValidateEntry(s).Some? ==> !AlwaysSkipped(ValidateEntry(s).value)
  {
    var d := ValidateEntry(s);
    if d.Some? && AlwaysSkipped(d.value) {
      SkippedNamesAreDotFree(d.value);
      SplitOfFree(d.value, '.');
    }
  }

  // ---------------------------------------------------------------------------
  // One line of each format
  // ---------------------------------------------------------------------------

  /** A validator of domain text: `ValidateEntry` in the parsers below. */
  type Validator = string -> Option<string>

  predicate GoodEntry(e: ParsedEntry) { WellFormedDomain(e.domain) && BelowTld(e.domain) }

  function StripComment(line: string, marker: char): string { line[..FirstIndex(line, marker)] }

  function Has(s: string, c: char): bool { FirstIndex(s, c) < |s| }

  /** A block entry for `text`, unless validation or the skip list refuses it. */
  function Block(validate: Validator, text: string): Option<string> {
    var d := validate(text);
    if d.Some? && !AlwaysSkipped(d.value) then d else None
  }

  function HostsEntries(validate: Validator, words: seq<string>): seq<ParsedEntry> {
    if words == [] then []
    else
      var d := Block(validate, words[0]);
      (if d.Some? then [Exact(d.value)] else []) + HostsEntries(validate, words[1..])
  }

  function HostsWords(validate: Validator, isIp: IpTest, words: seq<string>): seq<ParsedEntry> {
    if words == [] || !isIp(words[0]) then [] else HostsEntries(validate, words[1..])
  }

  function HostsLine(validate: Validator, isIp: IpTest, line: string): seq<ParsedEntry> {
    HostsWords(validate, isIp, Words(Trim(StripComment(line, '#'))))
  }

  function PlainText(validate: Validator, text: string): seq<ParsedEntry> {
    if text == [] || Has(text, ' ') || Has(text, '\t') then []
    else
      var d := Block(validate, text);
      if d.Some? then [Exact(d.value)] else []
  }

  function PlainLineEntries(validate: Validator, line: string): seq<ParsedEntry> {
    PlainText(validate, Trim(StripComment(StripComment(line, '#'), ';')))
  }

  function RpzEntries(validate: Validator, name: string, rdata: string): seq<ParsedEntry> {
    if rdata == "rpz-passthru." || rdata == "rpz-passthru" then
      var d := validate(name);
      if d.Some? then [Allow(d.value)] else []
    else if rdata == "." then
      if "*." <= name then
        var d := validate(name[2..]);
        if d.Some? then [WildcardParent(d.value)] else []
      else
        var d := Block(validate, name);
        if d.Some? then [Exact(d.value)] else []
    else []
  }

  function RpzWords(validate: Validator, words: seq<string>): seq<ParsedEntry> {
    if |words| < 3 || Lower(words[1]) != "cname" then []
    else RpzEntries(validate, words[0], FullLower(words[2]))
  }

  function RpzLine(validate: Validator, line: string): seq<ParsedEntry> {
    RpzWords(validate, Words(Trim(StripComment(StripComment(line, ';'), '#'))))
  }

  function AdGuardText(validate: Validator, text: string): seq<ParsedEntry> {
    if text == [] || text[0] == '!' || text[0] == '[' then []
    else if "@@||" <= text then
      var rest := text[4..];
      var caret := FirstIndex(rest, '^');
      var d := validate(rest[..caret]);
      if caret < |rest| && !Has(rest[..caret], '/') && d.Some? then [Allow(d.value)] else []
    else if "||" <= text then
      var rest := text[2..];
      var caret := FirstIndex(rest, '^');
      var d := Block(validate, rest[..caret]);
      if caret < |rest| && !Has(rest[..caret], '/') && d.Some?
      then [Exact(d.value), WildcardParent(d.value)] else []
    else []
  }

  function AdGuardLine(validate: Validator, line: string): seq<ParsedEntry> { AdGuardText(validate, Trim(line)) }

  /** The entries of one line; over-long lines contribute nothing. */
  function LineEntries(format: ListFormat, validate: Validator, isIp: IpTest, line: string): seq<ParsedEntry> {
    if ByteLen(line) > MAX_LINE_BYTES then []
    else match format
      case Hosts => HostsLine(validate, isIp, line)
      case Plain => PlainLineEntries(validate, line)
      case Rpz => RpzLine(validate, line)
      case AdGuard => AdGuardLine(validate, line)
  }

  /** `validate` accepts only canonical domains below a top-level domain. */
  ghost predicate Strict(validate: Validator) {
    forall s :: validate(s).Some? ==> WellFormedDomain(validate(s).value) && BelowTld(validate(s).value)
  }

  predicate AllGood(es: seq<ParsedEntry>) { forall i :: 0 <= i < |es| ==> GoodEntry(es[i]) }

  lemma {:induction false} HostsEntriesGood(validate: Validator, words: seq<string>)
    requires Strict(validate)
    ensures AllGood(HostsEntries(validate, words))
  {
    if words != [] { HostsEntriesGood(validate, words[1..]); }
  }

  lemma {:induction false} HostsLineGood(validate: Validator, isIp: IpTest, line: string)
    requires Strict(validate)
    ensures AllGood(HostsLine(validate, isIp, line))
  {
    var words := Words(Trim(StripComment(line, '#')));
    if words != [] { HostsEntriesGood(validate, words[1..]); }
  }

  lemma {:induction false} PlainLineGood(validate: Validator, line: string)
    requires Strict(validate)
    ensures AllGood(PlainLineEntries(validate, line))
  {
  }

  lemma {:induction false} RpzEntriesGood(validate: Validator, name: string, rdata: string)
    requires Strict(validate)
    ensures AllGood(RpzEntries(validate, name, rdata))
  {
  }

  lemma {:induction false} RpzLineGood(validate: Validator, line: string)
    requires Strict(validate)
    ensures AllGood(RpzLine(validate, line))
  {
    var words := Words(Trim(StripComment(StripComment(line, ';'), '#')));
    if |words| >= 3 { RpzEntriesGood(validate, words[0], FullLower(words[2])); }
  }

  lemma {:induction false} AdGuardLineGood(validate: Validator, line: string)
    requires Strict(validate)
    ensures AllGood(AdGuardLine(validate, line))
  {
  }

  /** Whatever the line and the format, every entry is canonical. */
  lemma {:induction false} LineEntriesGood(format: ListFormat, validate: Validator, isIp: IpTest, line: string)
    requires Strict(validate)
    ensures AllGood(LineEntries(format, validate, isIp, line))
  {
    match format
    case Hosts => HostsLineGood(validate, isIp, line);
    case Plain => PlainLineGood(validate, line);
    case Rpz => RpzLineGood(validate, line);
    case AdGuard => AdGuardLineGood(validate, line);
  }

  // ---------------------------------------------------------------------------
  // Whole contents
  // ---------------------------------------------------------------------------

  predicate IsSkipped(text: string) {
    text == [] || text[0] == '#' || text[0] == ';' || text[0] == '!' || text[0] == '['
  }

  const RECORD_TYPES: seq<string> := ["cname", "a", "aaaa", "txt", "soa", "ns"]

  /** What a trimmed line of `words` says about the format; None for blank lines and comments. */
  function ClassifyText(isIp: IpTest, text: string, words: seq<string>): Option<ListFormat> {
    if IsSkipped(text) then None
    else if ("||" <= text || "@@||" <= text) && Has(text, '^') then Some(AdGuard)
    else if |words| >= 3 && Lower(words[1]) in RECORD_TYPES then Some(Rpz)
    else if |words| >= 2 && isIp(words[0]) then Some(Hosts)
    else Some(Plain)
  }

  function Classify(isIp: IpTest, line: string): Option<ListFormat> {
    ClassifyText(isIp, Trim(line), Words(Trim(line)))
  }

  type Classifier = string -> Option<ListFormat>

  /** `detect_format`: the first telling line decides; none means plain. */
  function FirstFormat(classify: Classifier, lines: seq<string>): (out: ListFormat)
    ensures (exists k :: 0 <= k < |lines| && classify(lines[k]).Some?) ==>
              exists k :: 0 <= k < |lines| && classify(lines[k]) == Some(out)
                          && forall i :: 0 <= i < k ==> classify(lines[i]).None?
    ensures (forall k :: 0 <= k < |lines| ==> classify(lines[k]).None?) ==> out == Plain
  {
    if lines == [] then Plain
    else if classify(lines[0]).Some? then classify(lines[0]).value
    else
      assert forall i :: 0 < i < |lines| ==> lines[i] == lines[1..][i - 1];
      FirstFormat(classify, lines[1..])
  }

  type LineReader = string -> seq<ParsedEntry>

  /** The entries of all lines, in order. */
  function Collect(read: LineReader, lines: seq<string>): seq<ParsedEntry> {
    if lines == [] then [] else Collect(read, lines[..|lines| - 1]) + read(lines[|lines| - 1])
  }

  lemma {:induction false} CollectGood(read: LineReader, lines: seq<string>)
    requires forall l :: AllGood(read(l))
    ensures AllGood(Collect(read, lines))
  {
    if lines != [] { CollectGood(read, lines[..|lines| - 1]); }
  }

  const VALIDATOR: Validator := s => ValidateEntry(s)

  function ClassifierFor(isIp: IpTest): Classifier { l => Classify(isIp, l) }

  function ReaderFor(isIp: IpTest, format: ListFormat): LineReader { l => LineEntries(format, VALIDATOR, isIp, l) }

  /** What `parse` returns for a content. */
  function Parsed(isIp: IpTest, content: string): seq<ParsedEntry> {
    var lines := Lines(content);
    var format := FirstFormat(ClassifierFor(isIp), lines);
    Collect(ReaderFor(isIp, format), lines)
  }

  /** The loop shared by the four format parsers. */
  method CollectEntries(read: LineReader, lines: seq<string>) returns (entries: seq<ParsedEntry>)
    ensures entries == Collect(read, lines)
  {
    entries := [];
    for n := 0 to |lines|
      invariant entries == Collect(read, lines[..n])
    {
      assert lines[..n + 1][..n] == lines[..n];
      entries := entries + read(lines[n]);
    }
    assert lines[..|lines|] == lines;
  }

  lemma {:induction false} ValidateEntryIsStrict()
    ensures Strict(VALIDATOR)
  {
  }

  lemma {:induction false} ReaderIsGood(isIp: IpTest, format: ListFormat)
    ensures forall l :: AllGood(ReaderFor(isIp, format)(l))
  {
    ValidateEntryIsStrict();
    forall l ensures AllGood(ReaderFor(isIp, format)(l)) { LineEntriesGood(format, VALIDATOR, isIp, l); }
  }

  /** Whatever a source contains and whichever format is detected, every parsed entry is
      lowercase printable ASCII, at most 253 bytes, with at least two labels of 1 to 63
      bytes each. */
  lemma {:induction false} ParsedEntriesAreCanonical(isIp: IpTest, content: string)
    ensures AllGood(Parsed(isIp, content))
  {
    var lines := Lines(content);
    var format := FirstFormat(ClassifierFor(isIp), lines);
    ReaderIsGood(isIp, format);
    CollectGood(ReaderFor(isIp, format), lines);
  }
}
