/** Printed blocklists: every rule that the four formats can spell, and the proof that the
    parser reads a printed list back as exactly the entries its rules mean. */
module BlocklistText {
  import opened Names
  import opened Text
  import opened Casing
  import opened WordText
  import opened BlocklistParser

  // ---------------------------------------------------------------------------
  // Lines
  // ---------------------------------------------------------------------------

  /** A line of words has no comment, no ragged end and no multi-byte character. */
  lemma {:induction false} SafeLineIsKept(s: string)
    requires SafeLine(s)
    ensures StripComment(s, '#') == s && StripComment(s, ';') == s
    ensures Trim(s) == s && ByteLen(s) == |s| && PlainLine(s)
  {
    FirstIndexUnique(s, '#', |s|);
    FirstIndexUnique(s, ';', |s|);
    TrimOfTrimmed(s);
    ByteLenOfAscii(s);
    assert s[|s| - 1..][0] == s[|s| - 1];
  }

  // ---------------------------------------------------------------------------
  // Domains
  // ---------------------------------------------------------------------------

  predicate HostChar(c: char) { 'a' <= c <= 'z' || '0' <= c <= '9' || c == '-' || c == '_' || c == '.' }

  predicate HostText(d: string) { forall i :: 0 <= i < |d| ==> HostChar(d[i]) }

  /** A host name in the form the engine stores. */
  predicate HostName(d: string) { HostText(d) && WellFormedDomain(d) && BelowTld(d) }

  lemma {:induction false} NoTrailingDot(d: string)
    requires WellFormedDomain(d)
    ensures d[|d| - 1] != '.'
  {
    var ls := Labels(d);
    assert LabelFits(ls[|ls| - 1]);
    var front := d[..|d| - 1];
    SplitAppend(front, '.', "");
    assert d[|d| - 1] == '.' ==> d == front + ['.'] + "";
  }

  lemma {:induction false} FullLowerKeeps(d: string)
    requires IsAscii(d) && !HasUpper(d)
    ensures FullLower(d) == d
  {
    LowerKeeps(d);
    AsciiIsPlainCase(d);
  }

  /** Validation keeps a host name that is already canonical, and no skip list refuses it. */
  lemma {:induction false} HostNameIsAccepted(d: string)
    requires HostName(d)
    ensures ValidateEntry(d) == Some(d) && !AlwaysSkipped(d)
  {
    TrimOfTrimmed(d);
    NoTrailingDot(d);
    TrimDotsUnique(d, |d|);
    assert d[..|d|] == d;
    LowerKeeps(d);
    DotMeansTwoLabels(d);
    SkipListIsRedundant(d);
  }

  // ---------------------------------------------------------------------------
  // Rules
  // ---------------------------------------------------------------------------

  datatype Rule =
    | HostsRule(ip: string, names: seq<string>)
    | PlainRule(name: string)
    | RpzBlock(name: string)
    | RpzBlockBelow(name: string)
    | RpzAllow(name: string)
    | AdGuardBlock(name: string)
    | AdGuardAllow(name: string)

  function FormatOf(r: Rule): ListFormat {
    match r
    case HostsRule(_, _) => Hosts
    case PlainRule(_) => Plain
    case RpzBlock(_) | RpzBlockBelow(_) | RpzAllow(_) => Rpz
    case AdGuardBlock(_) | AdGuardAllow(_) => AdGuard
  }

  /** The words of a printed rule. */
  function RuleWords(r: Rule): seq<string> {
    match r
    case HostsRule(ip, names) => [ip] + names
    case PlainRule(d) => [d]
    case RpzBlock(d) => [d, "CNAME", "."]
    case RpzBlockBelow(d) => ["*." + d, "CNAME", "."]
    case RpzAllow(d) => [d, "CNAME", "rpz-passthru."]
    case AdGuardBlock(d) => ["||" + d + "^"]
    case AdGuardAllow(d) => ["@@||" + d + "^"]
  }

  function PrintRule(r: Rule): string { Join(RuleWords(r), ' ') }

  function ExactAll(names: seq<string>): seq<ParsedEntry> {
    seq(|names|, i requires 0 <= i < |names| => Exact(names[i]))
  }

  /** What a rule asks for, format by format. */
  function Meaning(r: Rule): seq<ParsedEntry> {
    match r
    case HostsRule(_, names) => ExactAll(names)
    case PlainRule(d) => [Exact(d)]
    case RpzBlock(d) => [Exact(d)]
    case RpzBlockBelow(d) => [WildcardParent(d)]
    case RpzAllow(d) => [Allow(d)]
    case AdGuardBlock(d) => [Exact(d), WildcardParent(d)]
    case AdGuardAllow(d) => [Allow(d)]
  }

  predicate IpChar(c: char) {
    '0' <= c <= '9' || 'a' <= c <= 'f' || 'A' <= c <= 'F' || c == '.' || c == ':'
  }

  predicate IpText(s: string) { s != [] && forall i :: 0 <= i < |s| ==> IpChar(s[i]) }

  /** A rule that fits on a line. */
  predicate Printable(isIp: IpTest, r: Rule) {
    && |PrintRule(r)| <= 512
    && match r
       case HostsRule(ip, names) =>
         IpText(ip) && isIp(ip) && names != [] && forall i :: 0 <= i < |names| ==> HostName(names[i])
       case _ => HostName(r.name)
  }

  /** The first character of a printed rule starts neither a comment nor a header. */
  predicate Leads(w: string) { w != [] && w[0] != '!' && w[0] != '[' }

  predicate LeadingWord(w: string) { SafeWord(w) && Leads(w) }

  lemma {:induction false} HostNameIsWord(d: string)
    requires HostText(d) && d != []
    ensures LeadingWord(d)
  {
    assert HostChar(d[0]);
  }

  lemma {:induction false} IpTextIsWord(ip: string)
    requires IpText(ip)
    ensures LeadingWord(ip)
  {
    assert IpChar(ip[0]);
  }

  predicate MadeOfWords(r: Rule) {
    match r
    case HostsRule(ip, names) => LeadingWord(ip) && forall i :: 0 <= i < |names| ==> LeadingWord(names[i])
    case _ => LeadingWord(r.name)
  }

  lemma {:induction false} RuleIsMadeOfWords(isIp: IpTest, r: Rule)
    requires Printable(isIp, r)
    ensures MadeOfWords(r)
  {
    match r
    case HostsRule(ip, names) =>
      IpTextIsWord(ip);
      forall i | 0 <= i < |names| ensures LeadingWord(names[i]) { HostNameIsWord(names[i]); }
    case _ => HostNameIsWord(r.name);
  }

  lemma {:induction false} RpzWordsAreSafe()
    ensures SafeWord("CNAME") && SafeWord(".") && SafeWord("rpz-passthru.")
  {
  }

  lemma {:induction false} RuleWordsAreSafe(r: Rule)
    requires MadeOfWords(r)
    ensures SafeWords(RuleWords(r)) && Leads(RuleWords(r)[0])
  {
    RpzWordsAreSafe();
    match r
    case HostsRule(ip, names) => assert forall i :: 0 < i <= |names| ==> RuleWords(r)[i] == names[i - 1];
    case RpzBlockBelow(d) => assert SafeWord("*." + d);
    case AdGuardBlock(d) => assert SafeWord("||" + d + "^");
    case AdGuardAllow(d) => assert SafeWord("@@||" + d + "^");
    case _ =>
  }

  /** A printed rule reaches the parsers as its own words. */
  lemma {:induction false} PrintedRule(isIp: IpTest, r: Rule)
    requires Printable(isIp, r)
    ensures var line := PrintRule(r);
            && SafeLine(line) && line[0] == RuleWords(r)[0][0] && Leads(line)
            && Words(line) == RuleWords(r)
            && StripComment(line, '#') == line && StripComment(line, ';') == line && Trim(line) == line
            && ByteLen(line) <= MAX_LINE_BYTES && PlainLine(line)
  {
    RuleIsMadeOfWords(isIp, r);
    RuleWordsAreSafe(r);
    JoinedWordsAreSafe(RuleWords(r));
    WordsInvertJoin(RuleWords(r));
    SafeLineIsKept(PrintRule(r));
  }

  lemma {:induction false} HostNameIsNoType(d: string)
    requires HostName(d)
    ensures Lower(d) !in RECORD_TYPES
  {
    LowerKeeps(d);
    DotMeansTwoLabels(d);
    assert d[FirstIndex(d, '.')] == '.';
    assert forall t :: t in RECORD_TYPES ==> Free(t, '.');
  }

  lemma {:induction false} CaretIsFound(prefix: string, d: string)
    ensures Has(prefix + d + "^", '^')
  {
    var s := prefix + d + "^";
    assert s[|s| - 1] == '^';
  }

  /** The words of a rule tell its format. */
  lemma {:induction false} RuleIsClassified(isIp: IpTest, r: Rule, text: string)
    requires Printable(isIp, r) && Leads(text) && SafeChar(text[0])
    requires text[0] == RuleWords(r)[0][0]
    requires FormatOf(r) == AdGuard ==> text == RuleWords(r)[0]
    ensures ClassifyText(isIp, text, RuleWords(r)) == Some(FormatOf(r))
  {
    match r
    case HostsRule(ip, names) => HostNameIsNoType(names[0]); assert IpChar(ip[0]);
    case PlainRule(d) => assert HostChar(d[0]);
    case RpzBlock(d) => assert HostChar(d[0]) && Lower("CNAME") == RECORD_TYPES[0];
    case RpzBlockBelow(d) => assert Lower("CNAME") == RECORD_TYPES[0];
    case RpzAllow(d) => assert HostChar(d[0]) && Lower("CNAME") == RECORD_TYPES[0];
    case AdGuardBlock(d) => CaretIsFound("||", d);
    case AdGuardAllow(d) => CaretIsFound("@@||", d);
  }

  /** `validate` accepts `d` as it is. */
  predicate Keeps(validate: Validator, d: string) { validate(d) == Some(d) && !AlwaysSkipped(d) }

  predicate KeepsNames(validate: Validator, r: Rule) {
    match r
    case HostsRule(_, names) => forall i :: 0 <= i < |names| ==> Keeps(validate, names[i])
    case _ => Keeps(validate, r.name)
  }

  lemma {:induction false} HostsNamesAreRead(validate: Validator, names: seq<string>)
    requires forall i :: 0 <= i < |names| ==> Keeps(validate, names[i])
    ensures HostsEntries(validate, names) == ExactAll(names)
  {
    if names != [] {
      HostsNamesAreRead(validate, names[1..]);
      assert ExactAll(names) == [Exact(names[0])] + ExactAll(names[1..]);
    }
  }

  lemma {:induction false} HostsRuleIsRead(validate: Validator, isIp: IpTest, r: Rule)
    requires r.HostsRule? && Printable(isIp, r) && KeepsNames(validate, r)
    ensures HostsLine(validate, isIp, PrintRule(r)) == Meaning(r)
  {
    PrintedRule(isIp, r);
    HostsNamesAreRead(validate, r.names);
    assert RuleWords(r)[1..] == r.names;
  }

  lemma {:induction false} PlainNameIsRead(validate: Validator, d: string)
    requires HostText(d) && d != [] && Keeps(validate, d)
    ensures PlainText(validate, d) == [Exact(d)]
  {
  }

  lemma {:induction false} PlainRuleIsRead(validate: Validator, isIp: IpTest, r: Rule)
    requires r.PlainRule? && Printable(isIp, r) && KeepsNames(validate, r)
    ensures PlainLineEntries(validate, PrintRule(r)) == Meaning(r)
  {
    PrintedRule(isIp, r);
    PlainNameIsRead(validate, r.name);
  }

  lemma {:induction false} RpzWordsAreRead(validate: Validator, r: Rule)
    requires FormatOf(r) == Rpz && HostText(r.name) && r.name != [] && Keeps(validate, r.name)
    ensures RpzWords(validate, RuleWords(r)) == Meaning(r)
  {
    var d := r.name;
    assert Lower("CNAME") == "cname";
    match r
    case RpzBlock(_) => assert HostChar(d[0]); FullLowerKeeps(".");
    case RpzBlockBelow(_) => assert ("*." + d)[2..] == d; FullLowerKeeps(".");
    case RpzAllow(_) => FullLowerKeeps("rpz-passthru.");
  }

  lemma {:induction false} RpzRuleIsRead(validate: Validator, isIp: IpTest, r: Rule)
    requires FormatOf(r) == Rpz && Printable(isIp, r) && KeepsNames(validate, r)
    ensures RpzLine(validate, PrintRule(r)) == Meaning(r)
  {
    PrintedRule(isIp, r);
    RpzWordsAreRead(validate, r);
  }

  // ---------------------------------------------------------------------------
  // Whole lists
  // ---------------------------------------------------------------------------

  function Meanings(rules: seq<Rule>): seq<ParsedEntry> {
    if rules == [] then [] else Meanings(rules[..|rules| - 1]) + Meaning(rules[|rules| - 1])
  }

  lemma {:induction false} NamesAreKept(isIp: IpTest, r: Rule)
    requires Printable(isIp, r)
    ensures KeepsNames(VALIDATOR, r)
  {
    match r
    case HostsRule(_, names) =>
      forall i | 0 <= i < |names| ensures Keeps(VALIDATOR, names[i]) { HostNameIsAccepted(names[i]); }
    case _ => HostNameIsAccepted(r.name);
  }
}
