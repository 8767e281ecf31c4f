/** From the text of a blocklist to the verdict on a name: what a printed list blocks and
    exempts once it is parsed and loaded. */
module BlocklistEffect {
  import opened Names
  import opened Text
  import opened BlocklistParser
  import opened BlocklistText
  import opened BlocklistNotes
  import opened BlocklistEngine

  /** Does a rule ask to block `domain`?  Hosts, plain and RPZ rules name one domain, an RPZ
      wildcard the names below it, and an AdGuard rule the domain and all names below it. */
  predicate Targets(r: Rule, domain: string) {
    match r
    case HostsRule(_, names) => domain in names
    case PlainRule(d) => domain == d
    case RpzBlock(d) => domain == d
    case RpzBlockBelow(d) => Under(domain, d)
    case AdGuardBlock(d) => Within(domain, d)
    case RpzAllow(_) | AdGuardAllow(_) => false
  }

  /** Does a rule ask to exempt `domain`? */
  predicate Frees(r: Rule, domain: string) { (r.RpzAllow? || r.AdGuardAllow?) && r.name == domain }

  /** The same two questions about parsed entries. */
  ghost predicate EntriesBlock(es: seq<ParsedEntry>, domain: string) {
    domain in ExactIn(es) || exists p :: Under(domain, p) && p in ParentsIn(es)
  }

  predicate EntriesFree(es: seq<ParsedEntry>, domain: string) { domain in AllowsIn(es) }

  lemma {:induction false} EntriesAddUp(a: seq<ParsedEntry>, b: seq<ParsedEntry>, domain: string)
    ensures EntriesBlock(a + b, domain) <==> EntriesBlock(a, domain) || EntriesBlock(b, domain)
    ensures EntriesFree(a + b, domain) <==> EntriesFree(a, domain) || EntriesFree(b, domain)
  {
    assert ExactIn(a + b) == ExactIn(a) + ExactIn(b);
    assert ParentsIn(a + b) == ParentsIn(a) + ParentsIn(b);
    assert AllowsIn(a + b) == AllowsIn(a) + AllowsIn(b);
  }

  lemma {:induction false} ExactEntries(names: seq<string>)
    ensures ExactIn(ExactAll(names)) == Members(names)
    ensures ParentsIn(ExactAll(names)) == {} && AllowsIn(ExactAll(names)) == {}
  {
    forall n | n in names ensures n in ExactIn(ExactAll(names)) {
      var i :| 0 <= i < |names| && names[i] == n;
      assert ExactAll(names)[i] == Exact(n);
    }
  }

  lemma {:induction false} OneEntry(e: ParsedEntry)
    ensures ExactIn([e]) == if e.Exact? then {e.domain} else {}
    ensures ParentsIn([e]) == if e.WildcardParent? then {e.domain} else {}
    ensures AllowsIn([e]) == if e.Allow? then {e.domain} else {}
  {
    assert e in [e];
  }

  lemma {:induction false} OneEntryEffect(e: ParsedEntry, domain: string)
    ensures EntriesBlock([e], domain)
            <==> (e.Exact? && domain == e.domain) || (e.WildcardParent? && Under(domain, e.domain))
    ensures EntriesFree([e], domain) <==> e.Allow? && domain == e.domain
  {
    OneEntry(e);
  }

  lemma {:induction false} RuleEffect(r: Rule, domain: string)
    ensures EntriesBlock(Meaning(r), domain) <==> Targets(r, domain)
    ensures EntriesFree(Meaning(r), domain) <==> Frees(r, domain)
  {
    match r
    case HostsRule(_, names) => ExactEntries(names);
    case AdGuardBlock(d) =>
      assert Meaning(r) == [Exact(d)] + [WildcardParent(d)];
      EntriesAddUp([Exact(d)], [WildcardParent(d)], domain);
      OneEntryEffect(Exact(d), domain);
      OneEntryEffect(WildcardParent(d), domain);
      WithinReflexive(d);
    case _ => OneEntryEffect(Meaning(r)[0], domain);
  }

  lemma {:induction false} RulesEffect(rules: seq<Rule>, domain: string)
    ensures EntriesBlock(Meanings(rules), domain) <==> exists r :: r in rules && Targets(r, domain)
    ensures EntriesFree(Meanings(rules), domain) <==> exists r :: r in rules && Frees(r, domain)
  {
    forall a, b ensures (EntriesBlock(a + b, domain) <==> EntriesBlock(a, domain) || EntriesBlock(b, domain))
                     && (EntriesFree(a + b, domain) <==> EntriesFree(a, domain) || EntriesFree(b, domain))
    {
      EntriesAddUp(a, b, domain);
    }
    forall r: Rule ensures (EntriesBlock(Meaning(r), domain) <==> Targets(r, domain))
                        && (EntriesFree(Meaning(r), domain) <==> Frees(r, domain))
    {
      RuleEffect(r, domain);
    }
    EffectAddsUp(rules, (r: Rule) => Targets(r, domain), (es: seq<ParsedEntry>) => EntriesBlock(es, domain));
    EffectAddsUp(rules, (r: Rule) => Frees(r, domain), (es: seq<ParsedEntry>) => EntriesFree(es, domain));
  }

  /** What holds of each rule's entries and of concatenations holds of whole lists. */
  lemma {:induction false} EffectAddsUp(rules: seq<Rule>, asks: Rule -> bool, does: seq<ParsedEntry> -> bool)
    requires !does([]) && forall a, b :: does(a + b) <==> does(a) || does(b)
    requires forall r :: does(Meaning(r)) <==> asks(r)
    ensures does(Meanings(rules)) <==> exists r :: r in rules && asks(r)
  {
    if rules != [] {
      var front, r := rules[..|rules| - 1], rules[|rules| - 1];
      EffectAddsUp(front, asks, does);
      assert rules == front + [r];
    }
  }

  /** The only source of an engine. */
  lemma {:induction false} OneSource(parse: Parser, s: Source)
    ensures DomainsOf(parse, [s]) == ExactIn(parse(s.content)) && ParentsOf(parse, [s]) == ParentsIn(parse(s.content))
    ensures TrustedAllows(parse, [s]) == if s.trusted then AllowsIn(parse(s.content)) else {}
  {
    SourceSnoc(parse, [], s);
    assert [] + [s] == [s];
  }

  /** `key` keeps the names of the passthru entries. */
  predicate KeepsKeys(key: string -> string, names: set<string>) { forall d :: d in names ==> d != [] && key(d) == d }

  lemma {:induction false} SourceVerdict(parse: Parser, key: string -> string, base: Allowlist, s: Source,
                                         st: BlocklistState, regex: Regex, domain: string)
    requires Holds(parse, key, base, [s], st) && KeepsKeys(key, AllowsIn(parse(s.content)))
    ensures Blocked(st, regex, domain) <==>
              && domain != [] && !Exempt(base, domain) && !(s.trusted && EntriesFree(parse(s.content), domain))
              && (EntriesBlock(parse(s.content), domain) || regex(domain))
  {
    OneSource(parse, s);
    var allows := AllowsIn(parse(s.content));
    assert KeysOf(key, allows) == allows;
    assert KeysOf(key, {}) == {};
  }

  lemma {:induction false} HostNameIsItsKey(d: string)
    requires HostName(d)
    ensures d != [] && PassthruKey(d) == d
  {
    TrimOfTrimmed(d);
    NoTrailingDot(d);
    TrimDotsUnique(d, |d|);
    assert d[..|d|] == d;
    FullLowerKeeps(d);
  }

  lemma {:induction false} FreedNamesAreKeys(isIp: IpTest, rules: seq<Rule>, key: string -> string)
    requires forall i :: 0 <= i < |rules| ==> Printable(isIp, rules[i])
    requires forall d :: HostName(d) ==> d != [] && key(d) == d
    ensures KeepsKeys(key, AllowsIn(Meanings(rules)))
  {
    forall d | d in AllowsIn(Meanings(rules)) ensures d != [] && key(d) == d {
      RulesEffect(rules, d);
      assert EntriesFree(Meanings(rules), d);
      var r :| r in rules && Frees(r, d);
      assert HostName(d);
    }
  }

  /** The engine's own parser and passthru key. */
  function ParserFor(isIp: IpTest): Parser { c => Parsed(isIp, c) }

  const PASSTHRU_KEY: string -> string := e => PassthruKey(e)

  /** No list, whatever its text, can take out a whole second level: in any engine loaded from
      any sources, a name of at most two labels is blocked only if some source lists it exactly
      or a regex matches it. */
  lemma {:induction false} SecondLevelNeedsExactEntry(isIp: IpTest, base: Allowlist, regex: Regex, sources: seq<Source>,
                                                      st: BlocklistState, domain: string)
    requires Holds(ParserFor(isIp), PASSTHRU_KEY, base, sources, st)
    requires |Labels(domain)| <= 2 && Blocked(st, regex, domain)
    ensures domain in DomainsOf(ParserFor(isIp), sources) || regex(domain)
  {
    forall c ensures AllGood(ParserFor(isIp)(c)) { ParsedEntriesAreCanonical(isIp, c); }
    TwoLabelNameNeedsExactEntry(ParserFor(isIp), PASSTHRU_KEY, base, regex, sources, st, domain);
  }

  lemma {:induction false} PublishedRulesArePrintable(isIp: IpTest, format: ListFormat, ls: seq<ListLine>)
    requires forall i :: 0 <= i < |ls| ==> GoodLine(isIp, format, ls[i])
    ensures forall i :: 0 <= i < |RulesIn(ls)| ==> Printable(isIp, RulesIn(ls)[i])
  {
    if ls != [] { PublishedRulesArePrintable(isIp, format, ls[..|ls| - 1]); }
  }

  /** The verdict after loading one published list, with its comments: a name is blocked exactly
      when a rule (or the operator's regex set) targets it and neither the operator's allowlist
      nor, if the source is trusted, an exception of the list itself exempts it. */
  lemma {:induction false} PublishedListVerdict(isIp: IpTest, format: ListFormat, ls: seq<ListLine>, content: string, trusted: bool,
                                                base: Allowlist, st: BlocklistState, regex: Regex, domain: string)
    requires Publishes(isIp, format, ls, content)
    requires Holds(ParserFor(isIp), PASSTHRU_KEY, base, [Source(content, trusted)], st)
    ensures var rules := RulesIn(ls);
            Blocked(st, regex, domain) <==>
              && domain != [] && !Exempt(base, domain)
              && !(trusted && exists r :: r in rules && Frees(r, domain))
              && ((exists r :: r in rules && Targets(r, domain)) || regex(domain))
  {
    var s, rules := Source(content, trusted), RulesIn(ls);
    ParseInvertsPublish(isIp, format, ls, content);
    assert ParserFor(isIp)(s.content) == Meanings(rules);
    forall d | HostName(d) ensures d != [] && PASSTHRU_KEY(d) == d { HostNameIsItsKey(d); }
    PublishedRulesArePrintable(isIp, format, ls);
    FreedNamesAreKeys(isIp, rules, PASSTHRU_KEY);
    SourceVerdict(ParserFor(isIp), PASSTHRU_KEY, base, s, st, regex, domain);
    RulesEffect(rules, domain);
  }
}
