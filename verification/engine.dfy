/** The blocklist engine: allowlist, state building under source trust, and the suffix walks
    of the query path. */
module BlocklistEngine {
  import opened Names
  import opened Text
  import opened Casing
  import opened BlocklistParser

  // ---------------------------------------------------------------------------
  // Label-suffix walks
  // ---------------------------------------------------------------------------

  /** `parent` is a proper label suffix of `domain`. */
  predicate Under(domain: string, parent: string) { Within(domain, parent) && parent != domain }

  lemma {:induction false} SameLabelsSameName(a: string, b: string)
    requires Labels(a) == Labels(b)
    ensures a == b
  {
    JoinSplit(a, '.');
    JoinSplit(b, '.');
  }

  lemma {:induction false} DropTwice<T>(r: seq<T>, k: nat)
    requires k + 1 <= |r|
    ensures r[1..][k..] == r[k + 1..]
  {
  }

  lemma {:induction false} SuffixStep<T>(p: seq<T>, r: seq<T>)
    requires r != []
    ensures IsSuffix(p, r) <==> p == r || IsSuffix(p, r[1..])
    ensures IsSuffix(p, r[1..]) ==> |p| < |r|
  {
    if |p| < |r| {
      DropTwice(r, |r| - 1 - |p|);
    } else if |p| == |r| {
      assert r[0..] == r;
    }
  }

  lemma {:induction false} WalkLabels(rest: string, parent: string, tail: string)
    requires Labels(rest)[1..] == Labels(tail)
    ensures Within(rest, parent) <==> Labels(parent) == Labels(rest) || Within(tail, parent)
    ensures Within(tail, parent) ==> parent != rest
  {
    SuffixStep(Labels(parent), Labels(rest));
  }

  /** What one step of the walk covers. */
  lemma {:induction false} WalkStep(rest: string, parent: string)
    ensures var k := FirstIndex(rest, '.');
            if k == |rest| then !Under(rest, parent)
            else Under(rest, parent) <==> parent == rest[k + 1..] || Under(rest[k + 1..], parent)
  {
    var k := FirstIndex(rest, '.');
    SplitStep(rest, '.');
    if Labels(parent) == Labels(rest) { SameLabelsSameName(rest, parent); }
    if k < |rest| {
      WalkLabels(rest, parent, rest[k + 1..]);
      WithinReflexive(parent);
    }
  }

  /** Walk up the label tree until a listed parent is found. */
  method WalkParents(domain: string, listed: string -> bool) returns (hit: bool)
    ensures hit <==> exists parent :: Under(domain, parent) && listed(parent)
  {
    var rest := domain;
    var dot := FirstIndex(rest, '.');
    while dot < |rest|
      invariant dot == FirstIndex(rest, '.')
      invariant forall parent :: Under(rest, parent) ==> Under(domain, parent)
      invariant forall parent :: Under(domain, parent) && listed(parent) ==> Under(rest, parent)
      decreases |rest|
    {
      forall parent
        ensures Under(rest, parent) <==> parent == rest[dot + 1..] || Under(rest[dot + 1..], parent)
      {
        WalkStep(rest, parent);
      }
      assert Under(rest, rest[dot + 1..]);
      rest := rest[dot + 1..];
      if listed(rest) { return true; }
      dot := FirstIndex(rest, '.');
    }
    forall parent ensures !Under(rest, parent) { WalkStep(rest, parent); }
    return false;
  }

  // ---------------------------------------------------------------------------
  // The allowlist
  // ---------------------------------------------------------------------------

  /** Exact names, and suffixes stored with their leading dot. */
  datatype Allowlist = Allowlist(exact: set<string>, suffixes: set<string>)

  datatype AllowRule = Nothing | ExactName(name: string) | SuffixOf(suffix: string)

  /** The meaning of one configuration entry. */
  function RuleOf(entry: string): AllowRule { RuleOfText(TrimDots(FullLower(Trim(entry)))) }

  function RuleOfText(e: string): AllowRule {
    if e == [] then Nothing
    else if "*." <= e then SuffixOf("." + e[2..])
    else if e[0] == '.' then SuffixOf(e)
    else ExactName(e)
  }

  type Rules = string -> AllowRule

  const ENTRY_RULES: Rules := e => RuleOf(e)

  function AllowlistOf(rule: Rules, entries: seq<string>): Allowlist {
    Allowlist(set e | e in entries && rule(e).ExactName? :: rule(e).name,
              set e | e in entries && rule(e).SuffixOf? :: rule(e).suffix)
  }

  method FromEntries(rule: Rules, entries: seq<string>) returns (list: Allowlist)
    ensures list == AllowlistOf(rule, entries)
  {
    var exact: set<string>, suffixes: set<string> := {}, {};
    for n := 0 to |entries|
      invariant Allowlist(exact, suffixes) == AllowlistOf(rule, entries[..n])
    {
      assert entries[..n + 1] == entries[..n] + [entries[n]];
      match rule(entries[n])
      case Nothing =>
      case ExactName(name) => exact := exact + {name};
      case SuffixOf(suffix) => suffixes := suffixes + {suffix};
    }
    assert entries[..|entries|] == entries;
    list := Allowlist(exact, suffixes);
  }

  /** The key under which a passthru entry is added. */
  function PassthruKey(entry: string): string { FullLower(TrimDots(Trim(entry))) }

  method ExtendExact(list: Allowlist, key: string -> string, entries: seq<string>) returns (out: Allowlist)
    ensures out == list.(exact := list.exact + set e | e in entries && key(e) != [] :: key(e))
  {
    out := list;
    for n := 0 to |entries|
      invariant out == list.(exact := list.exact + set e | e in entries[..n] && key(e) != [] :: key(e))
    {
      assert entries[..n + 1] == entries[..n] + [entries[n]];
      if key(entries[n]) != [] { out := out.(exact := out.exact + {key(entries[n])}); }
    }
    assert entries[..|entries|] == entries;
  }

  /** A canonical domain is exempt: listed exactly, or under a listed suffix. */
  ghost predicate Exempt(list: Allowlist, domain: string) {
    domain in list.exact || exists parent :: Under(domain, parent) && "." + parent in list.suffixes
  }

  /** Trimmed, lowercase in every script and without trailing dots. */
  predicate CleanText(e: string) { e != [] && Trimmed(e) && AllSettled(e) && e[|e| - 1] != '.' }

  /** A configured name in plain form: neither a leading dot nor a wildcard label. */
  predicate PlainEntry(d: string) { CleanText(d) && d[0] != '.' && !("*." <= d) }

  lemma {:induction false} CleanTextIsKept(e: string)
    requires CleanText(e)
    ensures RuleOf(e) == RuleOfText(e)
  {
    TrimOfTrimmed(e);
    SettledIff(e);
    TrimDotsUnique(e, |e|);
    assert e[..|e|] == e;
  }

  lemma {:induction false} StarAndDotAreSettled()
    ensures AllSettled("*.") && AllSettled(".")
  {
    assert LawfulAt(UNICODE.low, '*') && LawfulAt(UNICODE.low, '.');
  }

  lemma {:induction false} DottedTextIsClean(front: string, d: string)
    requires front != [] && !IsWhitespace(front[0]) && AllSettled(front) && CleanText(d)
    ensures CleanText(front + d)
  {
    var e := front + d;
    assert e[0] == front[0] && e[|e| - 1] == d[|d| - 1];
  }

  lemma {:induction false} WildcardSpelling(d: string)
    requires CleanText(d)
    ensures RuleOf("*." + d) == SuffixOf("." + d)
  {
    StarAndDotAreSettled();
    DottedTextIsClean("*.", d);
    CleanTextIsKept("*." + d);
    assert ("*." + d)[2..] == d;
  }

  lemma {:induction false} DottedSpelling(d: string)
    requires CleanText(d)
    ensures RuleOf("." + d) == SuffixOf("." + d)
  {
    StarAndDotAreSettled();
    DottedTextIsClean(".", d);
    CleanTextIsKept("." + d);
  }

  lemma {:induction false} PlainSpelling(d: string)
    requires PlainEntry(d)
    ensures RuleOf(d) == ExactName(d)
  {
    CleanTextIsKept(d);
  }

  lemma {:induction false} DottedParentIsUnique(list: Allowlist, domain: string, d: string)
    requires list.exact == {} && list.suffixes == {"." + d}
    ensures Exempt(list, domain) <==> Under(domain, d)
  {
    if Exempt(list, domain) {
      var parent :| Under(domain, parent) && "." + parent in list.suffixes;
      assert ("." + parent)[1..] == parent && ("." + d)[1..] == d;
    }
  }

  lemma {:induction false} SpellingMeaning(rule: Rules, d: string, domain: string)
    requires rule(d) == ExactName(d)
    requires rule("*." + d) == SuffixOf("." + d) && rule("." + d) == SuffixOf("." + d)
    ensures Exempt(AllowlistOf(rule, [d]), domain) <==> domain == d
    ensures Exempt(AllowlistOf(rule, ["*." + d]), domain) <==> Under(domain, d)
    ensures Exempt(AllowlistOf(rule, ["." + d]), domain) <==> Under(domain, d)
  {
    SingleExact(rule, d, d);
    SingleSuffix(rule, "*." + d, "." + d);
    SingleSuffix(rule, "." + d, "." + d);
    DottedParentIsUnique(Allowlist({}, {"." + d}), domain, d);
  }

  /** A plain entry exempts itself alone; `*.d` and `.d` exempt exactly the names below `d`,
      and not `d` itself. */
  lemma {:induction false} AllowEntryMeaning(d: string, domain: string)
    requires PlainEntry(d)
    ensures Exempt(AllowlistOf(ENTRY_RULES, [d]), domain) <==> domain == d
    ensures Exempt(AllowlistOf(ENTRY_RULES, ["*." + d]), domain) <==> Under(domain, d)
    ensures Exempt(AllowlistOf(ENTRY_RULES, ["." + d]), domain) <==> Under(domain, d)
  {
    PlainSpelling(d);
    WildcardSpelling(d);
    DottedSpelling(d);
    SpellingMeaning(ENTRY_RULES, d, domain);
  }

  lemma {:induction false} SingleExact(rule: Rules, entry: string, name: string)
    requires rule(entry) == ExactName(name)
    ensures AllowlistOf(rule, [entry]) == Allowlist({name}, {})
  {
    assert entry in [entry];
  }

  lemma {:induction false} SingleSuffix(rule: Rules, entry: string, suffix: string)
    requires rule(entry) == SuffixOf(suffix)
    ensures AllowlistOf(rule, [entry]) == Allowlist({}, {suffix})
  {
    assert entry in [entry];
  }

  /** A list exempts what its entries exempt one by one. */
  lemma {:induction false} AllowEntriesAddUp(rule: Rules, a: seq<string>, b: seq<string>, domain: string)
    ensures Exempt(AllowlistOf(rule, a + b), domain)
            <==> Exempt(AllowlistOf(rule, a), domain) || Exempt(AllowlistOf(rule, b), domain)
  {
    var whole, left, right := AllowlistOf(rule, a + b), AllowlistOf(rule, a), AllowlistOf(rule, b);
    assert whole.exact == left.exact + right.exact;
    assert whole.suffixes == left.suffixes + right.suffixes;
  }

  function LowerIfNeeded(s: string): (r: string)
    ensures r == Lower(s)
  {
    if HasUpper(s) then Lower(s) else LowerKeeps(s); s
  }

  /** `is_allowed`: the fast walk decides exemption of the canonical name. */
  method IsAllowed(list: Allowlist, name: string) returns (allowed: bool)
    ensures allowed <==> Canonical(name) != [] && Exempt(list, Canonical(name))
  {
    var domain := TrimDots(name);
    if domain == [] { return false; }
    domain := LowerIfNeeded(domain);
    if domain in list.exact { return true; }
    allowed := WalkParents(domain, parent => "." + parent in list.suffixes);
  }

  // ---------------------------------------------------------------------------
  // Building a state
  // ---------------------------------------------------------------------------

  datatype Source = Source(content: string, trusted: bool)

  type Parser = string -> seq<ParsedEntry>

  datatype BlocklistState = BlocklistState(domains: set<string>, parents: set<string>, allow: Allowlist, discarded: nat)

  function ExactIn(es: seq<ParsedEntry>): set<string> { set e | e in es && e.Exact? :: e.domain }

  function ParentsIn(es: seq<ParsedEntry>): set<string> { set e | e in es && e.WildcardParent? :: e.domain }

  function AllowsIn(es: seq<ParsedEntry>): set<string> { set e | e in es && e.Allow? :: e.domain }

  function AllowCount(es: seq<ParsedEntry>): nat {
    if es == [] then 0 else AllowCount(es[..|es| - 1]) + (if es[|es| - 1].Allow? then 1 else 0)
  }

  /** How many passthru entries of untrusted sources are thrown away. */
  function DiscardedOf(parse: Parser, sources: seq<Source>): nat {
    if sources == [] then 0
    else
      var s := sources[|sources| - 1];
      DiscardedOf(parse, sources[..|sources| - 1]) + (if s.trusted then 0 else AllowCount(parse(s.content)))
  }

  function DomainsOf(parse: Parser, sources: seq<Source>): set<string> {
    set s, d | s in sources && d in ExactIn(parse(s.content)) :: d
  }

  function ParentsOf(parse: Parser, sources: seq<Source>): set<string> {
    set s, d | s in sources && d in ParentsIn(parse(s.content)) :: d
  }

  /** Passthru entries count only when their source is trusted. */
  function TrustedAllows(parse: Parser, sources: seq<Source>): set<string> {
    set s, d | s in sources && s.trusted && d in AllowsIn(parse(s.content)) :: d
  }

  function KeysOf(key: string -> string, ds: set<string>): set<string> {
    set d | d in ds && key(d) != [] :: key(d)
  }

  /** What a state holds, as sets of its sources' entries: the order of sources and entries
      does not occur in it. */
  predicate Holds(parse: Parser, key: string -> string, base: Allowlist, sources: seq<Source>, st: BlocklistState) {
    && st.domains == DomainsOf(parse, sources)
    && st.parents == ParentsOf(parse, sources)
    && st.allow == base.(exact := base.exact + KeysOf(key, TrustedAllows(parse, sources)))
  }

  lemma {:induction false} EntrySnoc(es: seq<ParsedEntry>, e: ParsedEntry)
    ensures ExactIn(es + [e]) == ExactIn(es) + (if e.Exact? then {e.domain} else {})
    ensures ParentsIn(es + [e]) == ParentsIn(es) + (if e.WildcardParent? then {e.domain} else {})
    ensures AllowsIn(es + [e]) == AllowsIn(es) + (if e.Allow? then {e.domain} else {})
  {
  }

  lemma {:induction false} SourceSnoc(parse: Parser, sources: seq<Source>, s: Source)
    ensures DomainsOf(parse, sources + [s]) == DomainsOf(parse, sources) + ExactIn(parse(s.content))
    ensures ParentsOf(parse, sources + [s]) == ParentsOf(parse, sources) + ParentsIn(parse(s.content))
    ensures TrustedAllows(parse, sources + [s])
         == TrustedAllows(parse, sources) + (if s.trusted then AllowsIn(parse(s.content)) else {})
  {
  }

  /** The inner loop of `build_state`: one source. */
  method AddSource(es: seq<ParsedEntry>, trusted: bool, domains: set<string>, parents: set<string>, allows: seq<string>)
    returns (domains': set<string>, parents': set<string>, allows': seq<string>, discarded: nat)
    ensures domains' == domains + ExactIn(es) && parents' == parents + ParentsIn(es)
    ensures Members(allows') == Members(allows) + (if trusted then AllowsIn(es) else {})
    ensures discarded == if trusted then 0 else AllowCount(es)
  {
    domains', parents', allows', discarded := domains, parents, allows, 0;
    ghost var front: seq<ParsedEntry> := [];
    for j := 0 to |es|
      invariant front == es[..j]
      invariant domains' == domains + ExactIn(front) && parents' == parents + ParentsIn(front)
      invariant Members(allows') == Members(allows) + (if trusted then AllowsIn(front) else {})
      invariant discarded == if trusted then 0 else AllowCount(front)
    {
      var e := es[j];
      EntrySnoc(front, e);
      AllowCountSnoc(front, e);
      match e {
        case Exact(d) => domains' := domains' + {d};
        case WildcardParent(p) => parents' := parents' + {p};
        case Allow(d) =>
          if trusted {
            MembersSnoc(allows', d);
            allows' := allows' + [d];
          } else {
            discarded := discarded + 1;
          }
      }
      front := front + [e];
    }
    assert front == es;
  }

  lemma {:induction false} MembersSnoc(s: seq<string>, x: string)
    ensures Members(s + [x]) == Members(s) + {x}
  {
  }

  lemma {:induction false} AllowCountSnoc(es: seq<ParsedEntry>, e: ParsedEntry)
    ensures AllowCount(es + [e]) == AllowCount(es) + (if e.Allow? then 1 else 0)
  {
    assert (es + [e])[..|es|] == es;
  }

  method BuildState(parse: Parser, key: string -> string, base: Allowlist, sources: seq<Source>)
    returns (st: BlocklistState)
    ensures Holds(parse, key, base, sources, st)
    ensures st.discarded == DiscardedOf(parse, sources)
  {
    var domains: set<string>, parents: set<string>, allows: seq<string>, discarded: nat := {}, {}, [], 0;
    for n := 0 to |sources|
      invariant domains == DomainsOf(parse, sources[..n]) && parents == ParentsOf(parse, sources[..n])
      invariant Members(allows) == TrustedAllows(parse, sources[..n])
      invariant discarded == DiscardedOf(parse, sources[..n])
    {
      assert sources[..n + 1] == sources[..n] + [sources[n]];
      assert sources[..n + 1][..n] == sources[..n];
      SourceSnoc(parse, sources[..n], sources[n]);
      var more: nat;
      domains, parents, allows, more := AddSource(parse(sources[n].content), sources[n].trusted, domains, parents, allows);
      discarded := discarded + more;
    }
    assert sources[..|sources|] == sources;
    var allow := base;
    if allows != [] { allow := ExtendExact(allow, key, allows); }
    assert KeysOf(key, Members(allows)) == set e | e in allows && key(e) != [] :: key(e);
    assert allow == base.(exact := base.exact + KeysOf(key, Members(allows)));
    st := BlocklistState(domains, parents, allow, discarded);
  }

  // ---------------------------------------------------------------------------
  // The verdict
  // ---------------------------------------------------------------------------

  /** The compiled regex set, which this model leaves open. */
  type Regex = string -> bool

  /** The reference verdict on a canonical domain: the allowlist wins; otherwise an exact
      entry, a listed proper parent or a regex blocks. */
  ghost predicate Listed(st: BlocklistState, regex: Regex, domain: string) {
    domain in st.domains || (exists p :: Under(domain, p) && p in st.parents) || regex(domain)
  }

  ghost predicate Blocked(st: BlocklistState, regex: Regex, domain: string) {
    domain != [] && !Exempt(st.allow, domain) && Listed(st, regex, domain)
  }

  /** The name as it is looked up: without trailing dots and, if it has an ASCII capital, in full
      lowercase. */
  function QueryForm(name: string): string {
    var t := TrimDots(name);
    if HasUpper(t) then FullLower(t) else t
  }

  /** `is_blocked`: the fast lookup decides the reference verdict on the query form. */
  method IsBlocked(st: BlocklistState, regex: Regex, name: string) returns (blocked: bool)
    ensures blocked <==> Blocked(st, regex, QueryForm(name))
  {
    var domain := TrimDots(name);
    if domain == [] { return false; }
    if HasUpper(domain) { domain := FullLower(domain); }
    QueryFormIsClean(name);
    var allowed := IsAllowed(st.allow, domain);
    if allowed { return false; }
    if domain in st.domains { return true; }
    var hit := WalkParents(domain, p => p in st.parents);
    if hit { return true; }
    return regex(domain);
  }

  lemma {:induction false} FinalOfTrimmed(name: string)
    ensures TrimDots(name) != [] ==> TrimDots(name)[|TrimDots(name)| - 1] != '.'
    ensures forall i :: 0 <= i < |name| ==> name[i] == '.' || name[i] in TrimDots(name)
  {
    TrimDotsExact(name);
    var t := TrimDots(name);
    forall i | 0 <= i < |t| ensures name[i] in t { assert name[..|t|][i] == t[i]; }
  }

  /** The allowlist test, which lowercases again, leaves a query form alone. */
  lemma {:induction false} QueryFormIsClean(name: string)
    ensures Canonical(QueryForm(name)) == QueryForm(name)
    ensures QueryForm(name) == [] <==> TrimDots(name) == []
  {
    var t, q := TrimDots(name), QueryForm(name);
    FinalOfTrimmed(name);
    FullLowerIsSettled(t);
    SettledIsLower(FullLower(t));
    if !HasUpper(t) { LowerKeeps(t); }
    if t != [] {
      FullLowerEnds(t);
      TrimDotsUnique(q, |q|);
      assert q[..|q|] == q;
    }
  }

  // ---------------------------------------------------------------------------
  // Spellings of one name
  // ---------------------------------------------------------------------------

  lemma {:induction false} TrimmedDotsSayNothing(name: string)
    ensures HasUpper(TrimDots(name)) <==> HasUpper(name)
    ensures PlainCase(TrimDots(name)) <==> PlainCase(name)
  {
    FinalOfTrimmed(name);
    TrimDotsExact(name);
    var t := TrimDots(name);
    assert forall i :: 0 <= i < |t| ==> t[i] == name[i];
    if HasUpper(name) {
      var i :| 0 <= i < |name| && IsUpper(name[i]);
      assert name[i] in t;
    }
    if PlainCase(t) {
      forall i | 0 <= i < |name| ensures PlainChar(name[i]) { assert name[i] == '.' || name[i] in t; }
    }
  }

  lemma {:induction false} TrimMoreDots(a: string, dots: string)
    requires forall i :: 0 <= i < |dots| ==> dots[i] == '.'
    ensures TrimDots(a + dots) == TrimDots(a)
  {
    var t := TrimDots(a);
    TrimDotsExact(a);
    assert (a + dots)[..|t|] == t;
    assert forall i :: |t| <= i < |a + dots| ==> (a + dots)[i] == '.';
    assert |t| > 0 ==> (a + dots)[|t| - 1] == t[|t| - 1];
    TrimDotsUnique(a + dots, |t|);
  }

  lemma {:induction false} PlainCaseIgnoresCase(a: string, b: string)
    requires Lower(a) == Lower(b)
    ensures PlainCase(a) <==> PlainCase(b)
  {
    assert |Lower(a)| == |a| && |Lower(b)| == |b|;
    forall i | 0 <= i < |a| ensures PlainChar(a[i]) <==> PlainChar(b[i]) {
      assert LowerChar(a[i]) == Lower(a)[i] == Lower(b)[i] == LowerChar(b[i]);
    }
  }

  /** Two texts without trailing dots that differ in ASCII case alone. */
  lemma {:induction false} FormsAgreeIff(t: string, u: string)
    requires Lower(t) == Lower(u) && TrimDots(t) == t && TrimDots(u) == u
    ensures QueryForm(t) == QueryForm(u) <==> PlainCase(t) || (HasUpper(t) <==> HasUpper(u))
  {
    FullLowerIgnoresAsciiCase(t, u);
    LoweringsAgreeIff(t);
    LoweringsAgreeIff(u);
    PlainCaseIgnoresCase(t, u);
    if !HasUpper(t) { LowerKeeps(t); }
    if !HasUpper(u) { LowerKeeps(u); }
  }

  lemma {:induction false} TrimDotsTwice(name: string)
    ensures TrimDots(TrimDots(name)) == TrimDots(name)
  {
    var t := TrimDots(name);
    FinalOfTrimmed(name);
    TrimDotsUnique(t, |t|);
    assert t[..|t|] == t;
  }

  /** No state and no regex set tells the two domains apart. */
  ghost predicate SameVerdict(a: string, b: string) {
    forall st, regex {:trigger Blocked(st, regex, a)} :: Blocked(st, regex, a) <==> Blocked(st, regex, b)
  }

  lemma {:induction false} SameVerdictIffEqual(a: string, b: string)
    ensures SameVerdict(a, b) <==> a == b
  {
    if a != b {
      var x := if a == [] then b else a;
      var regex: Regex := d => d == x;
      var st := BlocklistState({}, {}, Allowlist({}, {}), 0);
      assert (Blocked(st, regex, a) <==> a == x) && (Blocked(st, regex, b) <==> b == x);
    }
  }

  /** Trailing dots never matter.  Two spellings that differ in the case of ASCII letters always
      get one verdict if and only if both or neither have an ASCII capital, or full lowercasing
      changes nothing outside ASCII. */
  lemma {:induction false} SpellingsAgreeIff(a: string, b: string, dots: string)
    requires Lower(a) == Lower(b) && forall i :: 0 <= i < |dots| ==> dots[i] == '.'
    ensures SameVerdict(QueryForm(a + dots), QueryForm(b)) <==> PlainCase(a) || (HasUpper(a) <==> HasUpper(b))
  {
    TrimMoreDots(a, dots);
    TrimDotsLower(a);
    TrimDotsLower(b);
    TrimDotsTwice(a);
    TrimDotsTwice(b);
    TrimmedDotsSayNothing(a);
    TrimmedDotsSayNothing(b);
    FormsAgreeIff(TrimDots(a), TrimDots(b));
    SameVerdictIffEqual(QueryForm(a + dots), QueryForm(b));
  }

  /** On ASCII names the verdict ignores letter case and trailing dots. */
  lemma {:induction false} CaseAndDotsAreIgnored(a: string, b: string, dots: string)
    requires IsAscii(a) && Lower(a) == Lower(b) && forall i :: 0 <= i < |dots| ==> dots[i] == '.'
    ensures SameVerdict(QueryForm(a + dots), QueryForm(b)) && QueryForm(b) == Canonical(a)
  {
    AsciiIsPlainCase(a);
    SpellingsAgreeIff(a, b, dots);
    QueryFormOfPlain(b);
    PlainCaseIgnoresCase(a, b);
    TrimDotsLower(a);
    TrimDotsLower(b);
  }

  lemma {:induction false} QueryFormOfPlain(name: string)
    requires PlainCase(name)
    ensures QueryForm(name) == Canonical(name)
  {
    TrimmedDotsSayNothing(name);
    LoweringsAgreeIff(TrimDots(name));
    if !HasUpper(TrimDots(name)) { LowerKeeps(TrimDots(name)); }
  }

  /** A pair that some regex set tells apart. */
  lemma {:induction false} AccentedSpellingsDiffer()
    ensures var a, b := [CAPITAL_E_ACUTE] + "X.com", [CAPITAL_E_ACUTE] + "x.com";
            Lower(a) == Lower(b) && !SameVerdict(QueryForm(a), QueryForm(b))
  {
    var a, b := [CAPITAL_E_ACUTE] + "X.com", [CAPITAL_E_ACUTE] + "x.com";
    assert Lower(a) == Lower(b);
    assert IsUpper(a[1]) && !HasUpper(b) && !PlainChar(a[0]);
    SpellingsAgreeIff(a, b, []);
    assert a + [] == a;
  }

  // ---------------------------------------------------------------------------
  // Trust and order
  // ---------------------------------------------------------------------------

  /** `more` has the sources of `sources` and `extra`, in any order. */
  ghost predicate Adds(sources: seq<Source>, extra: Source, more: seq<Source>) {
    forall s :: s in more <==> s in sources || s == extra
  }

  lemma {:induction false} AddedSets(parse: Parser, sources: seq<Source>, extra: Source, more: seq<Source>)
    requires Adds(sources, extra, more)
    ensures DomainsOf(parse, more) == DomainsOf(parse, sources) + ExactIn(parse(extra.content))
    ensures ParentsOf(parse, more) == ParentsOf(parse, sources) + ParentsIn(parse(extra.content))
    ensures TrustedAllows(parse, more)
         == TrustedAllows(parse, sources) + (if extra.trusted then AllowsIn(parse(extra.content)) else {})
  {
  }

  /** Adding an untrusted source, at any position, never unblocks a name. */
  lemma {:induction false} UntrustedSourceNeverUnblocks(parse: Parser, key: string -> string, base: Allowlist, regex: Regex,
                                     sources: seq<Source>, extra: Source, more: seq<Source>,
                                     before: BlocklistState, after: BlocklistState, domain: string)
    requires Adds(sources, extra, more) && !extra.trusted
    requires Holds(parse, key, base, sources, before) && Holds(parse, key, base, more, after)
    requires Blocked(before, regex, domain)
    ensures Blocked(after, regex, domain)
  {
    AddedSets(parse, sources, extra, more);
    assert TrustedAllows(parse, more) == TrustedAllows(parse, sources);
    assert after.allow == before.allow;
  }

  /** Adding a trusted source can unblock only names equal to one of its passthru entries. */
  lemma {:induction false} TrustedSourceUnblocksOnlyItsAllows(parse: Parser, key: string -> string, base: Allowlist, regex: Regex,
                                           sources: seq<Source>, extra: Source, more: seq<Source>,
                                           before: BlocklistState, after: BlocklistState, domain: string)
    requires Adds(sources, extra, more) && extra.trusted
    requires Holds(parse, key, base, sources, before) && Holds(parse, key, base, more, after)
    requires Blocked(before, regex, domain) && !Blocked(after, regex, domain)
    ensures domain in KeysOf(key, AllowsIn(parse(extra.content)))
  {
    AddedSets(parse, sources, extra, more);
    assert Listed(after, regex, domain);
    assert Exempt(after.allow, domain) && !Exempt(before.allow, domain);
    assert after.allow.suffixes == before.allow.suffixes;
    assert domain in after.allow.exact && domain !in before.allow.exact;
  }

  /** The order and multiplicity of sources never affect a verdict. */
  lemma {:induction false} SourceOrderIsIrrelevant(parse: Parser, key: string -> string, base: Allowlist, regex: Regex,
                                a: seq<Source>, b: seq<Source>, sa: BlocklistState, sb: BlocklistState, domain: string)
    requires forall s :: s in a <==> s in b
    requires Holds(parse, key, base, a, sa) && Holds(parse, key, base, b, sb)
    ensures Blocked(sa, regex, domain) <==> Blocked(sb, regex, domain)
  {
    assert DomainsOf(parse, a) == DomainsOf(parse, b);
    assert ParentsOf(parse, a) == ParentsOf(parse, b);
    assert TrustedAllows(parse, a) == TrustedAllows(parse, b);
  }

  /** No source can take out a whole second level: whatever the sources contain, a two-label
      name is blocked only when it is listed exactly or a regex matches it. */
  lemma {:induction false} TwoLabelNameNeedsExactEntry(parse: Parser, key: string -> string, base: Allowlist, regex: Regex,
                                    sources: seq<Source>, st: BlocklistState, domain: string)
    requires forall c :: AllGood(parse(c))
    requires Holds(parse, key, base, sources, st)
    requires |Labels(domain)| <= 2 && Blocked(st, regex, domain)
    ensures domain in DomainsOf(parse, sources) || regex(domain)
  {
    if p :| Under(domain, p) && p in st.parents {
      var s, d :| s in sources && d in ParentsIn(parse(s.content)) && d == p;
      var e :| e in parse(s.content) && e.WildcardParent? && e.domain == p;
      assert AllGood(parse(s.content)) && GoodEntry(e);
      assert |Labels(p)| == |Labels(domain)|;
      SameLabelsSameName(domain, p);
    }
  }

  // ---------------------------------------------------------------------------
  // The engine
  // ---------------------------------------------------------------------------

  class Engine {
    const parse: Parser
    const key: string -> string
    const regex: Regex
    const allowlist: Allowlist
    var state: BlocklistState
    var groups: map<string, BlocklistState>

    constructor (parse: Parser, key: string -> string, regex: Regex, allowlist: Allowlist, groupLists: map<string, Allowlist>)
      ensures this.parse == parse && this.key == key && this.regex == regex && this.allowlist == allowlist
      ensures state == BlocklistState({}, {}, allowlist, 0)
      ensures groups == map g | g in groupLists :: BlocklistState({}, {}, groupLists[g], 0)
    {
      this.parse := parse;
      this.key := key;
      this.regex := regex;
      this.allowlist := allowlist;
      state := BlocklistState({}, {}, allowlist, 0);
      groups := map g | g in groupLists :: BlocklistState({}, {}, groupLists[g], 0);
    }

    method LoadManyWithTrust(sources: seq<Source>)
      modifies this
      ensures Holds(parse, key, allowlist, sources, state)
      ensures groups == old(groups)
    {
      state := BuildState(parse, key, allowlist, sources);
    }

    /** A load for an unknown group is ignored. */
    method LoadGroup(group: string, sources: seq<Source>, base: Allowlist)
      modifies this
      ensures state == old(state) && groups.Keys == old(groups).Keys
      ensures forall g :: g in groups && g != group ==> groups[g] == old(groups)[g]
      ensures group in groups ==> Holds(parse, key, base, sources, groups[group])
    {
      if group in groups {
        var st := BuildState(parse, key, base, sources);
        groups := groups[group := st];
      }
    }

    /** A known group is matched against its own state, everything else against the global one. */
    method IsBlockedForGroup(name: string, group: Option<string>) returns (blocked: bool)
      ensures blocked <==>
                Blocked(if group.Some? && group.value in groups then groups[group.value] else state, regex, QueryForm(name))
    {
      if group.Some? && group.value in groups {
        blocked := IsBlocked(groups[group.value], regex, name);
      } else {
        blocked := IsBlocked(state, regex, name);
      }
    }
  }
}
