/** Blocklists as they are published: rules among blank lines, comments and lines that mean
    nothing, with comments behind the rules. */
module BlocklistNotes {
  import opened Names
  import opened Spelling
  import opened Text
  import opened Casing
  import opened WordText
  import opened BlocklistParser
  import opened BlocklistText

  // ---------------------------------------------------------------------------
  // Lines that say nothing
  // ---------------------------------------------------------------------------

  /** The first character that is no white space is `c`. */
  predicate Opens(line: string, c: char) { exists i :: 0 <= i < |line| && line[i] == c && AllBlank(line[..i]) }

  /** A line that does not tell the format of a list: blank, or opening with one of the marks of
      comments and headers. */
  predicate Untelling(line: string) {
    AllBlank(line) || Opens(line, '#') || Opens(line, ';') || Opens(line, '!') || Opens(line, '[')
  }

  /** A blank line or a comment of the format; `#` opens a comment in all of them. */
  predicate Note(format: ListFormat, line: string) {
    || AllBlank(line) || Opens(line, '#')
    || (Opens(line, ';') && (format.Plain? || format.Rpz?))
    || ((Opens(line, '!') || Opens(line, '[')) && format.AdGuard?)
  }

  /** Words of a line from which the format takes nothing: no address in front in a hosts list,
      several words in a plain one, no policy action in an RPZ, no anchored rule in AdGuard. */
  predicate IdleWords(isIp: IpTest, format: ListFormat, ws: seq<string>) {
    && SafeWords(ws)
    && match format
       case Hosts => !isIp(ws[0])
       case Plain => |ws| >= 2
       case Rpz => || |ws| < 3 || !SameLetters(ws[1], "CNAME")
                   || !(SameLetters(ws[2], ".") || SameLetters(ws[2], "rpz-passthru.") || SameLetters(ws[2], "rpz-passthru"))
       case AdGuard => (!("||" <= ws[0]) && !("@@||" <= ws[0])) || (|ws| == 1 && PathRule(ws[0]))
  }

  /** A rule without a caret, or with a slash before it. */
  predicate PathRule(w: string) { FirstIndex(w, '^') == |w| || FirstIndex(w, '/') < FirstIndex(w, '^') }

  /** A line from which the format takes nothing: such words, or more than 512 bytes. */
  ghost predicate Idle(isIp: IpTest, format: ListFormat, line: string) {
    ByteLen(line) > 512 || exists ws :: IdleWords(isIp, format, ws) && line == Join(ws, ' ')
  }

  lemma {:induction false} OpensIffCore(line: string, core: string, lead: string, trail: string, c: char)
    requires IsCore(line, core, lead, trail) && !IsWhitespace(c)
    ensures Opens(line, c) <==> core != [] && core[0] == c
  {
    if Opens(line, c) {
      var i :| 0 <= i < |line| && line[i] == c && AllBlank(line[..i]);
      assert forall k :: 0 <= k < i ==> line[k] == line[..i][k];
      BlankLead(line, core, lead, trail, i);
    }
    if core != [] && core[0] == c { CoreOpens(line, core, lead, trail); }
  }

  lemma {:induction false} CoreOpens(line: string, core: string, lead: string, trail: string)
    requires IsCore(line, core, lead, trail) && core != []
    ensures Opens(line, core[0])
  {
    assert line[..|lead|] == lead && line[|lead|] == core[0];
  }

  lemma {:induction false} OpensIffTrimmed(line: string, c: char)
    requires !IsWhitespace(c)
    ensures Opens(line, c) <==> Trim(line) != [] && Trim(line)[0] == c
  {
    TrimIsCore(line);
    var lead, trail :| IsCore(line, Trim(line), lead, trail);
    OpensIffCore(line, Trim(line), lead, trail, c);
  }

  lemma {:induction false} BlankLead(line: string, core: string, lead: string, trail: string, i: nat)
    requires IsCore(line, core, lead, trail) && i < |line| && !IsWhitespace(line[i])
    requires forall k :: 0 <= k < i ==> IsWhitespace(line[k])
    ensures core != [] && core[0] == line[i]
  {
    assert forall k :: 0 <= k < |lead| ==> line[k] == lead[k];
    assert core == [] ==> line == lead + trail;
    if core != [] { assert line[|lead|] == core[0]; }
  }

  lemma {:induction false} BlankIffTrimmed(line: string)
    ensures AllBlank(line) <==> Trim(line) == []
  {
    TrimIsCore(line);
    var lead, trail :| IsCore(line, Trim(line), lead, trail);
    if AllBlank(line) { TrimOfBlank(line); }
    if Trim(line) == [] { assert line == lead + trail; }
  }

  /** A line is skipped by detection exactly when it is untelling. */
  lemma {:induction false} UntellingIff(isIp: IpTest, line: string)
    ensures Untelling(line) <==> ClassifierFor(isIp)(line).None?
  {
    BlankIffTrimmed(line);
    OpensIffTrimmed(line, '#');
    OpensIffTrimmed(line, ';');
    OpensIffTrimmed(line, '!');
    OpensIffTrimmed(line, '[');
  }

  // ---------------------------------------------------------------------------
  // They are read as nothing
  // ---------------------------------------------------------------------------

  lemma {:induction false} StripOpening(line: string, c: char)
    requires Opens(line, c) && !IsWhitespace(c)
    ensures AllBlank(StripComment(line, c))
  {
    var i :| 0 <= i < |line| && line[i] == c && AllBlank(line[..i]);
    forall k | 0 <= k < i ensures line[k] != c { assert line[..i][k] == line[k]; }
    FirstIndexUnique(line, c, i);
  }

  lemma {:induction false} StripKeepsOpening(line: string, c: char, d: char)
    requires AllBlank(line) || Opens(line, c)
    requires !IsWhitespace(c) && !IsWhitespace(d) && c != d
    ensures AllBlank(StripComment(line, d)) || Opens(StripComment(line, d), c)
  {
    var k := FirstIndex(line, d);
    if Opens(line, c) {
      var i :| 0 <= i < |line| && line[i] == c && AllBlank(line[..i]);
      forall j | 0 <= j < i ensures line[j] != d { assert line[..i][j] == line[j]; }
      assert i < k && line[..k][..i] == line[..i] && line[..k][i] == c;
    } else {
      assert forall j :: 0 <= j < |line[..k]| ==> line[..k][j] == line[j];
    }
  }

  lemma {:induction false} StripBlank(line: string, d: char)
    requires AllBlank(line)
    ensures AllBlank(StripComment(line, d))
  {
  }

  lemma {:induction false} WordsOfBlank(line: string)
    requires AllBlank(line)
    ensures Trim(line) == [] && Words(Trim(line)) == []
  {
    BlankIffTrimmed(line);
    assert TrimStart([]) == [];
  }

  /** Stripping the two comment marks of a format blanks a line that opens with either. */
  lemma {:induction false} StripBoth(line: string, c: char, d: char)
    requires !IsWhitespace(c) && !IsWhitespace(d) && c != d
    requires AllBlank(line) || Opens(line, c) || Opens(line, d)
    ensures AllBlank(StripComment(StripComment(line, c), d))
  {
    if Opens(line, c) {
      StripOpening(line, c);
      StripBlank(StripComment(line, c), d);
    } else {
      StripKeepsOpening(line, d, c);
      var rest := StripComment(line, c);
      if AllBlank(rest) { StripBlank(rest, d); } else { StripOpening(rest, d); }
    }
  }

  lemma {:induction false} NoteIsSilent(isIp: IpTest, format: ListFormat, line: string)
    requires Note(format, line)
    ensures ReaderFor(isIp, format)(line) == []
  {
    match format
    case Hosts =>
      if AllBlank(line) { StripBlank(line, '#'); } else { StripOpening(line, '#'); }
      WordsOfBlank(StripComment(line, '#'));
    case Plain =>
      StripBoth(line, '#', ';');
      WordsOfBlank(StripComment(StripComment(line, '#'), ';'));
    case Rpz =>
      StripBoth(line, ';', '#');
      WordsOfBlank(StripComment(StripComment(line, ';'), '#'));
    case AdGuard =>
      AdGuardNote(line);
  }

  lemma {:induction false} AdGuardNote(line: string)
    requires Note(AdGuard, line)
    ensures AdGuardLine(VALIDATOR, line) == []
  {
    BlankIffTrimmed(line);
    OpensIffTrimmed(line, '#');
    OpensIffTrimmed(line, '!');
    OpensIffTrimmed(line, '[');
  }

  lemma {:induction false} LowerIs(w: string, t: string)
    requires !HasUpper(t)
    ensures Lower(w) == t <==> SameLetters(w, t)
  {
    SameLettersIff(w, t);
    LowerKeeps(t);
  }

  lemma {:induction false} SafeWordLowers(w: string)
    requires SafeWord(w)
    ensures FullLower(w) == Lower(w)
  {
    AsciiIsPlainCase(w);
  }

  lemma {:induction false} ActionWords()
    ensures !HasUpper("cname") && !HasUpper(".") && !HasUpper("rpz-passthru.") && !HasUpper("rpz-passthru")
    ensures forall w :: SameLetters(w, "CNAME") <==> SameLetters(w, "cname")
  {
    forall w ensures SameLetters(w, "CNAME") <==> SameLetters(w, "cname") {
      SameLettersIff(w, "CNAME");
      SameLettersIff(w, "cname");
      assert Lower("CNAME") == Lower("cname");
    }
  }

  lemma {:induction false} IdleRpz(isIp: IpTest, ws: seq<string>)
    requires IdleWords(isIp, Rpz, ws)
    ensures RpzWords(VALIDATOR, ws) == []
  {
    ActionWords();
    if |ws| >= 3 {
      LowerIs(ws[1], "cname");
      SafeWordLowers(ws[2]);
      LowerIs(ws[2], ".");
      LowerIs(ws[2], "rpz-passthru.");
      LowerIs(ws[2], "rpz-passthru");
    }
  }

  lemma {:induction false} SpaceWithin(ws: seq<string>)
    requires SafeWords(ws) && |ws| >= 2
    ensures Has(Join(ws, ' '), ' ')
  {
    var line := Join(ws, ' ');
    assert line[|ws[0]|] == ' ';
  }

  lemma {:induction false} FirstWordLeads(ws: seq<string>, prefix: string)
    requires SafeWords(ws) && Free(prefix, ' ') && prefix <= Join(ws, ' ')
    ensures prefix <= ws[0]
  {
    var line := Join(ws, ' ');
    if |ws| > 1 {
      assert line[|ws[0]|] == ' ';
      assert forall i :: 0 <= i < |prefix| ==> line[i] == prefix[i] && line[i] != ' ';
    }
    assert forall i :: 0 <= i < |ws[0]| ==> line[i] == ws[0][i];
  }

  lemma {:induction false} IdleIsSilent(isIp: IpTest, format: ListFormat, line: string)
    requires Idle(isIp, format, line)
    ensures ReaderFor(isIp, format)(line) == []
  {
    if ByteLen(line) <= 512 {
      var ws :| IdleWords(isIp, format, ws) && line == Join(ws, ' ');
      ReaderOf(isIp, format, line);
      match format
      case Hosts => IdleHostsLine(isIp, ws, line);
      case Plain => IdlePlainLine(isIp, ws, line);
      case Rpz => IdleRpzLine(isIp, ws, line);
      case AdGuard => IdleAdGuardLine(isIp, ws, line);
    }
  }

  lemma {:induction false} IdleHostsLine(isIp: IpTest, ws: seq<string>, line: string)
    requires IdleWords(isIp, Hosts, ws) && line == Join(ws, ' ')
    ensures HostsLine(VALIDATOR, isIp, line) == []
  {
    JoinedWordsAreSafe(ws);
    WordsInvertJoin(ws);
    SafeLineIsKept(line);
  }

  lemma {:induction false} IdlePlainLine(isIp: IpTest, ws: seq<string>, line: string)
    requires IdleWords(isIp, Plain, ws) && line == Join(ws, ' ')
    ensures PlainLineEntries(VALIDATOR, line) == []
  {
    JoinedWordsAreSafe(ws);
    SafeLineIsKept(line);
    SpaceWithin(ws);
  }

  lemma {:induction false} IdleRpzLine(isIp: IpTest, ws: seq<string>, line: string)
    requires IdleWords(isIp, Rpz, ws) && line == Join(ws, ' ')
    ensures RpzLine(VALIDATOR, line) == []
  {
    JoinedWordsAreSafe(ws);
    WordsInvertJoin(ws);
    SafeLineIsKept(line);
    IdleRpz(isIp, ws);
  }

  lemma {:induction false} IdleAdGuardLine(isIp: IpTest, ws: seq<string>, line: string)
    requires IdleWords(isIp, AdGuard, ws) && line == Join(ws, ' ')
    ensures AdGuardLine(VALIDATOR, line) == []
  {
    JoinedWordsAreSafe(ws);
    SafeLineIsKept(line);
    IdleAdGuard(isIp, ws, line);
  }

  lemma {:induction false} PathAfter(w: string, n: nat)
    requires PathRule(w) && n <= |w| && Free(w[..n], '^') && Free(w[..n], '/')
    ensures var rest := w[n..];
            FirstIndex(rest, '^') == |rest| || Has(rest[..FirstIndex(rest, '^')], '/')
  {
    var c, s := FirstIndex(w, '^'), FirstIndex(w, '/');
    IndexAfter(w, n, '^');
    IndexAfter(w, n, '/');
    if c < |w| {
      var front := w[n..][..c - n];
      assert front[s - n] == '/';
      assert FirstIndex(front, '/') < |front|;
    }
  }

  lemma {:induction false} IndexAfter(w: string, n: nat, c: char)
    requires n <= |w| && Free(w[..n], c)
    ensures FirstIndex(w, c) >= n && FirstIndex(w[n..], c) == FirstIndex(w, c) - n
  {
    var k := FirstIndex(w, c);
    forall i | 0 <= i < n ensures w[i] != c { assert w[..n][i] == w[i]; }
    assert k < |w| ==> w[k] == c;
    assert forall i :: 0 <= i < |w[n..]| ==> w[n..][i] == w[n + i];
    FirstIndexUnique(w[n..], c, k - n);
  }

  lemma {:induction false} PathIsSilent(w: string)
    requires PathRule(w)
    ensures AdGuardText(VALIDATOR, w) == []
  {
    if "@@||" <= w {
      assert w[..4] == "@@||";
      PathAfter(w, 4);
    } else if "||" <= w {
      assert w[..2] == "||";
      PathAfter(w, 2);
    }
  }

  lemma {:induction false} IdleAdGuard(isIp: IpTest, ws: seq<string>, line: string)
    requires IdleWords(isIp, AdGuard, ws) && line == Join(ws, ' ')
    ensures AdGuardText(VALIDATOR, line) == []
  {
    if |ws| == 1 && PathRule(ws[0]) {
      PathIsSilent(line);
    } else {
      if "||" <= line { FirstWordLeads(ws, "||"); }
      if "@@||" <= line { FirstWordLeads(ws, "@@||"); }
    }
  }

  /** The words of a policy rule, in any letter case: a dot blocks the name or, behind a star,
      everything below it; either spelling of passthru exempts it. */
  lemma {:induction false} PolicyWords(d: string, rtype: string, action: string)
    requires HostName(d) && SameLetters(rtype, "CNAME") && SafeWord(action)
    ensures action == "." ==> RpzWords(VALIDATOR, [d, rtype, action]) == [Exact(d)]
    ensures action == "." ==> RpzWords(VALIDATOR, ["*." + d, rtype, action]) == [WildcardParent(d)]
    ensures SameLetters(action, "rpz-passthru.") || SameLetters(action, "rpz-passthru") ==>
              RpzWords(VALIDATOR, [d, rtype, action]) == [Allow(d)]
  {
    ActionWords();
    LowerIs(rtype, "cname");
    SafeWordLowers(action);
    LowerIs(action, "rpz-passthru.");
    LowerIs(action, "rpz-passthru");
    LowerKeeps(".");
    PolicyEntries(d, Lower(action));
  }

  lemma {:induction false} PolicyEntries(d: string, action: string)
    requires HostName(d)
    ensures action == "." ==> RpzEntries(VALIDATOR, d, action) == [Exact(d)]
    ensures action == "." ==> RpzEntries(VALIDATOR, "*." + d, action) == [WildcardParent(d)]
    ensures action == "rpz-passthru." || action == "rpz-passthru" ==> RpzEntries(VALIDATOR, d, action) == [Allow(d)]
  {
    HostNameIsAccepted(d);
    assert HostChar(d[0]) && ("*." + d)[2..] == d;
  }

  // ---------------------------------------------------------------------------
  // Inserting a line
  // ---------------------------------------------------------------------------

  lemma {:induction false} CollectAppend(read: LineReader, a: seq<string>, b: seq<string>)
    ensures Collect(read, a + b) == Collect(read, a) + Collect(read, b)
  {
    if b == [] {
      assert a + b == a;
    } else {
      CollectAppend(read, a, b[..|b| - 1]);
      assert (a + b)[..|a + b| - 1] == a + b[..|b| - 1] && (a + b)[|a + b| - 1] == b[|b| - 1];
      AppendAssociates(Collect(read, a), Collect(read, b[..|b| - 1]), read(b[|b| - 1]));
    }
  }

  lemma {:induction false} CollectInsert(read: LineReader, a: seq<string>, l: string, b: seq<string>)
    requires read(l) == []
    ensures Collect(read, a + ([l] + b)) == Collect(read, a + b)
  {
    CollectAppend(read, a, [l] + b);
    CollectAppend(read, [l], b);
    CollectAppend(read, a, b);
    assert [l][..0] == [] && Collect(read, [l]) == [];
  }

  lemma {:induction false} FormatInsert(classify: Classifier, a: seq<string>, l: string, b: seq<string>)
    requires classify(l).None? || exists i :: 0 <= i < |a| && classify(a[i]).Some?
    ensures FirstFormat(classify, a + ([l] + b)) == FirstFormat(classify, a + b)
  {
    if a == [] {
      assert a + ([l] + b) == [l] + b && a + b == b && ([l] + b)[1..] == b;
    } else {
      assert (a + ([l] + b))[1..] == a[1..] + ([l] + b) && (a + b)[1..] == a[1..] + b;
      if classify(a[0]).None? {
        if i :| 0 <= i < |a| && classify(a[i]).Some? { assert a[1..][i - 1] == a[i]; }
        FormatInsert(classify, a[1..], l, b);
      }
    }
  }

  /** The format in which a content is read. */
  function Detected(isIp: IpTest, content: string): ListFormat { FirstFormat(ClassifierFor(isIp), Lines(content)) }

  /** Some line tells the format. */
  predicate Tells(content: string) { exists i :: 0 <= i < |Lines(content)| && !Untelling(Lines(content)[i]) }

  /** A blank line or a comment can be inserted between any two lines of any content, and behind
      a telling line also one from which the format takes nothing: no entry changes. */
  lemma {:induction false} InsertedLineChangesNothing(isIp: IpTest, a: string, line: string, b: string)
    requires WholeLines(a) && PlainLine(line)
    requires || Note(Detected(isIp, a + b), line)
             || (Tells(a) && Idle(isIp, Detected(isIp, a + b), line))
    ensures Parsed(isIp, a + (line + "\n" + b)) == Parsed(isIp, a + b)
  {
    var classify, format := ClassifierFor(isIp), Detected(isIp, a + b);
    LinesInsert(a, line, b);
    UntellingIff(isIp, line);
    if Tells(a) {
      var i :| 0 <= i < |Lines(a)| && !Untelling(Lines(a)[i]);
      UntellingIff(isIp, Lines(a)[i]);
    }
    FormatInsert(classify, Lines(a), line, Lines(b));
    if Note(format, line) { NoteIsSilent(isIp, format, line); } else { IdleIsSilent(isIp, format, line); }
    CollectInsert(ReaderFor(isIp, format), Lines(a), line, Lines(b));
  }

  /** In particular a blank line and a line that starts with `#`, whatever the content. */
  lemma {:induction false} InsertedCommentChangesNothing(isIp: IpTest, a: string, comment: string, b: string)
    requires WholeLines(a) && PlainLine(comment) && (AllBlank(comment) || comment[0] == '#')
    ensures Parsed(isIp, a + (comment + "\n" + b)) == Parsed(isIp, a + b)
  {
    if !AllBlank(comment) { assert comment[..0] == [] && Opens(comment, '#'); }
    InsertedLineChangesNothing(isIp, a, comment, b);
  }

  // ---------------------------------------------------------------------------
  // Comments behind rules
  // ---------------------------------------------------------------------------

  /** What may stand behind a rule on its line: a comment of its format, which in a plain list
      must not follow an address, or anything at all in AdGuard. */
  predicate TailOf(isIp: IpTest, r: Rule, tail: string) {
    || tail == []
    || FormatOf(r) == AdGuard
    || (|tail| >= 2 && tail[0] == ' ' && (tail[1] == '#' || (tail[1] == ';' && FormatOf(r) != Hosts))
        && (r.PlainRule? ==> !isIp(r.name)))
  }

  /** A line that says something ends, once trimmed, inside its tail. */
  lemma {:induction false} TrimTail(p: string, tail: string) returns (rest: string)
    requires p != [] && !IsWhitespace(p[0]) && !IsWhitespace(p[|p| - 1])
    ensures rest <= tail && Trim(p + tail) == p + rest
    ensures |tail| >= 2 && !IsWhitespace(tail[1]) ==> |rest| >= 2
  {
    var line := p + tail;
    assert TrimStart(line) == line;
    TrimEndExact(line);
    var n := |TrimEnd(line)|;
    assert !IsWhitespace(line[|p| - 1]);
    if |tail| >= 2 { assert line[|p| + 1] == tail[1]; }
    rest := tail[..n - |p|];
    assert line[..n] == p + rest;
  }

  lemma {:induction false} JoinCons(ws: seq<string>)
    requires |ws| > 1
    ensures Join(ws, ' ') == ws[0] + [' '] + Join(ws[1..], ' ') && [ws[0]] + ws[1..] == ws
  {
  }

  lemma {:induction false} JoinTail(w: string, rest: string, tail: string)
    ensures (w + [' '] + rest) + tail == w + (" " + (rest + tail))
  {
  }

  lemma {:induction false} TailWordsStep(w: string, rest: string, tail: string)
    requires SafeWord(w) && rest != [] && SafeChar(rest[0])
    ensures Words((w + [' '] + rest) + tail) == [w] + Words(rest + tail)
  {
    JoinTail(w, rest, tail);
    WordsStep(w, " " + (rest + tail));
    WordsSkipSpace(rest + tail);
  }

  lemma {:induction false} TailWords(ws: seq<string>, tail: string)
    requires SafeWords(ws) && (tail != [] ==> tail[0] == ' ')
    ensures Words(Join(ws, ' ') + tail) == ws + Words(tail)
  {
    if |ws| == 1 {
      WordsStep(ws[0], tail);
    } else {
      var rest := Join(ws[1..], ' ');
      JoinCons(ws);
      JoinedWordsAreSafe(ws[1..]);
      TailWordsStep(ws[0], rest, tail);
      TailWords(ws[1..], tail);
      AppendAssociates([ws[0]], ws[1..], Words(tail));
    }
  }

  /** The first word of a comment starts with its mark. */
  lemma {:induction false} CommentWord(tail: string)
    requires |tail| >= 2 && tail[0] == ' ' && !IsWhitespace(tail[1])
    ensures |Words(tail)| >= 1 && Words(tail)[0] != [] && Words(tail)[0][0] == tail[1]
  {
    assert tail[1..][0] == tail[1];
    assert TrimStart(tail) == TrimStart(tail[1..]) == tail[1..];
  }

  lemma {:induction false} MarkIsNoType(w: string)
    requires w != [] && (w[0] == '#' || w[0] == ';')
    ensures Lower(w) !in RECORD_TYPES
  {
    assert Lower(w)[0] == w[0];
    assert forall t :: t in RECORD_TYPES ==> t[0] != '#' && t[0] != ';';
  }

  /** The cleaned text of a rule with a comment behind it is the rule. */
  lemma {:induction false} CutTail(p: string, tail: string, c: char, d: char)
    requires p != [] && Trimmed(p) && Free(p, c) && Free(p, d) && c != ' ' && d != ' '
    requires tail == [] || (|tail| >= 2 && tail[0] == ' ' && (tail[1] == c || tail[1] == d))
    ensures Trim(StripComment(StripComment(p + tail, c), d)) == p
  {
    var once := StripComment(p + tail, c);
    if tail == [] {
      assert p + tail == p;
      FirstIndexUnique(p, c, |p|);
      FirstIndexUnique(p, d, |p|);
      TrimOfTrimmed(p);
    } else {
      var k := FirstIndex(p + tail, c);
      assert forall i :: 0 <= i < |p| ==> (p + tail)[i] == p[i];
      assert (p + tail)[|p|] == ' ' && (p + tail)[|p| + 1] == tail[1];
      assert k > |p|;
      CutOnce(p, tail, c, d, k);
      TrimEndOf(p, " ");
      assert TrimStart(p + " ") == p + " ";
    }
  }

  lemma {:induction false} CutOnce(p: string, tail: string, c: char, d: char, k: nat)
    requires Free(p, d) && d != ' ' && |tail| >= 2 && tail[0] == ' ' && (tail[1] == c || tail[1] == d)
    requires k == FirstIndex(p + tail, c) && k > |p|
    ensures StripComment((p + tail)[..k], d) == p + " "
  {
    var line := p + tail;
    var once := line[..k];
    assert line[|p|] == ' ' && line[|p| + 1] == tail[1];
    assert forall i :: 0 <= i <= |p| ==> once[i] == line[i] && once[i] != d;
    assert tail[1] == c ==> k == |p| + 1;
    FirstIndexUnique(once, d, |p| + 1);
    assert once[..|p| + 1] == p + " ";
  }

  lemma {:induction false} RuleTextIsSafe(isIp: IpTest, r: Rule)
    requires Printable(isIp, r)
    ensures var p := PrintRule(r);
            p != [] && Trimmed(p) && Free(p, '#') && Free(p, ';') && SafeChar(p[0]) && SafeChar(p[|p| - 1])
  {
    PrintedRule(isIp, r);
  }

  lemma {:induction false} HostsTail(isIp: IpTest, r: Rule, tail: string)
    requires Printable(isIp, r) && r.HostsRule? && TailOf(isIp, r, tail)
    ensures HostsLine(VALIDATOR, isIp, PrintRule(r) + tail) == HostsLine(VALIDATOR, isIp, PrintRule(r))
  {
    RuleTextIsSafe(isIp, r);
    var p := PrintRule(r);
    CutAgain(p, tail, '#');
    CutAgain(p, [], '#');
    assert p + [] == p;
  }

  lemma {:induction false} CutAgain(p: string, tail: string, c: char)
    requires p != [] && Trimmed(p) && Free(p, c) && c != ' '
    requires tail == [] || (|tail| >= 2 && tail[0] == ' ' && tail[1] == c)
    ensures Trim(StripComment(p + tail, c)) == p
  {
    if tail == [] {
      assert p + tail == p;
      FirstIndexUnique(p, c, |p|);
      TrimOfTrimmed(p);
    } else {
      FirstIndexUnique(p + tail, c, |p| + 1);
      assert (p + tail)[..|p| + 1] == p + " ";
      TrimEndOf(p, " ");
      assert TrimStart(p + " ") == p + " ";
    }
  }

  lemma {:induction false} PlainTail(isIp: IpTest, r: Rule, tail: string)
    requires Printable(isIp, r) && r.PlainRule? && TailOf(isIp, r, tail)
    ensures PlainLineEntries(VALIDATOR, PrintRule(r) + tail) == PlainLineEntries(VALIDATOR, PrintRule(r))
  {
    RuleTextIsSafe(isIp, r);
    CutTail(PrintRule(r), tail, '#', ';');
    CutTail(PrintRule(r), [], '#', ';');
    assert PrintRule(r) + [] == PrintRule(r);
  }

  lemma {:induction false} RpzTail(isIp: IpTest, r: Rule, tail: string)
    requires Printable(isIp, r) && FormatOf(r) == Rpz && TailOf(isIp, r, tail)
    ensures RpzLine(VALIDATOR, PrintRule(r) + tail) == RpzLine(VALIDATOR, PrintRule(r))
  {
    RuleTextIsSafe(isIp, r);
    CutTail(PrintRule(r), tail, ';', '#');
    CutTail(PrintRule(r), [], ';', '#');
    assert PrintRule(r) + [] == PrintRule(r);
  }

  lemma {:induction false} CaretEndsBefore(prefix: string, d: string, rest: string)
    requires HostText(d)
    ensures var after := (prefix + d + "^" + rest)[|prefix|..];
            FirstIndex(after, '^') == |d| && after[..|d|] == d && |after| > |d| && !Has(d, '/')
  {
    var after := (prefix + d + "^" + rest)[|prefix|..];
    assert after == d + "^" + rest;
    FirstIndexUnique(after, '^', |d|);
  }

  /** AdGuard takes nothing from what follows the caret. */
  lemma {:induction false} AdGuardBlockTail(d: string, rest: string, text: string)
    requires HostText(d) && Keeps(VALIDATOR, d) && text == "||" + d + "^" + rest
    ensures AdGuardText(VALIDATOR, text) == [Exact(d), WildcardParent(d)]
  {
    CaretEndsBefore("||", d, rest);
  }

  lemma {:induction false} AdGuardAllowTail(d: string, rest: string, text: string)
    requires HostText(d) && Keeps(VALIDATOR, d) && text == "@@||" + d + "^" + rest
    ensures AdGuardText(VALIDATOR, text) == [Allow(d)]
  {
    CaretEndsBefore("@@||", d, rest);
  }

  lemma {:induction false} AdGuardTail(r: Rule, rest: string)
    requires FormatOf(r) == AdGuard && HostText(r.name) && Keeps(VALIDATOR, r.name)
    ensures AdGuardText(VALIDATOR, PrintRule(r) + rest) == Meaning(r)
  {
    match r
    case AdGuardBlock(d) => AdGuardBlockTail(d, rest, PrintRule(r) + rest);
    case AdGuardAllow(d) => AdGuardAllowTail(d, rest, PrintRule(r) + rest);
  }

  lemma {:induction false} AdGuardRuleWithTail(isIp: IpTest, r: Rule, tail: string)
    requires Printable(isIp, r) && FormatOf(r) == AdGuard
    ensures AdGuardLine(VALIDATOR, PrintRule(r) + tail) == Meaning(r)
  {
    RuleTextIsSafe(isIp, r);
    NamesAreKept(isIp, r);
    var rest := TrimTail(PrintRule(r), tail);
    AdGuardTail(r, rest);
  }

  lemma {:induction false} HostsRuleWithTail(isIp: IpTest, r: Rule, tail: string)
    requires Printable(isIp, r) && r.HostsRule? && TailOf(isIp, r, tail)
    ensures HostsLine(VALIDATOR, isIp, PrintRule(r) + tail) == Meaning(r)
  {
    NamesAreKept(isIp, r);
    HostsTail(isIp, r, tail);
    HostsRuleIsRead(VALIDATOR, isIp, r);
  }

  lemma {:induction false} PlainRuleWithTail(isIp: IpTest, r: Rule, tail: string)
    requires Printable(isIp, r) && r.PlainRule? && TailOf(isIp, r, tail)
    ensures PlainLineEntries(VALIDATOR, PrintRule(r) + tail) == Meaning(r)
  {
    NamesAreKept(isIp, r);
    PlainTail(isIp, r, tail);
    PlainRuleIsRead(VALIDATOR, isIp, r);
  }

  lemma {:induction false} RpzRuleWithTail(isIp: IpTest, r: Rule, tail: string)
    requires Printable(isIp, r) && FormatOf(r) == Rpz && TailOf(isIp, r, tail)
    ensures RpzLine(VALIDATOR, PrintRule(r) + tail) == Meaning(r)
  {
    NamesAreKept(isIp, r);
    RpzTail(isIp, r, tail);
    RpzRuleIsRead(VALIDATOR, isIp, r);
  }

  lemma {:induction false} ReaderOf(isIp: IpTest, format: ListFormat, line: string)
    requires ByteLen(line) <= 512
    ensures ReaderFor(isIp, format)(line) ==
            match format
            case Hosts => HostsLine(VALIDATOR, isIp, line)
            case Plain => PlainLineEntries(VALIDATOR, line)
            case Rpz => RpzLine(VALIDATOR, line)
            case AdGuard => AdGuardLine(VALIDATOR, line)
  {
  }

  /** A rule is read as what it means with any such tail. */
  lemma {:induction false} RuleWithTailIsRead(isIp: IpTest, r: Rule, tail: string)
    requires Printable(isIp, r) && TailOf(isIp, r, tail) && ByteLen(PrintRule(r) + tail) <= 512
    ensures ReaderFor(isIp, FormatOf(r))(PrintRule(r) + tail) == Meaning(r)
  {
    ReaderOf(isIp, FormatOf(r), PrintRule(r) + tail);
    match FormatOf(r)
    case Hosts => HostsRuleWithTail(isIp, r, tail);
    case Plain => PlainRuleWithTail(isIp, r, tail);
    case Rpz => RpzRuleWithTail(isIp, r, tail);
    case AdGuard => AdGuardRuleWithTail(isIp, r, tail);
  }

  lemma {:induction false} AdGuardIsTold(isIp: IpTest, r: Rule, rest: string)
    requires Printable(isIp, r) && FormatOf(r) == AdGuard
    ensures ClassifyText(isIp, PrintRule(r) + rest, Words(PrintRule(r) + rest)) == Some(AdGuard)
  {
    var p := PrintRule(r);
    match r
    case AdGuardBlock(d) => assert p[|p| - 1] == '^' && (p + rest)[|p| - 1] == '^';
    case AdGuardAllow(d) => assert p[|p| - 1] == '^' && (p + rest)[|p| - 1] == '^';
  }

  /** The words behind a rule do not change its format. */
  lemma {:induction false} WordsBehindRule(isIp: IpTest, r: Rule, text: string, more: seq<string>)
    requires Printable(isIp, r) && FormatOf(r) != AdGuard && Leads(text) && SafeChar(text[0]) && text[0] == RuleWords(r)[0][0]
    requires more != [] && more[0] != [] && (more[0][0] == '#' || more[0][0] == ';') && (r.PlainRule? ==> !isIp(r.name))
    ensures ClassifyText(isIp, text, RuleWords(r) + more) == Some(FormatOf(r))
  {
    var words := RuleWords(r) + more;
    match r
    case HostsRule(ip, names) => HostNameIsNoType(names[0]); assert IpChar(ip[0]) && words[1] == names[0];
    case PlainRule(d) => MarkIsNoType(more[0]); assert HostChar(d[0]) && words[1] == more[0];
    case RpzBlock(d) => assert HostChar(d[0]) && Lower("CNAME") == RECORD_TYPES[0];
    case RpzBlockBelow(d) => assert Lower("CNAME") == RECORD_TYPES[0];
    case RpzAllow(d) => assert HostChar(d[0]) && Lower("CNAME") == RECORD_TYPES[0];
  }

  lemma {:induction false} TextBehindRule(isIp: IpTest, r: Rule, rest: string)
    requires Printable(isIp, r) && FormatOf(r) != AdGuard && (r.PlainRule? ==> !isIp(r.name))
    requires |rest| >= 2 && rest[0] == ' ' && (rest[1] == '#' || rest[1] == ';')
    ensures ClassifyText(isIp, PrintRule(r) + rest, Words(PrintRule(r) + rest)) == Some(FormatOf(r))
  {
    PrintedRule(isIp, r);
    RuleIsMadeOfWords(isIp, r);
    RuleWordsAreSafe(r);
    TailWords(RuleWords(r), rest);
    CommentWord(rest);
    WordsBehindRule(isIp, r, PrintRule(r) + rest, Words(rest));
  }

  lemma {:induction false} BareRuleIsTold(isIp: IpTest, r: Rule)
    requires Printable(isIp, r)
    ensures ClassifyText(isIp, PrintRule(r), Words(PrintRule(r))) == Some(FormatOf(r))
  {
    PrintedRule(isIp, r);
    RuleIsClassified(isIp, r, PrintRule(r));
  }

  lemma {:induction false} TailIsCut(isIp: IpTest, r: Rule, tail: string, rest: string)
    requires TailOf(isIp, r, tail) && FormatOf(r) != AdGuard && rest <= tail && rest != []
    requires |tail| >= 2 && !IsWhitespace(tail[1]) ==> |rest| >= 2
    ensures |rest| >= 2 && rest[0] == ' ' && (rest[1] == '#' || rest[1] == ';') && (r.PlainRule? ==> !isIp(r.name))
  {
  }

  /** A rule tells its format with any such tail. */
  lemma {:induction false} RuleWithTailIsTold(isIp: IpTest, r: Rule, tail: string)
    requires Printable(isIp, r) && TailOf(isIp, r, tail)
    ensures ClassifierFor(isIp)(PrintRule(r) + tail) == Some(FormatOf(r))
  {
    var p := PrintRule(r);
    RuleTextIsSafe(isIp, r);
    var rest := TrimTail(p, tail);
    if FormatOf(r) == AdGuard {
      AdGuardIsTold(isIp, r, rest);
    } else if rest == [] {
      assert p + rest == p;
      BareRuleIsTold(isIp, r);
    } else {
      TailIsCut(isIp, r, tail, rest);
      TextBehindRule(isIp, r, rest);
    }
  }

  // ---------------------------------------------------------------------------
  // Published lists
  // ---------------------------------------------------------------------------

  /** A line of a list: a rule with what follows it, a blank line or comment, or a record of an
      RPZ that is no policy rule, such as its SOA. */
  datatype ListLine = RuleLine(rule: Rule, tail: string) | NoteLine(text: string) | ZoneLine(words: seq<string>)

  function PrintLine(l: ListLine): string {
    match l
    case RuleLine(r, tail) => PrintRule(r) + tail
    case NoteLine(text) => text
    case ZoneLine(ws) => if ws == [] then "" else Join(ws, ' ')
  }

  /** The record types that tell an RPZ. */
  predicate IsRecordType(w: string) {
    || SameLetters(w, "CNAME") || SameLetters(w, "A") || SameLetters(w, "AAAA")
    || SameLetters(w, "TXT") || SameLetters(w, "SOA") || SameLetters(w, "NS")
  }

  predicate IsZoneLine(isIp: IpTest, ws: seq<string>) {
    IdleWords(isIp, Rpz, ws) && |ws| >= 3 && IsRecordType(ws[1]) && Leads(ws[0]) && !("||" <= ws[0]) && !("@@||" <= ws[0])
  }

  lemma {:induction false} RecordTypeIsKnown(w: string)
    requires IsRecordType(w)
    ensures Lower(w) in RECORD_TYPES
  {
    forall t | t in ["CNAME", "A", "AAAA", "TXT", "SOA", "NS"] && SameLetters(w, t) ensures Lower(w) == Lower(t) { SameLettersIff(w, t); }
    RecordTypesLowered();
  }

  lemma {:induction false} RecordTypesLowered()
    ensures Lower("CNAME") == "cname" && Lower("A") == "a" && Lower("AAAA") == "aaaa"
    ensures Lower("TXT") == "txt" && Lower("SOA") == "soa" && Lower("NS") == "ns"
  {
  }

  lemma {:induction false} ZoneWordsAreTold(isIp: IpTest, ws: seq<string>, line: string)
    requires IsZoneLine(isIp, ws) && line != [] && line[0] == ws[0][0] && SafeChar(line[0])
    requires !("||" <= line) && !("@@||" <= line)
    ensures ClassifyText(isIp, line, ws) == Some(Rpz)
  {
    RecordTypeIsKnown(ws[1]);
  }

  lemma {:induction false} ZoneLineIsTold(isIp: IpTest, ws: seq<string>)
    requires IsZoneLine(isIp, ws)
    ensures ClassifierFor(isIp)(Join(ws, ' ')) == Some(Rpz)
  {
    var line := Join(ws, ' ');
    JoinedWordsAreSafe(ws);
    WordsInvertJoin(ws);
    SafeLineIsKept(line);
    if "||" <= line { FirstWordLeads(ws, "||"); }
    if "@@||" <= line { FirstWordLeads(ws, "@@||"); }
    ZoneWordsAreTold(isIp, ws, line);
  }

  function PrintLines(ls: seq<ListLine>): seq<string> { seq(|ls|, i requires 0 <= i < |ls| => PrintLine(ls[i])) }

  /** The rules among the lines. */
  function RulesIn(ls: seq<ListLine>): seq<Rule> {
    if ls == [] then []
    else RulesIn(ls[..|ls| - 1]) + (if ls[|ls| - 1].RuleLine? then [ls[|ls| - 1].rule] else [])
  }

  predicate GoodLine(isIp: IpTest, format: ListFormat, l: ListLine) {
    && PlainLine(PrintLine(l))
    && match l
       case RuleLine(r, tail) =>
         Printable(isIp, r) && FormatOf(r) == format && TailOf(isIp, r, tail) && ByteLen(PrintRule(r) + tail) <= 512
       case NoteLine(text) => Note(format, text)
       case ZoneLine(ws) => format == Rpz && IsZoneLine(isIp, ws)
  }

  /** `content` is a list of one format.  (One of nothing but notes is read as a plain list.) */
  predicate Publishes(isIp: IpTest, format: ListFormat, ls: seq<ListLine>, content: string) {
    && (forall i :: 0 <= i < |ls| ==> GoodLine(isIp, format, ls[i]))
    && ((forall i :: 0 <= i < |ls| ==> ls[i].NoteLine?) ==> format == Plain)
    && content == Unlines(PrintLines(ls))
  }

  function LineMeaning(l: ListLine): seq<ParsedEntry> { if l.RuleLine? then Meaning(l.rule) else [] }

  ghost predicate LineReadsBack(classify: Classifier, read: LineReader, format: ListFormat, l: ListLine) {
    && read(PrintLine(l)) == LineMeaning(l)
    && classify(PrintLine(l)) == if l.NoteLine? then None else Some(format)
  }

  lemma {:induction false} NoteIsUntelling(isIp: IpTest, format: ListFormat, text: string)
    requires Note(format, text)
    ensures ClassifierFor(isIp)(text).None?
  {
    UntellingIff(isIp, text);
  }

  lemma {:induction false} GoodLineReadsBack(isIp: IpTest, format: ListFormat, l: ListLine)
    requires GoodLine(isIp, format, l)
    ensures LineReadsBack(ClassifierFor(isIp), ReaderFor(isIp, format), format, l)
  {
    match l
    case RuleLine(r, tail) =>
      RuleWithTailIsRead(isIp, r, tail);
      RuleWithTailIsTold(isIp, r, tail);
    case NoteLine(text) =>
      NoteIsSilent(isIp, format, text);
      NoteIsUntelling(isIp, format, text);
    case ZoneLine(ws) =>
      ZoneLineIsTold(isIp, ws);
      IdleIsSilent(isIp, format, PrintLine(l));
  }

  lemma {:induction false} MeaningsSnoc(rules: seq<Rule>, r: Rule)
    ensures Meanings(rules + [r]) == Meanings(rules) + Meaning(r)
  {
    assert (rules + [r])[..|rules|] == rules;
  }

  lemma {:induction false} CollectedLines(read: LineReader, ls: seq<ListLine>)
    requires forall i :: 0 <= i < |ls| ==> read(PrintLine(ls[i])) == LineMeaning(ls[i])
    ensures Collect(read, PrintLines(ls)) == Meanings(RulesIn(ls))
  {
    if ls != [] {
      var front, l := ls[..|ls| - 1], ls[|ls| - 1];
      CollectedLines(read, front);
      assert PrintLines(ls)[..|ls| - 1] == PrintLines(front) && PrintLines(ls)[|ls| - 1] == PrintLine(l);
      if l.RuleLine? { MeaningsSnoc(RulesIn(front), l.rule); } else { assert RulesIn(ls) == RulesIn(front); }
    }
  }

  lemma {:induction false} ToldByRules(classify: Classifier, format: ListFormat, ls: seq<ListLine>)
    requires forall i :: 0 <= i < |ls| ==> classify(PrintLine(ls[i])) == if ls[i].NoteLine? then None else Some(format)
    requires (forall i :: 0 <= i < |ls| ==> ls[i].NoteLine?) ==> format == Plain
    ensures FirstFormat(classify, PrintLines(ls)) == format
  {
    forall i | 0 <= i < |ls| ensures classify(PrintLines(ls)[i]) == if ls[i].NoteLine? then None else Some(format) { }
    if i :| 0 <= i < |ls| && !ls[i].NoteLine? { assert classify(PrintLines(ls)[i]).Some?; }
  }

  /** A published list of any of the four formats, with comments and blank lines anywhere and
      comments behind its rules, is parsed into exactly the entries its rules mean, in order. */
  lemma {:induction false} ParseInvertsPublish(isIp: IpTest, format: ListFormat, ls: seq<ListLine>, content: string)
    requires Publishes(isIp, format, ls, content)
    ensures Parsed(isIp, content) == Meanings(RulesIn(ls))
  {
    var classify, read := ClassifierFor(isIp), ReaderFor(isIp, format);
    forall i | 0 <= i < |ls| ensures LineReadsBack(classify, read, format, ls[i]) { GoodLineReadsBack(isIp, format, ls[i]); }
    ToldByRules(classify, format, ls);
    LinesInvertUnlines(PrintLines(ls));
    CollectedLines(read, ls);
  }

  /** `parse`: whatever the content, every entry is canonical; and if the content is a published
      list, the entries are exactly what its rules mean. */
  method Parse(isIp: IpTest, content: string) returns (entries: seq<ParsedEntry>)
    ensures AllGood(entries)
    ensures forall format, ls :: Publishes(isIp, format, ls, content) ==> entries == Meanings(RulesIn(ls))
    ensures entries == Parsed(isIp, content)
  {
    var lines := Lines(content);
    var format := FirstFormat(ClassifierFor(isIp), lines);
    entries := CollectEntries(ReaderFor(isIp, format), lines);
    ParsedEntriesAreCanonical(isIp, content);
    forall f, ls | Publishes(isIp, f, ls, content) ensures Parsed(isIp, content) == Meanings(RulesIn(ls)) {
      ParseInvertsPublish(isIp, f, ls, content);
    }
  }
}
