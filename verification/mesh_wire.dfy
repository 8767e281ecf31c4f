/** The text of a signed mesh-zone bundle: wire split, hexadecimal, fields. */
module MeshWire {
  import opened Names
  import opened Spelling
  import opened Text

  datatype MeshError =
    | TooLarge
    | MissingSignature
    | SignatureMismatch
    | MissingField(name: string)
    | InvalidField(field: string)
    | ZoneMismatch
    | Stale
    | Rollback(candidate: (nat, nat), current: (nat, nat))

  // ---------------------------------------------------------------------------
  // Signature extraction
  // ---------------------------------------------------------------------------

  const MARKER: string := "\nsignature="

  predicate OccursAt(raw: string, mark: string, p: nat) {
    p + |mark| <= |raw| && raw[p..p + |mark|] == mark
  }

  /** The last position below `k` where `mark` starts. */
  function LastOccurrence(raw: string, mark: string, k: nat): (out: Option<nat>)
    ensures out.Some? ==> out.value < k && OccursAt(raw, mark, out.value)
    ensures out.Some? ==> forall q :: out.value < q < k ==> !OccursAt(raw, mark, q)
    ensures out.None? ==> forall q :: 0 <= q < k ==> !OccursAt(raw, mark, q)
  {
    if k == 0 then None
    else if OccursAt(raw, mark, k - 1) then Some(k - 1)
    else LastOccurrence(raw, mark, k - 1)
  }

  /** Cut at the last `mark`: the first part keeps the mark's first character. */
  function CutAtLast(raw: string, mark: string): Option<(string, string)> {
    var pos := LastOccurrence(raw, mark, |raw|);
    if pos.None? then None else Some((raw[..pos.value + 1], raw[pos.value + |mark|..]))
  }

  /** `split_payload_and_signature`. */
  function SplitPayload(raw: string): Result<(string, string), MeshError> {
    var cut := CutAtLast(raw, MARKER);
    if cut.None? then Err(MissingSignature)
    else
      var sig := Trim(cut.value.1);
      if sig == [] then Err(MissingSignature) else Ok((cut.value.0, sig))
  }

  /** The wire form: the signature line appended to a newline-terminated payload. */
  function RenderWire(payload: string, sig: string): string {
    payload + "signature=" + sig + "\n"
  }

  predicate NoWhitespace(s: string) { forall i :: 0 <= i < |s| ==> !IsWhitespace(s[i]) }

  lemma {:induction false} TrimOneNewline(s: string)
    requires s != [] && NoWhitespace(s)
    ensures Trim(s + "\n") == s
  {
    var t := s + "\n";
    assert t[0] == s[0] && t[|t| - 1] == '\n';
    assert TrimStart(t) == t;
    assert t[..|t| - 1] == s;
    assert TrimEnd(t) == TrimEnd(s);
  }

  /** The text after the mark holds no newline except a final one. */
  predicate OneLine(tail: string) { tail != [] && Free(tail[..|tail| - 1], '\n') }

  lemma {:induction false} NoLaterMark(front: string, mark: string, tail: string, q: nat)
    requires |mark| >= 2 && mark[0] == '\n' && Free(mark[1..], '\n') && OneLine(tail)
    requires |front| < q
    ensures !OccursAt(front + mark + tail, mark, q)
  {
    var raw := front + mark + tail;
    if q + |mark| <= |raw| {
      var j := q - |front|;
      if j < |mark| {
        assert raw[q] == mark[j] == mark[1..][j - 1];
      } else {
        assert raw[q] == tail[..|tail| - 1][j - |mark|];
      }
      assert raw[q..q + |mark|][0] != mark[0];
    }
  }

  lemma {:induction false} LastOccurrenceIs(raw: string, mark: string, k: nat, p: nat)
    requires p < k && OccursAt(raw, mark, p)
    requires forall q :: p < q < k ==> !OccursAt(raw, mark, q)
    ensures LastOccurrence(raw, mark, k) == Some(p)
  {
    if p < k - 1 { LastOccurrenceIs(raw, mark, k - 1, p); }
  }

  lemma {:induction false} RenderedParts(front: string, mark: string, tail: string)
    requires |mark| >= 2
    ensures var raw := front + mark + tail;
            && raw[|front|..|front| + |mark|] == mark
            && raw[|front| + |mark|..] == tail
            && raw[..|front| + 1] == front + [mark[0]]
  {
  }

  lemma {:induction false} CutInvertsGlue(front: string, mark: string, tail: string)
    requires |mark| >= 2 && mark[0] == '\n' && Free(mark[1..], '\n') && OneLine(tail)
    ensures CutAtLast(front + mark + tail, mark) == Some((front + [mark[0]], tail))
  {
    var raw := front + mark + tail;
    RenderedParts(front, mark, tail);
    forall q | |front| < q < |raw| ensures !OccursAt(raw, mark, q) {
      NoLaterMark(front, mark, tail, q);
    }
    LastOccurrenceIs(raw, mark, |raw|, |front|);
  }

  lemma {:induction false} SignatureIsOneLine(sig: string)
    requires NoWhitespace(sig)
    ensures OneLine(sig + "\n")
  {
    assert (sig + "\n")[..|sig|] == sig;
  }

  /** Splitting inverts rendering, even for a payload that contains the marker itself. */
  lemma {:induction false} SplitInvertsRender(payload: string, sig: string)
    requires EndsWith(payload, "\n") && sig != [] && NoWhitespace(sig)
    ensures SplitPayload(RenderWire(payload, sig)) == Ok((payload, sig))
  {
    var front := payload[..|payload| - 1];
    assert payload == front + "\n";
    assert RenderWire(payload, sig) == front + MARKER + (sig + "\n");
    SignatureIsOneLine(sig);
    CutInvertsGlue(front, MARKER, sig + "\n");
    TrimOneNewline(sig);
  }

  /** Whatever is cut, the signed bytes are a prefix of the file that ends where its last
      signature line begins, and the remainder follows the marker; nothing is cut only when
      there is no marker at all. */
  lemma {:induction false} CutIsExact(raw: string, mark: string)
    requires mark != []
    ensures var r := CutAtLast(raw, mark);
            r.Some? ==> && r.value.0 != [] && r.value.0 <= raw
                        && OccursAt(raw, mark, |r.value.0| - 1)
                        && (forall q :: |r.value.0| <= q < |raw| ==> !OccursAt(raw, mark, q))
                        && raw == r.value.0[..|r.value.0| - 1] + mark + r.value.1
    ensures CutAtLast(raw, mark).None? <==> forall q :: 0 <= q < |raw| ==> !OccursAt(raw, mark, q)
  {
    var pos := LastOccurrence(raw, mark, |raw|);
    if pos.Some? {
      var p := pos.value;
      assert raw == raw[..p] + raw[p..p + |mark|] + raw[p + |mark|..];
      assert raw[..p + 1][..p] == raw[..p];
    }
  }

  // ---------------------------------------------------------------------------
  // Hexadecimal
  // ---------------------------------------------------------------------------

  function Nibble(c: char): (n: Option<nat>)
    ensures n.Some? ==> n.value < 16
  {
    if '0' <= c <= '9' then Some(c as int - '0' as int)
    else if 'a' <= c <= 'f' then Some(c as int - 'a' as int + 10)
    else if 'A' <= c <= 'F' then Some(c as int - 'A' as int + 10)
    else None
  }

  function HexDigit(n: nat): char
    requires n < 16
  {
    if n < 10 then ('0' as int + n) as char else ('a' as int + n - 10) as char
  }

  /** `text` spells `bytes`, two digits each, in either letter case. */
  predicate Spells(text: string, bytes: seq<nat>) {
    && |text| == 2 * |bytes|
    && forall i :: 0 <= i < |bytes| ==>
         && Nibble(text[2 * i]).Some? && Nibble(text[2 * i + 1]).Some?
         && bytes[i] == 16 * Nibble(text[2 * i]).value + Nibble(text[2 * i + 1]).value
  }

  /** `decode_hex_fixed`: it succeeds exactly on texts that spell `n` bytes. */
  method DecodeHexFixed(s: string, n: nat) returns (out: Option<seq<nat>>)
    ensures out.Some? ==> |out.value| == n && Spells(Trim(s), out.value)
    ensures out.None? ==> forall bytes :: |bytes| == n ==> !Spells(Trim(s), bytes)
  {
    out := DecodeText(Trim(s), n);
  }

  method DecodeText(text: string, n: nat) returns (out: Option<seq<nat>>)
    ensures out.Some? ==> |out.value| == n && Spells(text, out.value)
    ensures out.None? ==> forall bytes :: |bytes| == n ==> !Spells(text, bytes)
  {
    if |text| != 2 * n { return None; }
    var bytes := [];
    for i := 0 to n
      invariant |bytes| == i
      invariant forall j :: 0 <= j < i ==>
        && Nibble(text[2 * j]).Some? && Nibble(text[2 * j + 1]).Some?
        && bytes[j] == 16 * Nibble(text[2 * j]).value + Nibble(text[2 * j + 1]).value
    {
      var hi, lo := Nibble(text[2 * i]), Nibble(text[2 * i + 1]);
      if hi.None? || lo.None? { return None; }
      bytes := bytes + [16 * hi.value + lo.value];
    }
    return Some(bytes);
  }

  /** The text that prints every byte as two lowercase digits. */
  function HexText(bytes: seq<nat>): string
    requires forall i :: 0 <= i < |bytes| ==> bytes[i] < 256
  {
    if bytes == [] then []
    else [HexDigit(bytes[0] / 16), HexDigit(bytes[0] % 16)] + HexText(bytes[1..])
  }

  /** The two digits of one byte. */
  lemma {:induction false} HexByte(b: nat)
    requires b < 256
    ensures Nibble(HexDigit(b / 16)) == Some(b / 16) && Nibble(HexDigit(b % 16)) == Some(b % 16)
  {
  }

  lemma {:induction false} HexTextAt(bytes: seq<nat>, i: nat)
    requires i < |bytes| && forall k :: 0 <= k < |bytes| ==> bytes[k] < 256
    ensures |HexText(bytes)| == 2 * |bytes|
    ensures HexText(bytes)[2 * i] == HexDigit(bytes[i] / 16) && HexText(bytes)[2 * i + 1] == HexDigit(bytes[i] % 16)
  {
    if i > 0 {
      HexTextAt(bytes[1..], i - 1);
      assert bytes[1..][i - 1] == bytes[i];
    } else if |bytes| > 1 {
      HexTextAt(bytes[1..], 0);
    }
  }

  /** Decoding inverts printing: the printed text spells the bytes and no others. */
  lemma {:induction false} HexTextSpells(bytes: seq<nat>, other: seq<nat>)
    requires forall i :: 0 <= i < |bytes| ==> bytes[i] < 256
    ensures Spells(HexText(bytes), other) <==> other == bytes
  {
    assert bytes == [] ==> HexText(bytes) == [];
    forall i | 0 <= i < |bytes|
      ensures |HexText(bytes)| == 2 * |bytes|
      ensures Nibble(HexText(bytes)[2 * i]) == Some(bytes[i] / 16) && Nibble(HexText(bytes)[2 * i + 1]) == Some(bytes[i] % 16)
    {
      HexTextAt(bytes, i);
      HexByte(bytes[i]);
    }
    assert |bytes| > 0 ==> |HexText(bytes)| == 2 * |bytes|;
  }

  lemma {:induction false} NibbleIgnoresCase(a: char, b: char)
    requires SameLetter(a, b)
    ensures Nibble(a) == Nibble(b)
  {
  }

  /** Capital digits spell the same bytes. */
  lemma {:induction false} HexIgnoresCase(a: string, b: string, bytes: seq<nat>)
    requires SameLetters(a, b)
    ensures Spells(a, bytes) <==> Spells(b, bytes)
  {
    forall i | 0 <= i < |a| ensures Nibble(a[i]) == Nibble(b[i]) { NibbleIgnoresCase(a[i], b[i]); }
  }

  // ---------------------------------------------------------------------------
  // Fields
  // ---------------------------------------------------------------------------

  datatype Field = Field(key: string, value: string)

  /** One `key=value` line, both sides trimmed; None when there is no `=`. */
  function ParseLine(line: string): Option<Field> {
    var k := FirstIndex(line, '=');
    if k == |line| then None else Some(Field(Trim(line[..k]), Trim(line[k + 1..])))
  }

  /** `line` is `left=right`, cut at its first equals sign. */
  predicate CutsInto(line: string, left: string, right: string) { Free(left, '=') && line == left + "=" + right }

  ghost predicate TrimsTo(s: string, core: string) { exists lead, trail :: IsCore(s, core, lead, trail) }

  lemma {:induction false} TrimsToIff(s: string, core: string)
    ensures TrimsTo(s, core) <==> core == Trim(s)
  {
    TrimIsCore(s);
    if TrimsTo(s, core) {
      var lead, trail :| IsCore(s, core, lead, trail);
      CoreIsTrim(s, core, lead, trail);
    }
  }

  lemma {:induction false} CutsOnce(line: string, left: string, right: string)
    requires CutsInto(line, left, right)
    ensures FirstIndex(line, '=') == |left| && line[..|left|] == left && line[|left| + 1..] == right
  {
    FirstIndexUnique(line, '=', |left|);
  }

  /** A line is read as a field exactly when its two sides of the first equals sign are the key
      and the value, up to white space around them. */
  lemma {:induction false} LineIsFieldIff(line: string, f: Field)
    ensures ParseLine(line) == Some(f)
       <==> exists left, right :: CutsInto(line, left, right) && TrimsTo(left, f.key) && TrimsTo(right, f.value)
  {
    var k := FirstIndex(line, '=');
    if ParseLine(line) == Some(f) {
      var left, right := line[..k], line[k + 1..];
      assert CutsInto(line, left, right);
      TrimsToIff(left, f.key);
      TrimsToIff(right, f.value);
    }
    if left, right :| CutsInto(line, left, right) && TrimsTo(left, f.key) && TrimsTo(right, f.value) {
      CutsOnce(line, left, right);
      TrimsToIff(left, f.key);
      TrimsToIff(right, f.value);
    }
  }

  type LineParser = string -> Option<Field>

  /** What the non-empty lines parse to, in order. */
  function Entries(parse: LineParser, ls: seq<string>): seq<Option<Field>> {
    if ls == [] then []
    else
      var last := ls[|ls| - 1];
      Entries(parse, ls[..|ls| - 1]) + (if last == [] then [] else [parse(last)])
  }

  const LINE_PARSER: LineParser := line => ParseLine(line)

  /** The entries of a whole payload. */
  function PayloadEntries(payload: string): seq<Option<Field>> { Entries(LINE_PARSER, Lines(payload)) }

  /** Every line is `key=value` and no two lines have the same trimmed key. */
  predicate WellFormed(es: seq<Option<Field>>) {
    && (forall i :: 0 <= i < |es| ==> es[i].Some?)
    && (forall i, j :: 0 <= i < j < |es| ==> es[i].value.key != es[j].value.key)
  }

  /** `fields` holds the pair of every entry and nothing else. */
  predicate Holds(fields: map<string, string>, es: seq<Option<Field>>)
    requires WellFormed(es)
  {
    && (forall k :: k in fields ==> exists i :: 0 <= i < |es| && es[i].value.key == k)
    && (forall i :: 0 <= i < |es| ==> es[i].value.key in fields && fields[es[i].value.key] == es[i].value.value)
  }

  lemma {:induction false} HoldsNext(fields: map<string, string>, es: seq<Option<Field>>, f: Field)
    requires WellFormed(es) && Holds(fields, es)
    ensures WellFormed(es + [Some(f)]) <==> f.key !in fields
    ensures f.key !in fields ==> Holds(fields[f.key := f.value], es + [Some(f)])
  {
    var all := es + [Some(f)];
    assert all[|es|] == Some(f) && forall i :: 0 <= i < |es| ==> all[i] == es[i];
    if f.key !in fields {
      var after := fields[f.key := f.value];
      forall k | k in after ensures exists i :: 0 <= i < |all| && all[i].value.key == k {
        if k != f.key {
          var i :| 0 <= i < |es| && es[i].value.key == k;
          assert all[i].value.key == k;
        }
      }
    }
  }

  lemma {:induction false} EntriesPrefix(parse: LineParser, ls: seq<string>, n: nat)
    requires n <= |ls|
    ensures Entries(parse, ls[..n]) <= Entries(parse, ls)
    decreases |ls|
  {
    if n < |ls| {
      EntriesPrefix(parse, ls[..|ls| - 1], n);
      assert ls[..|ls| - 1][..n] == ls[..n];
    } else {
      assert ls[..n] == ls;
    }
  }

  lemma {:induction false} IllFormedPrefix(front: seq<Option<Field>>, es: seq<Option<Field>>)
    requires front <= es && !WellFormed(front)
    ensures !WellFormed(es)
  {
  }

  /** The loop of `parse_fields`: it succeeds exactly when the entries are well formed, and
      then holds their pairs. */
  method CollectFields(parse: LineParser, ls: seq<string>) returns (out: Result<map<string, string>, MeshError>)
    ensures out.Ok? <==> WellFormed(Entries(parse, ls))
    ensures out.Ok? ==> Holds(out.value, Entries(parse, ls))
  {
    var fields: map<string, string> := map[];
    for n := 0 to |ls|
      invariant WellFormed(Entries(parse, ls[..n])) && Holds(fields, Entries(parse, ls[..n]))
    {
      var line := ls[n];
      assert ls[..n + 1][..n] == ls[..n];
      ghost var before := Entries(parse, ls[..n]);
      if line == [] {
        assert Entries(parse, ls[..n + 1]) == before;
        continue;
      }
      var entry := parse(line);
      EntriesPrefix(parse, ls, n + 1);
      if entry.None? {
        assert (before + [entry])[|before|] == None;
        IllFormedPrefix(before + [entry], Entries(parse, ls));
        return Err(InvalidField(line));
      }
      HoldsNext(fields, before, entry.value);
      if entry.value.key in fields {
        IllFormedPrefix(before + [entry], Entries(parse, ls));
        return Err(InvalidField(entry.value.key));
      }
      fields := fields[entry.value.key := entry.value.value];
    }
    assert ls[..|ls|] == ls;
    return Ok(fields);
  }

  method ParseFields(payload: string) returns (out: Result<map<string, string>, MeshError>)
    ensures out.Ok? <==> WellFormed(PayloadEntries(payload))
    ensures out.Ok? ==> Holds(out.value, PayloadEntries(payload))
  {
    out := CollectFields(LINE_PARSER, Lines(payload));
  }

  /** A field that survives printing: trimmed, without line breaks, no `=` in the key. */
  predicate Printable(f: Field) {
    && Trimmed(f.key) && Free(f.key, '\n') && Free(f.key, '=')
    && Trimmed(f.value) && Free(f.value, '\n')
  }

  function PrintField(f: Field): string { f.key + "=" + f.value }

  function PrintFields(fs: seq<Field>): (ls: seq<string>)
    ensures |ls| == |fs| && forall i :: 0 <= i < |fs| ==> ls[i] == PrintField(fs[i])
  {
    seq(|fs|, i requires 0 <= i < |fs| => PrintField(fs[i]))
  }

  lemma {:induction false} PrintedLineIsPlain(f: Field)
    requires Printable(f)
    ensures PlainLine(PrintField(f)) && PrintField(f) != []
  {
    var line := PrintField(f);
    assert line[|line| - 1] == if f.value == [] then '=' else f.value[|f.value| - 1];
  }

  lemma {:induction false} PrintedLineParses(f: Field)
    requires Printable(f)
    ensures ParseLine(PrintField(f)) == Some(f)
  {
    var line, k := PrintField(f), |f.key|;
    assert line[..k] == f.key && line[k + 1..] == f.value;
    assert forall j :: 0 <= j < k ==> line[j] == f.key[j];
    FirstIndexUnique(line, '=', k);
    TrimOfTrimmed(f.key);
    TrimOfTrimmed(f.value);
  }

  lemma {:induction false} EntriesOf(parse: LineParser, ls: seq<string>, es: seq<Option<Field>>)
    requires |ls| == |es|
    requires forall i :: 0 <= i < |ls| ==> ls[i] != [] && parse(ls[i]) == es[i]
    ensures Entries(parse, ls) == es
  {
    if ls != [] {
      EntriesOf(parse, ls[..|ls| - 1], es[..|ls| - 1]);
      assert es == es[..|ls| - 1] + [es[|ls| - 1]];
    }
  }

  /** The entries that a list of fields stands for. */
  function AsEntries(fs: seq<Field>): (es: seq<Option<Field>>)
    ensures |es| == |fs| && forall i :: 0 <= i < |fs| ==> es[i] == Some(fs[i])
  {
    if fs == [] then [] else AsEntries(fs[..|fs| - 1]) + [Some(fs[|fs| - 1])]
  }

  /** `parse` reads every printed field of `fs` as itself. */
  predicate ReadsBack(parse: LineParser, fs: seq<Field>) {
    forall i :: 0 <= i < |fs| ==> parse(PrintField(fs[i])) == Some(fs[i])
  }

  lemma {:induction false} PrintedLinesParse(fs: seq<Field>)
    requires forall i :: 0 <= i < |fs| ==> Printable(fs[i])
    ensures ReadsBack(LINE_PARSER, fs)
  {
    forall i | 0 <= i < |fs| ensures LINE_PARSER(PrintField(fs[i])) == Some(fs[i]) { PrintedLineParses(fs[i]); }
  }

  lemma {:induction false} PrintedLinesArePlain(fs: seq<Field>, ls: seq<string>)
    requires ls == PrintFields(fs) && forall i :: 0 <= i < |fs| ==> Printable(fs[i])
    ensures forall i :: 0 <= i < |ls| ==> PlainLine(ls[i]) && ls[i] != []
  {
    forall i | 0 <= i < |fs| ensures PlainLine(ls[i]) && ls[i] != [] { PrintedLineIsPlain(fs[i]); }
  }

  /** Field parsing inverts printing: the entries of the printed payload are the printed
      fields, in order. */
  lemma {:induction false} ParseInvertsPrint(fs: seq<Field>)
    requires forall i :: 0 <= i < |fs| ==> Printable(fs[i])
    ensures PayloadEntries(Unlines(PrintFields(fs))) == AsEntries(fs)
  {
    var ls := PrintFields(fs);
    PrintedLinesArePlain(fs, ls);
    PrintedLinesParse(fs);
    LinesInvertUnlines(ls);
    EntriesOf(LINE_PARSER, ls, AsEntries(fs));
  }

  /** `fs` lists the pairs of `m`, each key once. */
  predicate Lists(fs: seq<Field>, m: map<string, string>) {
    && (forall i, j :: 0 <= i < j < |fs| ==> fs[i].key != fs[j].key)
    && (forall i :: 0 <= i < |fs| ==> fs[i].key in m && m[fs[i].key] == fs[i].value)
    && (forall k :: k in m ==> exists i :: 0 <= i < |fs| && fs[i].key == k)
  }

  lemma {:induction false} HeldMapUnique(es: seq<Option<Field>>, a: map<string, string>, b: map<string, string>)
    requires WellFormed(es) && Holds(a, es) && Holds(b, es)
    ensures a == b
  {
    forall k | k in a ensures k in b && a[k] == b[k] {
      var i :| 0 <= i < |es| && es[i].value.key == k;
    }
    forall k | k in b ensures k in a {
      var i :| 0 <= i < |es| && es[i].value.key == k;
    }
  }

  lemma {:induction false} ListedMapIsHeld(m: map<string, string>, fs: seq<Field>, es: seq<Option<Field>>)
    requires Lists(fs, m) && |es| == |fs| && forall i :: 0 <= i < |fs| ==> es[i] == Some(fs[i])
    ensures WellFormed(es) && Holds(m, es)
  {
    forall k | k in m ensures exists i :: 0 <= i < |es| && es[i].value.key == k {
      var i :| 0 <= i < |fs| && fs[i].key == k;
      assert es[i].value.key == k;
    }
  }

  /** The round trip: however the fields of a map are ordered in the payload, parsing
      succeeds and gives the map back. */
  lemma {:induction false} PrintedMapParsesBack(m: map<string, string>, fs: seq<Field>, out: map<string, string>)
    requires Lists(fs, m) && forall i :: 0 <= i < |fs| ==> Printable(fs[i])
    ensures var es := PayloadEntries(Unlines(PrintFields(fs)));
            WellFormed(es) && (Holds(out, es) <==> out == m)
  {
    ParseInvertsPrint(fs);
    ghost var es := PayloadEntries(Unlines(PrintFields(fs)));
    ListedMapIsHeld(m, fs, es);
    if Holds(out, es) { HeldMapUnique(es, out, m); }
  }
}
