/** Line-oriented text: the standard-library operations that the bundle loader and the
    blocklist parser share. */
module Text {
  import opened Names

  function StripCr(line: string): string {
    if EndsWith(line, "\r") then line[..|line| - 1] else line
  }

  /** `str::lines`: cut after each newline; a line that had one also loses a final CR. */
  function Lines(s: string): seq<string> {
    if s == [] then []
    else
      var k := FirstIndex(s, '\n');
      if k == |s| then [s] else [StripCr(s[..k])] + Lines(s[k + 1..])
  }

  /** Each line of `ls` ended by a newline. */
  function Unlines(ls: seq<string>): string {
    if ls == [] then [] else ls[0] + "\n" + Unlines(ls[1..])
  }

  /** A line that survives printing and reading back. */
  predicate PlainLine(line: string) { Free(line, '\n') && !EndsWith(line, "\r") }

  lemma {:induction false} FirstLine(line: string, rest: string)
    requires PlainLine(line)
    ensures Lines(line + "\n" + rest) == [line] + Lines(rest)
  {
    var s, k := line + "\n" + rest, |line|;
    assert forall j :: 0 <= j < k ==> s[j] == line[j];
    FirstIndexUnique(s, '\n', k);
    assert s[..k] == line && s[k + 1..] == rest;
  }

  lemma {:induction false} LinesInvertUnlines(ls: seq<string>)
    requires forall i :: 0 <= i < |ls| ==> PlainLine(ls[i])
    ensures Lines(Unlines(ls)) == ls
  {
    if ls != [] {
      assert Unlines(ls) == ls[0] + "\n" + Unlines(ls[1..]);
      FirstLine(ls[0], Unlines(ls[1..]));
      LinesInvertUnlines(ls[1..]);
    }
  }

  /** A text that is empty or ends with a newline. */
  predicate WholeLines(s: string) { s != [] ==> s[|s| - 1] == '\n' }

  lemma {:induction false} FirstNewline(a: string, b: string)
    requires a != [] && WholeLines(a)
    ensures var k := FirstIndex(a, '\n');
            k < |a| && FirstIndex(a + b, '\n') == k && (a + b)[..k] == a[..k] && (a + b)[k + 1..] == a[k + 1..] + b
  {
    var k := FirstIndex(a, '\n');
    assert a[|a| - 1] == '\n';
    FirstIndexUnique(a + b, '\n', k);
  }

  lemma {:induction false} LinesStep(s: string, k: nat, tail: string)
    requires k < |s| && k == FirstIndex(s, '\n') && tail == s[k + 1..]
    ensures Lines(s) == [StripCr(s[..k])] + Lines(tail)
  {
  }

  lemma {:induction false} AppendAssociates<T>(a: seq<T>, b: seq<T>, c: seq<T>)
    ensures a + (b + c) == (a + b) + c
  {
  }

  /** Lines are read one after the other. */
  lemma {:induction false} LinesAppend(a: string, b: string)
    requires WholeLines(a)
    ensures Lines(a + b) == Lines(a) + Lines(b)
    decreases |a|
  {
    if a == [] {
      assert a + b == b;
    } else {
      FirstNewline(a, b);
      var k := FirstIndex(a, '\n');
      var tail := a[k + 1..];
      LinesAppend(tail, b);
      LinesStep(a, k, tail);
      LinesStep(a + b, k, tail + b);
      AppendAssociates([StripCr(a[..k])], Lines(tail), Lines(b));
    }
  }

  lemma {:induction false} LinesInsert(a: string, line: string, b: string)
    requires WholeLines(a) && PlainLine(line)
    ensures Lines(a + (line + "\n" + b)) == Lines(a) + ([line] + Lines(b)) && Lines(a + b) == Lines(a) + Lines(b)
  {
    LinesAppend(a, line + "\n" + b);
    LinesAppend(a, b);
    FirstLine(line, b);
  }

  /** Length of the UTF-8 encoding of one character. */
  function CharBytes(c: char): nat {
    var n := c as int;
    if n < 0x80 then 1 else if n < 0x800 then 2 else if n < 0x1_0000 then 3 else 4
  }

  /** How many values the UTF-8 sequences of one to four bytes can carry. */
  const CAPACITY: seq<int> := [0x80, 0x800, 0x1_0000, 0x20_0000]

  /** A character takes the shortest sequence that can carry it. */
  lemma {:induction false} CharBytesIsLeast(c: char, n: nat)
    requires 1 <= n <= 4
    ensures CharBytes(c) <= n <==> c as int < CAPACITY[n - 1]
  {
  }

  /** `str::len`. */
  function ByteLen(s: string): nat {
    if s == [] then 0 else CharBytes(s[0]) + ByteLen(s[1..])
  }

  predicate IsAscii(s: string) { forall i :: 0 <= i < |s| ==> s[i] as int < 0x80 }

  lemma {:induction false} ByteLenOfAscii(s: string)
    requires IsAscii(s)
    ensures ByteLen(s) == |s|
  {
    if s != [] { ByteLenOfAscii(s[1..]); }
  }

  function DigitsValue(s: string): Option<nat> {
    if s == [] then Some(0)
    else
      var c, front := s[|s| - 1], DigitsValue(s[..|s| - 1]);
      if '0' <= c <= '9' && front.Some? then Some(10 * front.value + (c as int - '0' as int)) else None
  }

  predicate IsDigit(c: char) { '0' <= c <= '9' }

  lemma {:induction false} DigitsAreDigits(s: string)
    requires DigitsValue(s).Some?
    ensures forall i :: 0 <= i < |s| ==> IsDigit(s[i])
  {
    if s != [] {
      DigitsAreDigits(s[..|s| - 1]);
      assert forall i :: 0 <= i < |s| - 1 ==> s[i] == s[..|s| - 1][i];
    }
  }

  /** `str::parse` into an unsigned integer: an optional plus sign, at least one digit, and a
      value that fits. */
  function ParseUnsigned(s: string, max: nat): (out: Option<nat>)
    ensures out.Some? ==> out.value <= max
  {
    var t := if s != [] && s[0] == '+' then s[1..] else s;
    var v := DigitsValue(t);
    if t == [] || v.None? || v.value > max then None else v
  }

  /** An unsigned number in decimal. */
  function Decimal(n: nat): (s: string)
    ensures s != [] && s[0] != '+'
  {
    var digit := ('0' as int + n % 10) as char;
    if n < 10 then [digit] else Decimal(n / 10) + [digit]
  }

  lemma {:induction false} DecimalValue(n: nat)
    ensures DigitsValue(Decimal(n)) == Some(n)
  {
    var s := Decimal(n);
    if n < 10 {
      assert s[..0] == [];
    } else {
      DecimalValue(n / 10);
      assert s[..|s| - 1] == Decimal(n / 10);
    }
  }

  lemma {:induction false} DigitsOnly(s: string)
    ensures DigitsValue(s).Some? <==> forall i :: 0 <= i < |s| ==> IsDigit(s[i])
  {
    if s != [] {
      DigitsOnly(s[..|s| - 1]);
      assert forall i :: 0 <= i < |s| - 1 ==> s[i] == s[..|s| - 1][i];
    }
  }

  /** A text is a number exactly when it is one or more digits, perhaps behind a plus sign, of a
      value within the bound. */
  lemma {:induction false} NumberIsReadIff(s: string, max: nat)
    ensures ParseUnsigned(s, max).Some? <==>
              var t := if s != [] && s[0] == '+' then s[1..] else s;
              t != [] && (forall i :: 0 <= i < |t| ==> '0' <= t[i] <= '9') && DigitsValue(t).Some? && DigitsValue(t).value <= max
  {
    DigitsOnly(if s != [] && s[0] == '+' then s[1..] else s);
  }

  /** Parsing inverts printing. */
  lemma {:induction false} DecimalParses(n: nat, max: nat)
    requires n <= max
    ensures ParseUnsigned(Decimal(n), max) == Some(n)
  {
    DecimalValue(n);
  }
}
