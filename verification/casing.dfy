/** Full lowercasing, `str::to_lowercase`, beside the ASCII lowercasing of Names.

    The two differ outside ASCII: a letter may have a lowercase form there, that form may be
    several characters long, and a capital sigma has two of them.  The Unicode tables stay
    open: everything holds for every table that obeys the laws below. */
module Casing {
  import opened Names
  import opened Text

  const CAPITAL_SIGMA: char := '\U{03A3}'
  const SMALL_SIGMA: char := '\U{03C3}'
  const FINAL_SIGMA: char := '\U{03C2}'
  const CAPITAL_E_ACUTE: char := '\U{00C9}'
  const SMALL_E_ACUTE: char := '\U{00E9}'

  /** `char::to_lowercase`, and the test whether position `i` of a text ends a word.  That test
      asks which neighbours are letters with case, so it is put to the text in ASCII lowercase. */
  datatype Tables = Tables(low: char -> string, endsWord: (string, nat) -> bool)

  predicate IsAsciiChar(c: char) { c as int < 0x80 }

  /** No lowercasing changes `c`. */
  predicate FixedBy(low: char -> string, c: char) { c != CAPITAL_SIGMA && low(c) == [c] }

  /** A dot or white space: characters that lowercasing neither changes nor produces. */
  predicate IsBreak(c: char) { c == '.' || IsWhitespace(c) }

  /** One lowercase form: never empty, not changed by lowercasing again, equal to the ASCII form
      inside ASCII, and free of dots and white space unless it is one. */
  predicate LawfulAt(low: char -> string, c: char) {
    && low(c) != []
    && (IsAsciiChar(c) ==> low(c) == [LowerChar(c)])
    && (IsBreak(c) ==> low(c) == [c])
    && forall i :: 0 <= i < |low(c)| ==> FixedBy(low, low(c)[i]) && (IsBreak(low(c)[i]) ==> IsBreak(c))
  }

  ghost predicate LawfulTables(t: Tables) {
    && (forall c :: LawfulAt(t.low, c))
    && FixedBy(t.low, SMALL_SIGMA) && FixedBy(t.low, FINAL_SIGMA)
    && (forall s, i :: 0 <= i < |s| ==> (t.endsWord(s + ".", i) <==> t.endsWord(s, i)))
    && t.low(CAPITAL_E_ACUTE) == [SMALL_E_ACUTE]
  }

  function LatinLow(c: char): string {
    var n := c as int;
    if IsUpper(c) || (0xC0 <= n <= 0xDE && n != 0xD7) || c == CAPITAL_SIGMA then [(n + 32) as char] else [c]
  }

  /** The tables of Latin-1 and sigma: the laws can be met. */
  const LATIN: Tables := Tables(c => LatinLow(c), (s, i) => false)

  lemma {:induction false} LatinIsLawfulAt(c: char)
    ensures LawfulAt(LATIN.low, c)
  {
    var d := LatinLow(c)[0];
    assert LATIN.low(c) == [d] && LATIN.low(d) == LatinLow(d) == [d];
  }

  function LatinTables(): (t: Tables)
    ensures LawfulTables(t)
  {
    assert forall c :: LawfulAt(LATIN.low, c) by { forall c ensures LawfulAt(LATIN.low, c) { LatinIsLawfulAt(c); } }
    LATIN
  }

  type CaseTables = t: Tables | LawfulTables(t) witness LatinTables()

  /** The Unicode tables, of which only the laws are known. */
  const UNICODE: CaseTables

  predicate Settled(c: char) { FixedBy(UNICODE.low, c) }

  /** The lowercase form of one position. */
  function Piece(s: string, i: nat): string
    requires i < |s|
  {
    if s[i] == CAPITAL_SIGMA then [if UNICODE.endsWord(Lower(s), i) then FINAL_SIGMA else SMALL_SIGMA]
    else UNICODE.low(s[i])
  }

  function LowerUpTo(s: string, n: nat): string
    requires n <= |s|
  {
    if n == 0 then [] else LowerUpTo(s, n - 1) + Piece(s, n - 1)
  }

  /** `str::to_lowercase`. */
  function FullLower(s: string): string { LowerUpTo(s, |s|) }

  /** Lowercasing changes `c` at most as ASCII lowercasing does. */
  predicate PlainChar(c: char) { IsAsciiChar(c) || Settled(c) }

  predicate PlainCase(s: string) { forall i :: 0 <= i < |s| ==> PlainChar(s[i]) }

  predicate AllSettled(s: string) { forall i :: 0 <= i < |s| ==> Settled(s[i]) }

  lemma {:induction false} PieceForm(s: string, i: nat)
    requires i < |s|
    ensures Piece(s, i) != [] && AllSettled(Piece(s, i))
    ensures forall k :: 0 <= k < |Piece(s, i)| ==> (IsBreak(Piece(s, i)[k]) <==> IsBreak(s[i]))
    ensures IsBreak(s[i]) ==> Piece(s, i) == [s[i]]
    ensures Piece(s, i) == [LowerChar(s[i])] <==> PlainChar(s[i])
  {
    assert LawfulAt(UNICODE.low, s[i]);
  }

  lemma {:induction false} SettledAppend(a: string, b: string)
    requires AllSettled(a) && AllSettled(b)
    ensures AllSettled(a + b)
  {
  }

  lemma {:induction false} PlainAppend(a: string, b: string)
    ensures PlainCase(a + b) <==> PlainCase(a) && PlainCase(b)
  {
    forall i | 0 <= i < |a| ensures (a + b)[i] == a[i] { }
    forall i | 0 <= i < |b| ensures (a + b)[|a| + i] == b[i] { }
  }

  lemma {:induction false} PlainOne(c: char)
    ensures PlainCase([c]) <==> PlainChar(c)
    ensures Lower([c]) == [LowerChar(c)]
  {
    assert [c][0] == c;
  }

  lemma {:induction false} PieceIsAsciiIff(s: string, i: nat)
    requires i < |s|
    ensures Piece(s, i) != [] && (Piece(s, i) == [LowerChar(s[i])] <==> PlainChar(s[i]))
  {
    PieceForm(s, i);
  }

  lemma {:induction false} UpToLength(s: string, n: nat)
    requires n <= |s|
    ensures |LowerUpTo(s, n)| >= n
  {
    if n > 0 {
      UpToLength(s, n - 1);
      PieceIsAsciiIff(s, n - 1);
    }
  }

  lemma {:induction false} UpToIsSettled(s: string, n: nat)
    requires n <= |s|
    ensures AllSettled(LowerUpTo(s, n))
  {
    if n > 0 {
      UpToIsSettled(s, n - 1);
      PieceForm(s, n - 1);
      SettledAppend(LowerUpTo(s, n - 1), Piece(s, n - 1));
    }
  }

  /** The result is lowercase throughout, and never shorter. */
  lemma {:induction false} FullLowerIsSettled(s: string)
    ensures AllSettled(FullLower(s)) && |FullLower(s)| >= |s|
  {
    UpToIsSettled(s, |s|);
    UpToLength(s, |s|);
  }

  lemma {:induction false} SettledIsLower(s: string)
    requires AllSettled(s)
    ensures Lower(s) == s
  {
    forall i | 0 <= i < |s| ensures LowerChar(s[i]) == s[i] { assert Settled(s[i]) && LawfulAt(UNICODE.low, s[i]); }
  }

  lemma {:induction false} SameAppend(a: string, p: string, b: string, c: char)
    requires |a| >= |b| && p != []
    ensures a + p == b + [c] <==> a == b && p == [c]
  {
    if a + p == b + [c] {
      assert |p| == 1 && (a + p)[..|a|] == a && (b + [c])[..|b|] == b;
      assert (a + p)[|a|] == p[0] && (b + [c])[|b|] == c;
    }
  }

  lemma {:induction false} LowerSnoc(front: string, c: char)
    ensures Lower(front + [c]) == Lower(front) + [LowerChar(c)]
    ensures PlainCase(front + [c]) <==> PlainCase(front) && PlainChar(c)
  {
    LowerAppend(front, [c]);
    PlainAppend(front, [c]);
    PlainOne(c);
  }

  /** `a` is no shorter than `front`, and is its ASCII lowercase form exactly if `front` is plain. */
  predicate Agrees(front: string, a: string) { |a| >= |front| && (a == Lower(front) <==> PlainCase(front)) }

  type Law = (string, string) -> bool

  /** One more character `c` with its lowercase form `p`. */
  lemma {:induction false} AgreeSnoc(front: string, c: char, a: string, p: string)
    requires Agrees(front, a) && p != [] && (p == [LowerChar(c)] <==> PlainChar(c))
    ensures Agrees(front + [c], a + p)
  {
    LowerSnoc(front, c);
    SameAppend(a, p, Lower(front), LowerChar(c));
  }

  lemma {:induction false} AgreeStep(s: string, i: nat, a: string)
    requires i < |s| && Agrees(s[..i], a)
    ensures Agrees(s[..i + 1], a + Piece(s, i))
  {
    PieceIsAsciiIff(s, i);
    AgreeSnoc(s[..i], s[i], a, Piece(s, i));
    assert s[..i + 1] == s[..i] + [s[i]];
  }

  /** What holds at the start and is kept by every character holds of each prefix. */
  lemma {:induction false} UpToObeys(law: Law, s: string, n: nat)
    requires n <= |s| && law([], [])
    requires forall i: nat, a: string {:trigger law(s[..i], a)} :: i < |s| && law(s[..i], a) ==> law(s[..i + 1], a + Piece(s, i))
    ensures law(s[..n], LowerUpTo(s, n))
  {
    if n == 0 {
      assert s[..0] == [];
    } else {
      UpToObeys(law, s, n - 1);
    }
  }

  lemma {:induction false} UpToIsAsciiIff(s: string)
    ensures Agrees(s[..|s|], LowerUpTo(s, |s|))
  {
    var law: Law := (front, a) => Agrees(front, a);
    forall i: nat, a: string | i < |s| && law(s[..i], a) ensures law(s[..i + 1], a + Piece(s, i)) { AgreeStep(s, i, a); }
    UpToObeys(law, s, |s|);
  }

  /** The two lowercasings agree on a text exactly when full lowercasing changes none of its
      characters outside ASCII. */
  lemma {:induction false} LoweringsAgreeIff(s: string)
    ensures FullLower(s) == Lower(s) <==> PlainCase(s)
  {
    UpToIsAsciiIff(s);
    assert s[..|s|] == s;
  }

  lemma {:induction false} AsciiIsPlainCase(s: string)
    requires IsAscii(s)
    ensures PlainCase(s) && FullLower(s) == Lower(s)
  {
    LoweringsAgreeIff(s);
  }

  /** A settled text is its own lowercase form, and such texts are the only ones. */
  lemma {:induction false} SettledIff(s: string)
    ensures FullLower(s) == s <==> AllSettled(s)
  {
    FullLowerIsSettled(s);
    if AllSettled(s) {
      LoweringsAgreeIff(s);
      SettledIsLower(s);
    }
  }

  /** Lowercasing keeps the first and the last character when they are dots or white space, and
      brings none there otherwise. */
  lemma {:induction false} FullLowerEnds(s: string)
    requires s != []
    ensures var t := FullLower(s);
            && t != [] && (IsBreak(s[0]) || IsBreak(t[0]) ==> t[0] == s[0])
            && (IsBreak(s[|s| - 1]) || IsBreak(t[|t| - 1]) ==> t[|t| - 1] == s[|s| - 1])
  {
    var n := |s|;
    HeadPiece(s, n);
    PieceForm(s, 0);
    PieceForm(s, n - 1);
    var p := Piece(s, n - 1);
    assert FullLower(s)[|FullLower(s)| - 1] == p[|p| - 1];
  }

  lemma {:induction false} HeadPiece(s: string, n: nat)
    requires 1 <= n <= |s|
    ensures Piece(s, 0) != [] && LowerUpTo(s, n) != [] && LowerUpTo(s, n)[0] == Piece(s, 0)[0]
  {
    PieceForm(s, 0);
    if n > 1 { HeadPiece(s, n - 1); } else { assert LowerUpTo(s, 0) == []; }
  }

  lemma {:induction false} SamePieces(a: string, b: string, n: nat)
    requires Lower(a) == Lower(b) && n <= |a|
    ensures |a| == |b| && LowerUpTo(a, n) == LowerUpTo(b, n)
  {
    assert |Lower(a)| == |a| && |Lower(b)| == |b|;
    if n > 0 {
      SamePieces(a, b, n - 1);
      SamePiece(a, b, n - 1);
    }
  }

  lemma {:induction false} SamePiece(a: string, b: string, i: nat)
    requires Lower(a) == Lower(b) && i < |a| && i < |b|
    ensures Piece(a, i) == Piece(b, i)
  {
    assert LowerChar(a[i]) == Lower(a)[i] == Lower(b)[i] == LowerChar(b[i]);
    assert LawfulAt(UNICODE.low, a[i]) && LawfulAt(UNICODE.low, b[i]);
  }

  /** Full lowercasing ignores the case of ASCII letters. */
  lemma {:induction false} FullLowerIgnoresAsciiCase(a: string, b: string)
    requires Lower(a) == Lower(b)
    ensures FullLower(a) == FullLower(b)
  {
    SamePieces(a, b, |a|);
  }

  lemma {:induction false} DottedPiece(s: string, i: nat)
    requires i < |s|
    ensures Piece(s + ".", i) == Piece(s, i)
  {
    LowerAppend(s, ".");
    assert Lower(".") == "." && |Lower(s)| == |s|;
    assert UNICODE.endsWord(Lower(s) + ".", i) <==> UNICODE.endsWord(Lower(s), i);
  }

  lemma {:induction false} DottedUpTo(s: string, n: nat)
    requires n <= |s|
    ensures LowerUpTo(s + ".", n) == LowerUpTo(s, n)
  {
    if n > 0 {
      DottedUpTo(s, n - 1);
      DottedPiece(s, n - 1);
    }
  }

  /** A dot at the end is lowercased by itself. */
  lemma {:induction false} FullLowerDot(s: string)
    ensures FullLower(s + ".") == FullLower(s) + "."
  {
    DottedUpTo(s, |s|);
    PieceForm(s + ".", |s|);
  }

  lemma {:induction false} HeadedUpTo(c: char, low: char, s: string, n: nat)
    requires c != CAPITAL_SIGMA && UNICODE.low(c) == [low] && PlainCase(s) && n <= |s|
    ensures LowerUpTo([c] + s, n + 1) == [low] + Lower(s[..n])
  {
    var t := [c] + s;
    if n == 0 {
      assert LowerUpTo(t, 0) == [] && Piece(t, 0) == [low];
    } else {
      HeadedUpTo(c, low, s, n - 1);
      PieceForm(t, n);
      assert t[n] == s[n - 1] && PlainChar(s[n - 1]);
      assert s[..n] == s[..n - 1] + [s[n - 1]];
      LowerSnoc(s[..n - 1], s[n - 1]);
      assert [low] + (Lower(s[..n - 1]) + [LowerChar(s[n - 1])]) == ([low] + Lower(s[..n - 1])) + [LowerChar(s[n - 1])];
    }
  }

  /** One more character in front of plain text is lowercased by itself. */
  lemma {:induction false} HeadedLower(c: char, low: char, s: string)
    requires c != CAPITAL_SIGMA && UNICODE.low(c) == [low] && PlainCase(s)
    ensures FullLower([c] + s) == [low] + Lower(s)
  {
    HeadedUpTo(c, low, s, |s|);
    assert s[..|s|] == s && |[c] + s| == |s| + 1;
  }
}
