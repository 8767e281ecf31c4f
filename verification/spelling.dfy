/** Spellings of one name, character by character: which letters count as the same, and where
    final dots or white space do not matter.  Nothing here mentions a normalised form; the
    lemmas say which normal form decides which relation. */
module Spelling {
  import opened Names

  /** The same character, or the two cases of one ASCII letter. */
  predicate SameLetter(a: char, b: char) {
    || a == b
    || ('A' <= a <= 'Z' && b as int == a as int + 32)
    || ('A' <= b <= 'Z' && a as int == b as int + 32)
  }

  predicate SameLetters(a: string, b: string) {
    |a| == |b| && forall i :: 0 <= i < |a| ==> SameLetter(a[i], b[i])
  }

  predicate AllDots(s: string) { forall i :: 0 <= i < |s| ==> s[i] == '.' }

  predicate AllBlank(s: string) { forall i :: 0 <= i < |s| ==> IsWhitespace(s[i]) }

  /** The first `n` characters agree, and only dots follow. */
  predicate SameFront(a: string, b: string, n: nat) {
    n <= |a| && n <= |b| && SameLetters(a[..n], b[..n]) && AllDots(a[n..]) && AllDots(b[n..])
  }

  /** One name up to the case of ASCII letters and any number of final dots. */
  ghost predicate SameName(a: string, b: string) { exists n: nat :: SameFront(a, b, n) }

  predicate Dotted(s: string) { s != [] && s[|s| - 1] == '.' }

  /** One name up to the case of ASCII letters, where a missing final dot is supplied. */
  predicate SameDotted(a: string, b: string) {
    || SameLetters(a, b)
    || (!Dotted(a) && SameLetters(a + ".", b))
    || (!Dotted(b) && SameLetters(a, b + "."))
  }

  /** `core` is `s` without the white space around it. */
  predicate IsCore(s: string, core: string, lead: string, trail: string) {
    s == lead + core + trail && AllBlank(lead) && AllBlank(trail) && Trimmed(core)
  }

  // ---------------------------------------------------------------------------
  // Letters
  // ---------------------------------------------------------------------------

  lemma {:induction false} SameLetterIff(a: char, b: char)
    ensures SameLetter(a, b) <==> LowerChar(a) == LowerChar(b)
  {
  }

  lemma {:induction false} SameLettersIff(a: string, b: string)
    ensures SameLetters(a, b) <==> Lower(a) == Lower(b)
  {
    if |a| == |b| {
      forall i | 0 <= i < |a| ensures SameLetter(a[i], b[i]) <==> Lower(a)[i] == Lower(b)[i] { SameLetterIff(a[i], b[i]); }
    } else {
      assert |Lower(a)| != |Lower(b)|;
    }
  }

  lemma {:induction false} LowerIsSameLetters(s: string)
    ensures SameLetters(s, Lower(s)) && !HasUpper(Lower(s))
  {
    forall i | 0 <= i < |s| ensures SameLetter(s[i], Lower(s)[i]) { SameLetterIff(s[i], LowerChar(s[i])); }
  }

  /** Lowercasing gives the one spelling without a capital. */
  lemma {:induction false} LowerUnique(s: string, t: string)
    requires SameLetters(s, t) && !HasUpper(t)
    ensures t == Lower(s)
  {
    SameLettersIff(s, t);
    LowerKeeps(t);
  }

  // ---------------------------------------------------------------------------
  // Final dots
  // ---------------------------------------------------------------------------

  lemma {:induction false} CanonicalFront(s: string)
    ensures var n := |TrimDots(s)|;
            n <= |s| && Canonical(s) == Lower(s[..n]) && AllDots(s[n..]) && (n > 0 ==> s[n - 1] != '.')
  {
    TrimDotsExact(s);
    var n := |TrimDots(s)|;
    assert forall i :: 0 <= i < |s[n..]| ==> s[n..][i] == s[n + i];
    assert n > 0 ==> s[n - 1] == TrimDots(s)[n - 1];
  }

  lemma {:induction false} CanonicalOfFront(s: string, n: nat)
    requires n <= |s| && AllDots(s[n..])
    ensures Canonical(s) == Canonical(s[..n])
  {
    var k := |TrimDots(s[..n])|;
    TrimDotsExact(s[..n]);
    assert s[..n][..k] == s[..k];
    forall i | k <= i < |s| ensures s[i] == '.' {
      if i < n { assert s[..n][i] == s[i]; } else { assert s[n..][i - n] == s[i]; }
    }
    assert k > 0 ==> s[k - 1] == s[..n][k - 1];
    TrimDotsUnique(s, k);
  }

  lemma {:induction false} CanonicalOfLower(a: string, b: string)
    requires Lower(a) == Lower(b)
    ensures Canonical(a) == Canonical(b)
  {
    TrimDotsLower(a);
    TrimDotsLower(b);
  }

  /** Names are the same up to case and final dots exactly when their canonical forms agree. */
  lemma {:induction false} SameNameIff(a: string, b: string)
    ensures SameName(a, b) <==> Canonical(a) == Canonical(b)
  {
    if SameName(a, b) {
      var n: nat :| SameFront(a, b, n);
      SameLettersIff(a[..n], b[..n]);
      CanonicalOfFront(a, n);
      CanonicalOfFront(b, n);
      CanonicalOfLower(a[..n], b[..n]);
    }
    if Canonical(a) == Canonical(b) {
      CanonicalFront(a);
      CanonicalFront(b);
      var n := |TrimDots(a)|;
      assert |Canonical(a)| == n && |Canonical(b)| == |TrimDots(b)|;
      SameLettersIff(a[..n], b[..n]);
      assert SameFront(a, b, n);
    }
  }

  /** `s` with its missing final dot. */
  function WithDot(s: string): string { if Dotted(s) then s else s + "." }

  lemma {:induction false} LowerWithDot(s: string)
    ensures Lower(WithDot(s)) == WithDot(Lower(s))
  {
    LowerAppend(s, ".");
  }

  lemma {:induction false} DottedLetters(a: string, b: string)
    requires SameLetters(a, b)
    ensures Dotted(a) <==> Dotted(b)
  {
    if a != [] { assert SameLetter(a[|a| - 1], b[|b| - 1]); }
  }

  lemma {:induction false} SameLettersCut(a: string, b: string)
    ensures SameLetters(a + ".", b + ".") <==> SameLetters(a, b)
  {
    SameLettersIff(a, b);
    SameLettersIff(a + ".", b + ".");
    LowerAppend(a, ".");
    LowerAppend(b, ".");
    assert Lower(".") == ".";
    if Lower(a) + "." == Lower(b) + "." {
      assert Lower(a) == (Lower(a) + ".")[..|a|] && Lower(b) == (Lower(b) + ".")[..|b|];
    }
  }

  /** Names are the same up to case and a missing final dot exactly when they agree once the dot
      is supplied and the case dropped. */
  lemma {:induction false} SameDottedIff(a: string, b: string)
    ensures SameDotted(a, b) <==> Lower(WithDot(a)) == Lower(WithDot(b))
  {
    SameLettersIff(WithDot(a), WithDot(b));
    SameLettersCut(a, b);
    if SameLetters(a, b) { DottedLetters(a, b); }
    if !Dotted(a) && SameLetters(a + ".", b) { DottedLetters(a + ".", b); }
    if !Dotted(b) && SameLetters(a, b + ".") { DottedLetters(a, b + "."); }
  }

  // ---------------------------------------------------------------------------
  // White space
  // ---------------------------------------------------------------------------

  lemma {:induction false} TrimIsCore(s: string)
    ensures exists lead, trail :: IsCore(s, Trim(s), lead, trail)
  {
    TrimStartExact(s);
    var t := TrimStart(s);
    TrimEndExact(t);
    TrimIsTrimmed(s);
    var lead, trail := s[..|s| - |t|], t[|Trim(s)|..];
    assert t == Trim(s) + trail && s == lead + t;
    assert s == lead + Trim(s) + trail;
    assert IsCore(s, Trim(s), lead, trail);
  }

  lemma {:induction false} TrimKeepsEnd(s: string)
    requires s != [] && !IsWhitespace(s[|s| - 1])
    ensures Trim(s) != [] && Trim(s)[|Trim(s)| - 1] == s[|s| - 1]
  {
    TrimStartExact(s);
    var t := TrimStart(s);
    assert t != [] && t[|t| - 1] == s[|s| - 1];
    assert TrimEnd(t) == t;
  }

  lemma {:induction false} TrimStartOf(lead: string, t: string)
    requires AllBlank(lead) && (t != [] ==> !IsWhitespace(t[0]))
    ensures TrimStart(lead + t) == t
  {
    if lead == [] {
      assert lead + t == t;
    } else {
      assert (lead + t)[1..] == lead[1..] + t;
      TrimStartOf(lead[1..], t);
    }
  }

  lemma {:induction false} TrimEndOf(core: string, trail: string)
    requires AllBlank(trail) && (core != [] ==> !IsWhitespace(core[|core| - 1]))
    ensures TrimEnd(core + trail) == core
  {
    if trail == [] {
      assert core + trail == core;
    } else {
      var front := trail[..|trail| - 1];
      assert (core + trail)[..|core + trail| - 1] == core + front;
      TrimEndOf(core, front);
    }
  }

  lemma {:induction false} TrimOfBlank(s: string)
    requires AllBlank(s)
    ensures TrimStart(s) == []
  {
    if s != [] { TrimOfBlank(s[1..]); }
  }

  /** The white space around a text can be taken off in one way only. */
  lemma {:induction false} CoreIsTrim(s: string, core: string, lead: string, trail: string)
    requires IsCore(s, core, lead, trail)
    ensures core == Trim(s)
  {
    if core == [] {
      assert s == lead + trail;
      TrimOfBlank(s);
    } else {
      assert s == lead + (core + trail);
      TrimStartOf(lead, core + trail);
      TrimEndOf(core, trail);
    }
  }
}
