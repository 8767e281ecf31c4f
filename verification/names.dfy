/** Characters, text and dotted DNS names.

    Every component of the server compares names textually: it cuts at dots, strips
    trailing dots and lowercases letters, in ASCII or, with module Casing, in every script.
    This module gives those operations and the one theory they all refine: a name lies within
    a zone exactly when the zone's list of labels is a suffix of the name's list of labels.
  */
module Names {

  datatype Option<+T> = None | Some(value: T)

  datatype Result<+T, +E> = Ok(value: T) | Err(error: E) {
    predicate IsFailure() { Err? }
    function PropagateFailure<U>(): Result<U, E>
      requires Err?
    {
      Err(error)
    }
    function Extract(): T
      requires Ok?
    {
      value
    }
  }

  // ---------------------------------------------------------------------------
  // Characters
  // ---------------------------------------------------------------------------

  /** The Unicode White_Space property, which `str::trim` and `split_whitespace` use. */
  predicate IsWhitespace(c: char) {
    var n := c as int;
    9 <= n <= 13 || n == 0x20 || n == 0x85 || n == 0xA0 || n == 0x1680
    || 0x2000 <= n <= 0x200A || n == 0x2028 || n == 0x2029 || n == 0x202F
    || n == 0x205F || n == 0x3000
  }

  const WHITE_SPACE: seq<int> :=
    [9, 10, 11, 12, 13, 32, 133, 160, 5760, 8192, 8193, 8194, 8195, 8196, 8197, 8198, 8199, 8200, 8201, 8202,
     8232, 8233, 8239, 8287, 12288]

  lemma {:induction false} WhitespaceIff(c: char)
    ensures IsWhitespace(c) <==> c as int in WHITE_SPACE
  {
  }

  predicate IsUpper(c: char) { 'A' <= c <= 'Z' }

  function LowerChar(c: char): char {
    if IsUpper(c) then (c as int + 32) as char else c
  }

  /** ASCII lowercasing, position by position. */
  function Lower(s: string): (r: string)
    ensures |r| == |s|
    ensures forall i :: 0 <= i < |s| ==> r[i] == LowerChar(s[i])
  {
    seq(|s|, i requires 0 <= i < |s| => LowerChar(s[i]))
  }

  lemma {:induction false} LowerAppend(a: string, b: string)
    ensures Lower(a + b) == Lower(a) + Lower(b)
  {
  }

  predicate HasUpper(s: string) { exists i :: 0 <= i < |s| && IsUpper(s[i]) }

  lemma {:induction false} LowerKeeps(s: string)
    requires !HasUpper(s)
    ensures Lower(s) == s
  {
  }

  // ---------------------------------------------------------------------------
  // Searching and trimming
  // ---------------------------------------------------------------------------

  /** Index of the first `c` in `s`, or `|s|` when there is none. */
  function FirstIndex(s: string, c: char): (i: nat)
    ensures i <= |s|
    ensures i < |s| ==> s[i] == c
    ensures forall j :: 0 <= j < i ==> s[j] != c
  {
    if s == [] || s[0] == c then 0 else 1 + FirstIndex(s[1..], c)
  }

  /** `FirstIndex` is the only index with these properties. */
  lemma {:induction false} FirstIndexUnique(s: string, c: char, k: nat)
    requires k <= |s|
    requires k < |s| ==> s[k] == c
    requires forall j :: 0 <= j < k ==> s[j] != c
    ensures FirstIndex(s, c) == k
  {
    var i := FirstIndex(s, c);
    assert i < |s| ==> s[i] == c;
    assert k < |s| ==> s[k] == c;
  }

  function Members<T>(s: seq<T>): set<T> { set x | x in s }

  predicate EndsWith(s: string, t: string) {
    |t| <= |s| && s[|s| - |t|..] == t
  }

  function TrimStart(s: string): (r: string)
    ensures |r| <= |s| && (r != [] ==> !IsWhitespace(r[0]))
  {
    if s != [] && IsWhitespace(s[0]) then TrimStart(s[1..]) else s
  }

  lemma {:induction false} TrimStartExact(s: string)
    ensures var r := TrimStart(s);
            && r == s[|s| - |r|..]
            && forall i :: 0 <= i < |s| - |r| ==> IsWhitespace(s[i])
  {
    if s != [] && IsWhitespace(s[0]) { TrimStartExact(s[1..]); }
  }

  function TrimEnd(s: string): (r: string)
    ensures |r| <= |s|
  {
    if s != [] && IsWhitespace(s[|s| - 1]) then TrimEnd(s[..|s| - 1]) else s
  }

  lemma {:induction false} TrimEndExact(s: string)
    ensures var r := TrimEnd(s);
            && r == s[..|r|] && (r != [] ==> !IsWhitespace(r[|r| - 1]))
            && forall i :: |r| <= i < |s| ==> IsWhitespace(s[i])
  {
    if s != [] && IsWhitespace(s[|s| - 1]) { TrimEndExact(s[..|s| - 1]); }
  }

  /** `str::trim`. */
  function Trim(s: string): string { TrimEnd(TrimStart(s)) }

  /** Neither end of `s` is white space. */
  predicate Trimmed(s: string) {
    s != [] ==> !IsWhitespace(s[0]) && !IsWhitespace(s[|s| - 1])
  }

  lemma {:induction false} TrimIsTrimmed(s: string)
    ensures Trimmed(Trim(s))
  {
    TrimStartExact(s);
    TrimEndExact(TrimStart(s));
  }

  lemma {:induction false} TrimOfTrimmed(s: string)
    requires Trimmed(s)
    ensures Trim(s) == s
  {
  }

  lemma {:induction false} TrimIsShorter(s: string)
    ensures if Trimmed(s) then Trim(s) == s else |Trim(s)| < |s|
  {
    if Trimmed(s) {
      TrimOfTrimmed(s);
    } else if IsWhitespace(s[0]) {
      assert |TrimStart(s)| == |TrimStart(s[1..])| < |s|;
    } else {
      assert TrimStart(s) == s && |TrimEnd(s)| == |TrimEnd(s[..|s| - 1])| < |s|;
    }
  }

  /** `trim_end_matches('.')`. */
  function TrimDots(s: string): (r: string)
    ensures |r| <= |s|
  {
    if s != [] && s[|s| - 1] == '.' then TrimDots(s[..|s| - 1]) else s
  }

  lemma {:induction false} TrimDotsExact(s: string)
    ensures var r := TrimDots(s);
            && r == s[..|r|] && (r != [] ==> r[|r| - 1] != '.')
            && forall i :: |r| <= i < |s| ==> s[i] == '.'
  {
    if s != [] && s[|s| - 1] == '.' { TrimDotsExact(s[..|s| - 1]); }
  }

  lemma {:induction false} TrimDotsUnique(s: string, k: nat)
    requires k <= |s|
    requires k > 0 ==> s[k - 1] != '.'
    requires forall i :: k <= i < |s| ==> s[i] == '.'
    ensures TrimDots(s) == s[..k]
  {
    var n := |TrimDots(s)|;
    TrimDotsExact(s);
    assert n > 0 ==> s[n - 1] == TrimDots(s)[n - 1];
    assert k > 0 ==> s[k - 1] != '.';
  }

  lemma {:induction false} TrimDotsLower(s: string)
    ensures TrimDots(Lower(s)) == Lower(TrimDots(s))
  {
    var k := |TrimDots(s)|;
    TrimDotsExact(s);
    if k > 0 { assert s[k - 1] == TrimDots(s)[k - 1]; }
    TrimDotsUnique(Lower(s), k);
  }

  /** The form the filters and the blocklist compare: no trailing dots, lowercase. */
  function Canonical(s: string): string { Lower(TrimDots(s)) }

  // ---------------------------------------------------------------------------
  // Splitting and joining
  // ---------------------------------------------------------------------------

  /** `str::split(d)`: always at least one piece. */
  function Split(s: string, d: char): (ps: seq<string>)
    ensures |ps| >= 1
  {
    if s == [] then [[]]
    else
      var rest := Split(s[1..], d);
      if s[0] == d then [[]] + rest else [[s[0]] + rest[0]] + rest[1..]
  }

  function Join(ps: seq<string>, d: char): string
    requires |ps| >= 1
  {
    if |ps| == 1 then ps[0] else ps[0] + [d] + Join(ps[1..], d)
  }

  predicate Free(s: string, d: char) { forall i :: 0 <= i < |s| ==> s[i] != d }

  predicate AllFree(ps: seq<string>, d: char) { forall i :: 0 <= i < |ps| ==> Free(ps[i], d) }

  lemma {:induction false} SplitFree(s: string, d: char)
    ensures AllFree(Split(s, d), d)
  {
    if s != [] { SplitFree(s[1..], d); }
  }

  lemma {:induction false} JoinSplit(s: string, d: char)
    ensures Join(Split(s, d), d) == s
  {
    if s != [] {
      JoinSplit(s[1..], d);
      var rest := Split(s[1..], d);
      if s[0] == d {
        assert Split(s, d)[1..] == rest;
      } else {
        assert Split(s, d)[1..] == rest[1..];
      }
    }
  }

  lemma {:induction false} SplitOfFree(s: string, d: char)
    requires Free(s, d)
    ensures Split(s, d) == [s]
  {
    if s != [] {
      SplitOfFree(s[1..], d);
      assert [s[0]] + s[1..] == s;
    }
  }

  lemma {:induction false} SplitCons(c: char, s: string, d: char)
    ensures var rest := Split(s, d);
            Split([c] + s, d) == if c == d then [[]] + rest else [[c] + rest[0]] + rest[1..]
  {
    assert ([c] + s)[1..] == s;
  }

  lemma {:induction false} GrowHead(c: char, ps: seq<string>, qs: seq<string>)
    requires |ps| >= 1
    ensures [[]] + (ps + qs) == ([[]] + ps) + qs
    ensures [[c] + (ps + qs)[0]] + (ps + qs)[1..] == ([[c] + ps[0]] + ps[1..]) + qs
  {
    assert (ps + qs)[1..] == ps[1..] + qs;
  }

  /** Splitting distributes over a separator. */
  lemma {:induction false} SplitAppend(a: string, d: char, b: string)
    ensures Split(a + [d] + b, d) == Split(a, d) + Split(b, d)
  {
    if a == [] {
      assert a + [d] + b == [d] + b;
      SplitCons(d, b, d);
    } else {
      var tail := a[1..] + [d] + b;
      assert a + [d] + b == [a[0]] + tail;
      SplitCons(a[0], tail, d);
      SplitAppend(a[1..], d, b);
      assert a == [a[0]] + a[1..];
      SplitCons(a[0], a[1..], d);
      GrowHead(a[0], Split(a[1..], d), Split(b, d));
    }
  }

  lemma {:induction false} SplitJoin(ps: seq<string>, d: char)
    requires |ps| >= 1 && AllFree(ps, d)
    ensures Split(Join(ps, d), d) == ps
  {
    SplitOfFree(ps[0], d);
    if |ps| > 1 {
      SplitAppend(ps[0], d, Join(ps[1..], d));
      SplitJoin(ps[1..], d);
      assert [ps[0]] + ps[1..] == ps;
    }
  }

  lemma {:induction false} JoinAppend(ps: seq<string>, qs: seq<string>, d: char)
    requires |ps| >= 1 && |qs| >= 1
    ensures Join(ps + qs, d) == Join(ps, d) + [d] + Join(qs, d)
  {
    if |ps| == 1 {
      assert (ps + qs)[1..] == qs;
    } else {
      JoinAppend(ps[1..], qs, d);
      assert (ps + qs)[1..] == ps[1..] + qs;
    }
  }

  /** One step of a `find(d)` walk drops exactly the first piece. */
  lemma {:induction false} SplitStep(s: string, d: char)
    ensures var k := FirstIndex(s, d);
            if k == |s| then Split(s, d) == [s]
            else Split(s, d) == [s[..k]] + Split(s[k + 1..], d)
  {
    var k := FirstIndex(s, d);
    if k == |s| {
      SplitOfFree(s, d);
    } else {
      assert s == s[..k] + [d] + s[k + 1..];
      SplitAppend(s[..k], d, s[k + 1..]);
      SplitOfFree(s[..k], d);
    }
  }

  // ---------------------------------------------------------------------------
  // Zones
  // ---------------------------------------------------------------------------

  function Labels(name: string): seq<string> { Split(name, '.') }

  predicate IsSuffix<T(==)>(a: seq<T>, b: seq<T>) {
    |a| <= |b| && b[|b| - |a|..] == a
  }

  /** The reference meaning of "name is the zone or lies under it". */
  predicate Within(name: string, zone: string) { IsSuffix(Labels(zone), Labels(name)) }

  /** The textual test of the authority and the router: equal, or a dot and then the zone. */
  predicate EqualOrDotted(name: string, zone: string) {
    name == zone || EndsWith(name, "." + zone)
  }

  lemma {:induction false} DottedIsWithin(front: string, zone: string)
    ensures Within(front + "." + zone, zone)
  {
    SplitAppend(front, '.', zone);
    assert Labels(front + "." + zone)[|Labels(front)|..] == Labels(zone);
  }

  lemma {:induction false} WithinIsDotted(name: string, zone: string)
    requires Within(name, zone) && name != zone
    ensures exists front :: name == front + "." + zone
  {
    var n, z := Labels(name), Labels(zone);
    JoinSplit(name, '.');
    JoinSplit(zone, '.');
    assert |n| == |z| ==> n == z;
    var front := n[..|n| - |z|];
    assert n == front + z;
    JoinAppend(front, z, '.');
    assert name == Join(front, '.') + "." + zone;
  }

  lemma {:induction false} TextualTestIsLabelSuffix(name: string, zone: string)
    ensures EqualOrDotted(name, zone) <==> Within(name, zone)
  {
    if EndsWith(name, "." + zone) {
      var front := name[..|name| - |zone| - 1];
      assert name == front + "." + zone;
      DottedIsWithin(front, zone);
    }
    if Within(name, zone) && name != zone {
      WithinIsDotted(name, zone);
      var front :| name == front + "." + zone;
      assert name[|name| - |zone| - 1..] == "." + zone;
    }
  }

  lemma {:induction false} WithinReflexive(name: string)
    ensures Within(name, name)
  {
  }

  lemma {:induction false} WithinTransitive(name: string, mid: string, zone: string)
    requires Within(name, mid) && Within(mid, zone)
    ensures Within(name, zone)
  {
    var n, m, z := Labels(name), Labels(mid), Labels(zone);
    assert n[|n| - |z|..] == n[|n| - |m|..][|m| - |z|..];
  }

  lemma {:induction false} WithinAntisymmetric(a: string, b: string)
    requires Within(a, b) && Within(b, a)
    ensures a == b
  {
    JoinSplit(a, '.');
    JoinSplit(b, '.');
  }

  lemma {:induction false} WithinLength(name: string, zone: string)
    requires Within(name, zone)
    ensures |zone| <= |name| && (|zone| == |name| ==> zone == name)
  {
    TextualTestIsLabelSuffix(name, zone);
  }

  lemma {:induction false} FewerLabelsContain(name: string, z1: string, z2: string)
    requires Within(name, z1) && Within(name, z2) && |Labels(z1)| <= |Labels(z2)|
    ensures Within(z2, z1)
  {
    var n, a, b := Labels(name), Labels(z1), Labels(z2);
    assert b[|b| - |a|..] == n[|n| - |a|..];
  }

  /** The zones that contain one name form a chain, ordered by their text length. */
  lemma {:induction false} ZonesOfANameFormAChain(name: string, z1: string, z2: string)
    requires Within(name, z1) && Within(name, z2)
    ensures Within(z1, z2) || Within(z2, z1)
    ensures |z1| <= |z2| ==> Within(z2, z1)
    ensures |z1| == |z2| ==> z1 == z2
  {
    if |Labels(z1)| <= |Labels(z2)| {
      FewerLabelsContain(name, z1, z2);
      WithinLength(z2, z1);
    } else {
      FewerLabelsContain(name, z2, z1);
      WithinLength(z1, z2);
    }
  }
}
