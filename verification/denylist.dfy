/** The response-IP denylist: CIDR rules as masks over 32- and 128-bit addresses, with the
    IPv4-mapped form (section 2.5.5.2 of RFC 4291) rewritten into the IPv4 family. */
module IpDenylist {
  import opened Names
  import opened Spelling
  import opened Text

  // ---------------------------------------------------------------------------
  // Bits
  // ---------------------------------------------------------------------------

  function Pow2(n: nat): (p: nat)
    ensures p >= 1
  {
    if n == 0 then 1 else 2 * Pow2(n - 1)
  }

  /** Bitwise conjunction, digit by digit. */
  function BitAnd(a: nat, b: nat): nat {
    if a == 0 || b == 0 then 0
    else 2 * BitAnd(a / 2, b / 2) + (if a % 2 == 1 && b % 2 == 1 then 1 else 0)
  }

  /** Right shift by `s` places. */
  function Shr(a: nat, s: nat): nat { if s == 0 then a else Shr(a / 2, s - 1) }

  /** Left shift by `s` places in a `w`-bit register: bits pushed out are lost. */
  function ShlWithin(a: nat, s: nat, w: nat): nat {
    if s == 0 then a else (2 * ShlWithin(a, s - 1, w)) % Pow2(w)
  }

  /** The mask of a prefix: all ones shifted left, with prefix 0 special-cased. */
  function Mask(prefix: nat, w: nat): nat
    requires prefix <= w
  {
    if prefix == 0 then 0 else ShlWithin(Pow2(w) - 1, w - prefix, w)
  }

  /** The `prefix` most significant of `w` bits (ShrIsDivision: the quotient by a power of two). */
  function TopBits(a: nat, prefix: nat, w: nat): nat
    requires prefix <= w
  {
    Shr(a, w - prefix)
  }

  // The few nonlinear facts, one per lemma.

  lemma {:induction false} MultipleIsLarge(k: int, d: int)
    requires d > 0
    ensures k >= 1 ==> k * d >= d
    ensures k <= -1 ==> k * d <= -d
  {
    assert k >= 1 ==> (k - 1) * d >= 0;
    assert k <= -1 ==> (-1 - k) * d >= 0;
  }

  lemma {:induction false} MultiplesDiffer(q: int, q': int, d: int)
    ensures (q - q') * d == q * d - q' * d
  {
  }

  lemma {:induction false} DivideAndRemain(a: nat, d: nat)
    requires d > 0
    ensures a == (a / d) * d + a % d && a % d < d
  {
  }

  lemma {:induction false} DoubleFactor(q: nat, p: nat)
    ensures q * (2 * p) == 2 * (q * p)
  {
  }

  lemma {:induction false} DivisionUnique(a: nat, d: nat, q: nat, r: nat)
    requires d > 0 && r < d && a == q * d + r
    ensures a / d == q
  {
    DivideAndRemain(a, d);
    var k: int := q - a / d;
    MultiplesDiffer(q, a / d, d);
    MultipleIsLarge(k, d);
  }

  /** Halving and then dividing is dividing by the double. */
  lemma {:induction false} HalveThenDivide(a: nat, p: nat)
    requires p > 0
    ensures (a / 2) / p == a / (2 * p)
  {
    var q, t := (a / 2) / p, (a / 2) % p;
    DivideAndRemain(a / 2, p);
    DoubleFactor(q, p);
    DivisionUnique(a, 2 * p, q, 2 * t + a % 2);
  }

  lemma {:induction false} ShrIsDivision(a: nat, s: nat)
    ensures Shr(a, s) == a / Pow2(s)
  {
    if s > 0 {
      ShrIsDivision(a / 2, s - 1);
      HalveThenDivide(a, Pow2(s - 1));
    }
  }

  lemma {:induction false} Pow2Monotone(i: nat, j: nat)
    requires i <= j
    ensures Pow2(i) <= Pow2(j)
  {
    if i < j { Pow2Monotone(i, j - 1); }
  }

  lemma {:induction false} ShiftedOnes(s: nat, w: nat)
    requires s < w
    ensures ShlWithin(Pow2(w) - 1, s, w) == Pow2(w) - Pow2(s)
  {
    if s > 0 {
      ShiftedOnes(s - 1, w);
      Pow2Monotone(s, w);
      var x := 2 * (Pow2(w) - Pow2(s - 1));
      assert x == 1 * Pow2(w) + (Pow2(w) - Pow2(s));
      DivisionUnique(x, Pow2(w), 1, Pow2(w) - Pow2(s));
    }
  }

  lemma {:induction false} MaskValue(prefix: nat, w: nat)
    requires prefix <= w
    ensures Mask(prefix, w) == Pow2(w) - Pow2(w - prefix)
  {
    if prefix > 0 { ShiftedOnes(w - prefix, w); }
  }

  lemma {:induction false} OnesHalve(p: nat)
    requires p >= 1
    ensures (2 * p - 1) / 2 == p - 1 && (2 * p - 1) % 2 == 1
  {
  }

  lemma {:induction false} AndOnes(a: nat, w: nat)
    requires a < Pow2(w)
    ensures BitAnd(a, Pow2(w) - 1) == a
  {
    if a > 0 {
      assert w > 0;
      AndOnes(a / 2, w - 1);
      OnesHalve(Pow2(w - 1));
    }
  }

  function Doubled(x: nat, s: nat): nat { if s == 0 then x else 2 * Doubled(x, s - 1) }

  lemma {:induction false} DoubledInjective(x: nat, y: nat, s: nat)
    ensures Doubled(x, s) == Doubled(y, s) <==> x == y
  {
    if s > 0 { DoubledInjective(x, y, s - 1); }
  }

  /** Masking keeps the bits above `s` and clears the rest. */
  lemma {:induction false} AndHighMask(a: nat, m: nat, s: nat, w: nat)
    requires a < Pow2(w) && s <= w && m + Pow2(s) == Pow2(w)
    ensures BitAnd(a, m) == Doubled(Shr(a, s), s)
  {
    if s == 0 {
      AndOnes(a, w);
    } else {
      assert m == 2 * (m / 2);
      AndHighMask(a / 2, m / 2, s - 1, w - 1);
    }
  }

  /** A masked comparison is equality of the top bits, for every prefix from 0 to full. */
  lemma {:induction false} MaskedEqualityIsTopBits(a: nat, b: nat, prefix: nat, w: nat)
    requires a < Pow2(w) && b < Pow2(w) && prefix <= w
    ensures BitAnd(a, Mask(prefix, w)) == BitAnd(b, Mask(prefix, w)) <==> TopBits(a, prefix, w) == TopBits(b, prefix, w)
  {
    var s := w - prefix;
    MaskValue(prefix, w);
    AndHighMask(a, Mask(prefix, w), s, w);
    AndHighMask(b, Mask(prefix, w), s, w);
    DoubledInjective(Shr(a, s), Shr(b, s), s);
  }

  // ---------------------------------------------------------------------------
  // The IPv4-mapped form
  // ---------------------------------------------------------------------------

  datatype Addr = V4(bits: nat) | V6(bits: nat) {
    predicate Valid() { bits < if V4? then Pow2(32) else Pow2(128) }
  }

  /** `to_ipv4_mapped`: 80 zero bits, 16 one bits, then the embedded address. */
  predicate IsMapped(bits: nat) { bits / 0x1_0000_0000 == 0xffff }

  function Embedded(bits: nat): nat { bits % 0x1_0000_0000 }

  lemma {:induction false} Pow2Of32()
    ensures Pow2(32) == 0x1_0000_0000
  {
    assert Pow2(8) == 0x100;
    assert Pow2(16) == 0x1_0000;
    assert Pow2(24) == 0x100_0000;
  }

  /** The mapped form in terms of shifts. */
  lemma {:induction false} MappedByShift(bits: nat)
    ensures IsMapped(bits) <==> Shr(bits, 32) == 0xffff
    ensures Embedded(bits) == bits % Pow2(32) < Pow2(32)
  {
    Pow2Of32();
    ShrIsDivision(bits, 32);
  }

  lemma {:induction false} ShrBelow(a: nat, s: nat, w: nat)
    requires s <= w && a < Pow2(w)
    ensures Shr(a, s) < Pow2(w - s)
  {
    if s > 0 { ShrBelow(a / 2, s - 1, w - 1); }
  }

  lemma {:induction false} ShrOnce(a: nat, s: nat)
    requires s > 0
    ensures Shr(a, s) == Shr(a / 2, s - 1)
  {
  }

  lemma {:induction false} HalveSum(x: nat, lo: nat)
    ensures (2 * x + lo) / 2 == x + lo / 2
  {
  }

  /** Shifting a number split at bit `w` shifts the low part and moves the high part down. */
  lemma {:induction false} ShrOfSplit(hi: nat, lo: nat, s: nat, w: nat)
    requires s <= w && lo < Pow2(w)
    ensures Shr(hi * Pow2(w) + lo, s) == hi * Pow2(w - s) + Shr(lo, s)
  {
    if s > 0 {
      var x := hi * Pow2(w - 1);
      DoubleFactor(hi, Pow2(w - 1));
      HalveSum(x, lo);
      ShrOnce(2 * x + lo, s);
      ShrOnce(lo, s);
      ShrOfSplit(hi, lo / 2, s - 1, w - 1);
    }
  }

  lemma {:induction false} SplitUnique(h1: nat, l1: nat, h2: nat, l2: nat, p: nat)
    requires l1 < p && l2 < p
    ensures h1 * p + l1 == h2 * p + l2 <==> h1 == h2 && l1 == l2
  {
    DivisionUnique(h1 * p + l1, p, h1, l1);
    DivisionUnique(h2 * p + l2, p, h2, l2);
  }

  lemma {:induction false} ShrAsParts(a: nat, s: nat, w: nat)
    requires s <= w
    ensures Shr(a, s) == Shr(a, w) * Pow2(w - s) + Shr(a % Pow2(w), s)
    ensures Shr(a % Pow2(w), s) < Pow2(w - s)
  {
    var p := Pow2(w);
    ShrIsDivision(a, w);
    DivideAndRemain(a, p);
    ShrOfSplit(a / p, a % p, s, w);
    ShrBelow(a % p, s, w);
  }

  /** Two numbers agree above bit `s` exactly when they agree above bit `w` and their low
      parts agree above bit `s`. */
  lemma {:induction false} AgreeAbove(a: nat, b: nat, s: nat, w: nat)
    requires s <= w
    ensures Shr(a, s) == Shr(b, s)
       <==> Shr(a, w) == Shr(b, w) && Shr(a % Pow2(w), s) == Shr(b % Pow2(w), s)
  {
    ShrAsParts(a, s, w);
    ShrAsParts(b, s, w);
    SplitUnique(Shr(a, w), Shr(a % Pow2(w), s), Shr(b, w), Shr(b % Pow2(w), s), Pow2(w - s));
  }

  /** Rewriting a mapped entry whose prefix reaches the embedded bits into an IPv4 rule keeps
      exactly the IPv6 addresses that the raw rule matched. */
  lemma {:induction false} MappedRewriteIsExact(entry: nat, prefix: nat, a: nat)
    requires IsMapped(entry) && 96 <= prefix <= 128
    ensures TopBits(a, prefix, 128) == TopBits(entry, prefix, 128)
       <==> IsMapped(a) && TopBits(Embedded(a), prefix - 96, 32) == TopBits(Embedded(entry), prefix - 96, 32)
  {
    MappedByShift(a);
    MappedByShift(entry);
    AgreeAbove(a, entry, 128 - prefix, 32);
  }

  // ---------------------------------------------------------------------------
  // Rules
  // ---------------------------------------------------------------------------

  datatype Cidr = Cidr4(network: nat, mask: nat) | Cidr6(network: nat, mask: nat)

  /** An entry as the operator wrote it. */
  datatype Entry = Entry(ip: Addr, prefix: nat) {
    predicate Valid() { ip.Valid() && prefix <= if ip.V4? then 32 else 128 }
  }

  function MaskedRule4(bits: nat, prefix: nat): Cidr
    requires prefix <= 32
  {
    Cidr4(BitAnd(bits, Mask(prefix, 32)), Mask(prefix, 32))
  }

  /** The rule stored for an entry: the second half of `parse_entry`. */
  function RuleFor(e: Entry): Cidr
    requires e.Valid()
  {
    match e.ip
    case V4(bits) => MaskedRule4(bits, e.prefix)
    case V6(bits) =>
      if e.prefix >= 96 && IsMapped(bits) then MaskedRule4(Embedded(bits), e.prefix - 96)
      else Cidr6(BitAnd(bits, Mask(e.prefix, 128)), Mask(e.prefix, 128))
  }

  datatype ParseError = Empty | BadAddress | BadPrefix

  type AddrParser = string -> Option<Addr>

  function ParsePrefix(text: Option<string>, max: nat): (out: Option<nat>)
    ensures out.Some? ==> out.value <= max
  {
    if text.None? then Some(max)
    else
      var v := ParseUnsigned(text.value, 255);
      if v.Some? && v.value <= max then v else None
  }

  /** `parse_entry` up to the address and prefix; the address text is left to `parseIp`. */
  function ReadEntry(parseIp: AddrParser, entry: string): (out: Result<Entry, ParseError>)
    ensures out.Ok? && out.value.ip.Valid() ==> out.value.Valid()
  {
    ReadText(parseIp, Trim(entry))
  }

  function ReadText(parseIp: AddrParser, text: string): (out: Result<Entry, ParseError>)
    ensures out.Ok? && out.value.ip.Valid() ==> out.value.Valid()
  {
    if text == [] then Err(Empty)
    else
      var slash := FirstIndex(text, '/');
      if slash == |text| then ReadParts(parseIp, text, None)
      else ReadParts(parseIp, Trim(text[..slash]), Some(Trim(text[slash + 1..])))
  }

  function ReadParts(parseIp: AddrParser, address: string, prefixText: Option<string>): (out: Result<Entry, ParseError>)
    ensures out.Ok? && out.value.ip.Valid() ==> out.value.Valid()
  {
    var ip := parseIp(address);
    if ip.None? then Err(BadAddress)
    else
      var prefix := ParsePrefix(prefixText, WidthOf(ip.value));
      if prefix.None? then Err(BadPrefix) else Ok(Entry(ip.value, prefix.value))
  }

  function WidthOf(ip: Addr): nat { if ip.V4? then 32 else 128 }

  lemma {:induction false} BareText(parseIp: AddrParser, address: string)
    requires address != [] && Free(address, '/') && parseIp(address).Some?
    ensures ReadText(parseIp, address) == Ok(Entry(parseIp(address).value, WidthOf(parseIp(address).value)))
  {
    FirstIndexUnique(address, '/', |address|);
  }

  lemma {:induction false} CutAtSlash(address: string, digits: string)
    requires Free(address, '/')
    ensures var text := address + "/" + digits;
            FirstIndex(text, '/') == |address| && text[..|address|] == address && text[|address| + 1..] == digits
  {
    FirstIndexUnique(address + "/" + digits, '/', |address|);
  }

  lemma {:induction false} RangeText(parseIp: AddrParser, left: string, right: string, address: string, digits: string)
    requires Free(left, '/') && Trim(left) == address && Trim(right) == digits
    ensures ReadText(parseIp, left + "/" + right) == ReadParts(parseIp, address, Some(digits))
  {
    CutAtSlash(left, right);
  }

  lemma {:induction false} RangeParts(parseIp: AddrParser, address: string, digits: string, prefix: nat)
    requires parseIp(address).Some? && digits != [] && digits[0] != '+' && DigitsValue(digits) == Some(prefix)
    ensures var ip := parseIp(address).value;
            ReadParts(parseIp, address, Some(digits))
            == if prefix <= WidthOf(ip) then Ok(Entry(ip, prefix)) else Err(BadPrefix)
  {
  }

  /** White space that may stand around the parts of an entry. */
  datatype Blanks = Blanks(lead: string, left: string, right: string, trail: string) {
    predicate Valid() { AllBlank(lead) && AllBlank(left) && AllBlank(right) && AllBlank(trail) }
  }

  lemma {:induction false} BlankAround(lead: string, core: string, trail: string)
    requires AllBlank(lead) && AllBlank(trail) && Trimmed(core)
    ensures Trim(lead + core + trail) == core
  {
    CoreIsTrim(lead + core + trail, core, lead, trail);
  }

  lemma {:induction false} DecimalIsTrimmed(n: nat)
    ensures Trimmed(Decimal(n)) && DigitsValue(Decimal(n)) == Some(n)
  {
    DecimalValue(n);
    DigitsAreDigits(Decimal(n));
    assert IsDigit(Decimal(n)[0]) && IsDigit(Decimal(n)[|Decimal(n)| - 1]);
  }

  /** Both spellings of an entry, with any white space around their parts: a bare address is a
      single host, and `address/prefix` is that range or, when the prefix is too long for the
      family, an error. */
  lemma {:induction false} EntrySpellings(parseIp: AddrParser, address: string, prefix: nat, b: Blanks)
    requires address != [] && Trimmed(address) && Free(address, '/') && parseIp(address).Some? && b.Valid()
    ensures var ip := parseIp(address).value;
            var width := if ip.V4? then 32 else 128;
            && ReadEntry(parseIp, b.lead + address + b.trail) == Ok(Entry(ip, width))
            && ReadEntry(parseIp, b.lead + (address + b.left + "/" + (b.right + Decimal(prefix))) + b.trail)
               == if prefix <= width then Ok(Entry(ip, prefix)) else Err(BadPrefix)
  {
    BlankAround(b.lead, address, b.trail);
    BareText(parseIp, address);
    RangeSpelling(parseIp, address, prefix, b);
  }

  lemma {:induction false} RangeSpelling(parseIp: AddrParser, address: string, prefix: nat, b: Blanks)
    requires address != [] && Trimmed(address) && Free(address, '/') && parseIp(address).Some? && b.Valid()
    ensures var ip := parseIp(address).value;
            ReadEntry(parseIp, b.lead + (address + b.left + "/" + (b.right + Decimal(prefix))) + b.trail)
            == if prefix <= WidthOf(ip) then Ok(Entry(ip, prefix)) else Err(BadPrefix)
  {
    var digits := Decimal(prefix);
    DecimalIsTrimmed(prefix);
    RangeIsTrimmed(address + b.left, b.right + digits);
    BlankAround(b.lead, address + b.left + "/" + (b.right + digits), b.trail);
    SideIsTrimmed(address, b.left, digits, b.right);
    FreeOfSlash(address, b.left);
    RangeText(parseIp, address + b.left, b.right + digits, address, digits);
    RangeParts(parseIp, address, digits, prefix);
  }

  lemma {:induction false} SideIsTrimmed(address: string, left: string, digits: string, right: string)
    requires Trimmed(address) && Trimmed(digits) && AllBlank(left) && AllBlank(right)
    ensures Trim(address + left) == address && Trim(right + digits) == digits
  {
    BlankAround([], address, left);
    BlankAround(right, digits, []);
    assert [] + address + left == address + left && right + digits + [] == right + digits;
  }

  lemma {:induction false} FreeOfSlash(address: string, blank: string)
    requires Free(address, '/') && AllBlank(blank)
    ensures Free(address + blank, '/')
  {
    assert !IsWhitespace('/');
  }

  lemma {:induction false} RangeIsTrimmed(left: string, right: string)
    requires left != [] && !IsWhitespace(left[0]) && right != [] && !IsWhitespace(right[|right| - 1])
    ensures Trimmed(left + "/" + right)
  {
    var text := left + "/" + right;
    assert text[0] == left[0] && text[|text| - 1] == right[|right| - 1];
  }

  /** Does the entry, as written, mean to deny `a`?  Mapped addresses and mapped entries that
      reach the embedded bits stand for the IPv4 address inside them. */
  predicate Covers(e: Entry, a: Addr)
    requires e.Valid()
  {
    match (e.ip, a)
    case (V4(n), V4(x)) => TopBits(x, e.prefix, 32) == TopBits(n, e.prefix, 32)
    case (V4(n), V6(x)) => IsMapped(x) && TopBits(Embedded(x), e.prefix, 32) == TopBits(n, e.prefix, 32)
    case (V6(n), V6(x)) => TopBits(x, e.prefix, 128) == TopBits(n, e.prefix, 128)
    case (V6(n), V4(x)) =>
      IsMapped(n) && e.prefix >= 96 && TopBits(x, e.prefix - 96, 32) == TopBits(Embedded(n), e.prefix - 96, 32)
  }

  type MaskPair = (nat, nat)

  /** The two rule vectors. */
  datatype Denylist = Denylist(v4: seq<MaskPair>, v6: seq<MaskPair>)

  predicate AnyMatch(rules: seq<MaskPair>, bits: nat) {
    exists i :: 0 <= i < |rules| && BitAnd(bits, rules[i].1) == rules[i].0
  }

  /** `contains`: the raw family first, then the embedded address of a mapped one. */
  predicate Contains(list: Denylist, a: Addr) {
    var raw := match a case V4(bits) => AnyMatch(list.v4, bits) case V6(bits) => AnyMatch(list.v6, bits);
    if raw then true
    else if a.V6? && IsMapped(a.bits) then AnyMatch(list.v4, Embedded(a.bits))
    else false
  }

  /** What one stored rule contributes to `contains`. */
  predicate RuleHits(r: Cidr, a: Addr) {
    match (r, a)
    case (Cidr4(n, m), V4(x)) => BitAnd(x, m) == n
    case (Cidr4(n, m), V6(x)) => IsMapped(x) && BitAnd(Embedded(x), m) == n
    case (Cidr6(n, m), V6(x)) => BitAnd(x, m) == n
    case (Cidr6(_, _), V4(_)) => false
  }

  lemma {:induction false} V4RuleHits(n: nat, prefix: nat, a: Addr)
    requires Entry(V4(n), prefix).Valid() && a.Valid()
    ensures RuleHits(RuleFor(Entry(V4(n), prefix)), a) <==> Covers(Entry(V4(n), prefix), a)
  {
    match a
    case V4(x) => MaskedEqualityIsTopBits(x, n, prefix, 32);
    case V6(x) =>
      MappedByShift(x);
      MaskedEqualityIsTopBits(Embedded(x), n, prefix, 32);
  }

  lemma {:induction false} MappedRuleHits(n: nat, prefix: nat, a: Addr)
    requires Entry(V6(n), prefix).Valid() && a.Valid() && IsMapped(n) && prefix >= 96
    ensures RuleHits(RuleFor(Entry(V6(n), prefix)), a) <==> Covers(Entry(V6(n), prefix), a)
  {
    MappedByShift(n);
    match a
    case V4(x) => MaskedEqualityIsTopBits(x, Embedded(n), prefix - 96, 32);
    case V6(x) =>
      MappedRewriteIsExact(n, prefix, x);
      MappedByShift(x);
      MaskedEqualityIsTopBits(Embedded(x), Embedded(n), prefix - 96, 32);
  }

  lemma {:induction false} RawRuleHits(n: nat, prefix: nat, a: Addr)
    requires Entry(V6(n), prefix).Valid() && a.Valid() && !(IsMapped(n) && prefix >= 96)
    ensures RuleHits(RuleFor(Entry(V6(n), prefix)), a) <==> Covers(Entry(V6(n), prefix), a)
  {
    if a.V6? { MaskedEqualityIsTopBits(a.bits, n, prefix, 128); }
  }

  /** The stored rule denies exactly what the entry covers, in both address families. */
  lemma {:induction false} RuleHitsIffCovers(e: Entry, a: Addr)
    requires e.Valid() && a.Valid()
    ensures RuleHits(RuleFor(e), a) <==> Covers(e, a)
  {
    if e.ip.V4? {
      V4RuleHits(e.ip.bits, e.prefix, a);
    } else if IsMapped(e.ip.bits) && e.prefix >= 96 {
      MappedRuleHits(e.ip.bits, e.prefix, a);
    } else {
      RawRuleHits(e.ip.bits, e.prefix, a);
    }
  }

  type EntryReader = string -> Result<Entry, ParseError>

  /** The rules of the entries, split by family and in order. */
  predicate Stores(list: Denylist, rules: seq<Cidr>)
    decreases |rules|
  {
    if rules == [] then list == Denylist([], [])
    else
      match rules[|rules| - 1]
      case Cidr4(n, m) =>
        list.v4 != [] && list.v4[|list.v4| - 1] == (n, m)
        && Stores(list.(v4 := list.v4[..|list.v4| - 1]), rules[..|rules| - 1])
      case Cidr6(n, m) =>
        list.v6 != [] && list.v6[|list.v6| - 1] == (n, m)
        && Stores(list.(v6 := list.v6[..|list.v6| - 1]), rules[..|rules| - 1])
  }

  lemma {:induction false} ContainsIffSomeRuleHits(list: Denylist, rules: seq<Cidr>, a: Addr)
    requires Stores(list, rules)
    ensures Contains(list, a) <==> exists i :: 0 <= i < |rules| && RuleHits(rules[i], a)
    decreases |rules|
  {
    if rules != [] {
      var front, r := rules[..|rules| - 1], rules[|rules| - 1];
      var less := if r.Cidr4? then list.(v4 := list.v4[..|list.v4| - 1]) else list.(v6 := list.v6[..|list.v6| - 1]);
      ContainsIffSomeRuleHits(less, front, a);
      if r.Cidr4? {
        AnyMatchSnoc(less.v4, (r.network, r.mask), if a.V4? then a.bits else Embedded(a.bits));
        assert list.v4 == less.v4 + [(r.network, r.mask)];
      } else {
        AnyMatchSnoc(less.v6, (r.network, r.mask), a.bits);
        assert list.v6 == less.v6 + [(r.network, r.mask)];
      }
      assert Contains(list, a) <==> Contains(less, a) || RuleHits(r, a);
      assert forall i :: 0 <= i < |front| ==> rules[i] == front[i];
    }
  }

  lemma {:induction false} AnyMatchSnoc(rules: seq<MaskPair>, r: MaskPair, bits: nat)
    ensures AnyMatch(rules + [r], bits) <==> AnyMatch(rules, bits) || BitAnd(bits, r.1) == r.0
  {
    var all := rules + [r];
    assert all[|rules|] == r;
    if AnyMatch(rules, bits) {
      var i :| 0 <= i < |rules| && BitAnd(bits, rules[i].1) == rules[i].0;
      assert all[i] == rules[i];
    }
  }

  ghost predicate SomeCovers(read: EntryReader, entries: seq<string>, a: Addr) {
    exists i :: 0 <= i < |entries| && read(entries[i]).Ok? && read(entries[i]).value.Valid() && Covers(read(entries[i]).value, a)
  }

  lemma {:induction false} StoredRulesDeny(read: EntryReader, entries: seq<string>, list: Denylist, rules: seq<Cidr>, a: Addr)
    requires RulesOf(read, entries, rules) && Stores(list, rules) && a.Valid()
    ensures Contains(list, a) <==> SomeCovers(read, entries, a)
  {
    ContainsIffSomeRuleHits(list, rules, a);
    forall i | 0 <= i < |entries| ensures RuleHits(rules[i], a) <==> Covers(read(entries[i]).value, a) {
      RuleHitsIffCovers(read(entries[i]).value, a);
    }
  }

  /** Appending one rule to the vector of its family. */
  function AddRule(list: Denylist, r: Cidr): Denylist {
    match r
    case Cidr4(n, m) => list.(v4 := list.v4 + [(n, m)])
    case Cidr6(n, m) => list.(v6 := list.v6 + [(n, m)])
  }

  lemma {:induction false} StoresNext(list: Denylist, rules: seq<Cidr>, r: Cidr)
    requires Stores(list, rules)
    ensures Stores(AddRule(list, r), rules + [r])
  {
    assert (rules + [r])[..|rules|] == rules;
    assert (list.v4 + [(r.network, r.mask)])[..|list.v4|] == list.v4;
    assert (list.v6 + [(r.network, r.mask)])[..|list.v6|] == list.v6;
  }

  /** `rules` are the rules of the entries, in order. */
  ghost predicate RulesOf(read: EntryReader, entries: seq<string>, rules: seq<Cidr>) {
    |rules| == |entries| && forall i :: 0 <= i < |entries| ==>
      read(entries[i]).Ok? && read(entries[i]).value.Valid() && rules[i] == RuleFor(read(entries[i]).value)
  }

  type RuleReader = string -> Result<Cidr, ParseError>

  function RuleReaderOver(read: EntryReader): RuleReader
    requires forall s :: read(s).Ok? ==> read(s).value.Valid()
  {
    s => if read(s).Ok? then Ok(RuleFor(read(s).value)) else Err(read(s).error)
  }

  /** One turn of that loop: the rule goes to the end of the vector of its family. */
  method StoreRule(list: Denylist, ghost rules: seq<Cidr>, r: Cidr) returns (list': Denylist)
    requires Stores(list, rules)
    ensures Stores(list', rules + [r])
  {
    StoresNext(list, rules, r);
    match r
    case Cidr4(network, mask) => list' := list.(v4 := list.v4 + [(network, mask)]);
    case Cidr6(network, mask) => list' := list.(v6 := list.v6 + [(network, mask)]);
  }

  /** The loop of `IpDenylist::parse`: one rule per entry, split by family. */
  method StoreRules(rule: RuleReader, entries: seq<string>) returns (out: Result<Denylist, ParseError>, ghost rules: seq<Cidr>)
    ensures out.Ok? <==> forall i :: 0 <= i < |entries| ==> rule(entries[i]).Ok?
    ensures out.Ok? ==> Stores(out.value, rules) && |rules| == |entries|
    ensures out.Ok? ==> forall i :: 0 <= i < |entries| ==> rule(entries[i]) == Ok(rules[i])
  {
    var list := Denylist([], []);
    rules := [];
    for n := 0 to |entries|
      invariant Stores(list, rules) && |rules| == n
      invariant forall i :: 0 <= i < n ==> rule(entries[i]) == Ok(rules[i])
    {
      var r := rule(entries[n]);
      if r.Err? { return Err(r.error), rules; }
      list := StoreRule(list, rules, r.value);
      rules := rules + [r.value];
    }
    return Ok(list), rules;
  }

  lemma {:induction false} ReadRulesAre(read: EntryReader, entries: seq<string>, rules: seq<Cidr>)
    requires forall s :: read(s).Ok? ==> read(s).value.Valid()
    requires |rules| == |entries| && forall i :: 0 <= i < |entries| ==> RuleReaderOver(read)(entries[i]) == Ok(rules[i])
    ensures RulesOf(read, entries, rules)
  {
  }

  /** `IpDenylist::parse`: the first bad entry fails the whole list; otherwise the list denies
      an address exactly when some entry covers it. */
  method ParseDenylist(read: EntryReader, entries: seq<string>) returns (out: Result<Denylist, ParseError>)
    requires forall s :: read(s).Ok? ==> read(s).value.Valid()
    ensures out.Ok? <==> forall i :: 0 <= i < |entries| ==> read(entries[i]).Ok?
    ensures out.Ok? ==> forall a: Addr :: a.Valid() ==> (Contains(out.value, a) <==> SomeCovers(read, entries, a))
  {
    var rule := RuleReaderOver(read);
    ghost var rules;
    out, rules := StoreRules(rule, entries);
    assert forall i :: 0 <= i < |entries| ==> rule(entries[i]).Ok? == read(entries[i]).Ok?;
    if out.Ok? {
      ReadRulesAre(read, entries, rules);
      forall a: Addr | a.Valid() ensures Contains(out.value, a) <==> SomeCovers(read, entries, a) {
        StoredRulesDeny(read, entries, out.value, rules, a);
      }
    }
  }

  /** The reader of configured entries over an address parser. */
  function ReaderOver(parseIp: AddrParser): EntryReader { s => ReadEntry(parseIp, s) }

  /** The whole of `IpDenylist::parse`, over any parser of address texts. */
  method ParseEntries(parseIp: AddrParser, entries: seq<string>) returns (out: Result<Denylist, ParseError>)
    requires forall s :: parseIp(s).Some? ==> parseIp(s).value.Valid()
    ensures out.Ok? <==> forall i :: 0 <= i < |entries| ==> ReadEntry(parseIp, entries[i]).Ok?
    ensures out.Ok? ==> forall a: Addr :: a.Valid() ==> (Contains(out.value, a) <==> SomeCovers(ReaderOver(parseIp), entries, a))
  {
    var read := ReaderOver(parseIp);
    forall s | read(s).Ok? ensures read(s).value.Valid() { ReadAddressIsParsed(parseIp, s); }
    out := ParseDenylist(read, entries);
    assert forall i :: 0 <= i < |entries| ==> read(entries[i]) == ReadEntry(parseIp, entries[i]);
  }

  lemma {:induction false} PartsAreParsed(parseIp: AddrParser, address: string, prefixText: Option<string>)
    requires forall t :: parseIp(t).Some? ==> parseIp(t).value.Valid()
    ensures ReadParts(parseIp, address, prefixText).Ok? ==> ReadParts(parseIp, address, prefixText).value.ip.Valid()
  {
  }

  lemma {:induction false} ReadAddressIsParsed(parseIp: AddrParser, s: string)
    requires forall t :: parseIp(t).Some? ==> parseIp(t).value.Valid()
    ensures ReadEntry(parseIp, s).Ok? ==> ReadEntry(parseIp, s).value.Valid()
  {
    var text := Trim(s);
    var slash := FirstIndex(text, '/');
    if slash == |text| {
      PartsAreParsed(parseIp, text, None);
    } else {
      PartsAreParsed(parseIp, Trim(text[..slash]), Some(Trim(text[slash + 1..])));
    }
  }

  /** A range of raw IPv6 bits: an IPv6 entry that does not stand for IPv4 addresses. */
  predicate CoversRaw(e: Entry, bits: nat)
    requires e.Valid()
  {
    && e.ip.V6? && !(IsMapped(e.ip.bits) && e.prefix >= 96)
    && TopBits(bits, e.prefix, 128) == TopBits(e.ip.bits, e.prefix, 128)
  }

  lemma {:induction false} MappedAddressIsCovered(e: Entry, bits: nat)
    requires e.Valid() && IsMapped(bits)
    ensures Covers(e, V6(bits)) <==> Covers(e, V4(Embedded(bits))) || CoversRaw(e, bits)
  {
    if e.ip.V6? && IsMapped(e.ip.bits) && e.prefix >= 96 { MappedRewriteIsExact(e.ip.bits, e.prefix, bits); }
  }

  ghost predicate SomeCoversRaw(read: EntryReader, entries: seq<string>, bits: nat) {
    exists i :: 0 <= i < |entries| && read(entries[i]).Ok? && read(entries[i]).value.Valid() && CoversRaw(read(entries[i]).value, bits)
  }

  lemma {:induction false} MappedIsCoveredBySome(read: EntryReader, entries: seq<string>, bits: nat)
    requires IsMapped(bits)
    ensures SomeCovers(read, entries, V6(bits))
       <==> SomeCovers(read, entries, V4(Embedded(bits))) || SomeCoversRaw(read, entries, bits)
  {
    forall i | 0 <= i < |entries| && read(entries[i]).Ok? && read(entries[i]).value.Valid()
      ensures var e := read(entries[i]).value;
              Covers(e, V6(bits)) <==> Covers(e, V4(Embedded(bits))) || CoversRaw(e, bits)
    {
      MappedAddressIsCovered(read(entries[i]).value, bits);
    }
  }

  lemma {:induction false} MappedIsValid(bits: nat)
    requires IsMapped(bits)
    ensures V6(bits).Valid() && V4(Embedded(bits)).Valid()
  {
    Pow2Of32();
    Pow2Monotone(64, 128);
    assert Pow2(64) == 0x1_0000_0000_0000_0000 by { Pow2Adds(32, 32); }
  }

  lemma {:induction false} Pow2Adds(i: nat, j: nat)
    ensures Pow2(i + j) == Pow2(i) * Pow2(j)
  {
    if j > 0 {
      Pow2Adds(i, j - 1);
      DoubleFactor(Pow2(i), Pow2(j - 1));
    }
  }

  /** No family confusion: over every parsed list, a mapped address is denied exactly when its
      IPv4 form is denied or some entry covers it as raw IPv6 bits. */
  lemma {:induction false} MappedAddressFacesBothFamilies(read: EntryReader, entries: seq<string>, list: Denylist, bits: nat)
    requires forall a: Addr :: a.Valid() ==> (Contains(list, a) <==> SomeCovers(read, entries, a))
    requires IsMapped(bits)
    ensures Contains(list, V6(bits)) <==> Contains(list, V4(Embedded(bits))) || SomeCoversRaw(read, entries, bits)
  {
    MappedIsValid(bits);
    MappedIsCoveredBySome(read, entries, bits);
  }
}
