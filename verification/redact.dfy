/** Redaction of credentials in URLs that are printed or logged. */
module UrlRedaction {
  import opened Names
  import opened Spelling

  const MARK: string := "<redacted>"

  predicate IsSecretKey(key: string) {
    Lower(key) in ["token", "access_token", "auth", "auth_token", "authorization", "apikey", "api_key",
                   "api-key", "key", "secret", "password", "passwd", "pass", "sig", "signature",
                   "x-amz-signature", "x-goog-signature", "x-ms-signature", "hmac"]
  }

  /** Which parameter names carry credentials. */
  type SecretKeys = string -> bool

  // ---------------------------------------------------------------------------
  // The parts of a URL
  // ---------------------------------------------------------------------------

  /** The parts that redaction distinguishes; `path` keeps its leading slash. */
  datatype Url = Url(scheme: string, authority: string, path: string, query: Option<string>, fragment: Option<string>)

  function Prefixed(mark: char, part: Option<string>): string {
    if part.Some? then [mark] + part.value else []
  }

  function Render(u: Url): string {
    u.scheme + "://" + (u.authority + (u.path + Prefixed('?', u.query) + Prefixed('#', u.fragment)))
  }

  predicate SchemeAt(s: string, i: nat) { i + 3 <= |s| && s[i] == ':' && s[i + 1] == '/' && s[i + 2] == '/' }

  /** Index of the first `://`, or None. */
  function SchemeEnd(s: string): (out: Option<nat>)
    ensures out.Some? ==> SchemeAt(s, out.value) && forall j :: 0 <= j < out.value ==> !SchemeAt(s, j)
    ensures out.None? ==> forall j :: 0 <= j < |s| ==> !SchemeAt(s, j)
  {
    if |s| < 3 then None
    else if SchemeAt(s, 0) then Some(0)
    else
      var rest := SchemeEnd(s[1..]);
      assert forall j :: 0 < j < |s| ==> (SchemeAt(s, j) <==> SchemeAt(s[1..], j - 1));
      if rest.Some? then Some(rest.value + 1) else None
  }

  predicate EndsAuthority(c: char) { c == '/' || c == '?' || c == '#' }

  /** Length of the authority: up to the first `/`, `?` or `#`. */
  function AuthorityLength(s: string): (n: nat)
    ensures n <= |s| && (n < |s| ==> EndsAuthority(s[n]))
    ensures forall j :: 0 <= j < n ==> !EndsAuthority(s[j])
  {
    if s == [] || EndsAuthority(s[0]) then 0 else 1 + AuthorityLength(s[1..])
  }

  /** Cut at the first `c`, which belongs to neither side. */
  function CutAt(s: string, c: char): (r: (string, Option<string>))
    ensures r.0 + Prefixed(c, r.1) == s && Free(r.0, c)
  {
    var k := FirstIndex(s, c);
    if k < |s| then assert s == s[..k] + ([c] + s[k + 1..]); (s[..k], Some(s[k + 1..])) else (s, None)
  }

  lemma {:induction false} CutAtUnique(front: string, c: char, tail: Option<string>)
    requires Free(front, c)
    ensures CutAt(front + Prefixed(c, tail), c) == (front, tail)
  {
    if tail.None? {
      assert front + Prefixed(c, tail) == front;
      FirstIndexUnique(front, c, |front|);
    } else {
      CutAtMark(front, c, tail.value);
    }
  }

  lemma {:induction false} CutAtMark(front: string, c: char, tail: string)
    requires Free(front, c)
    ensures CutAt(front + ([c] + tail), c) == (front, Some(tail))
  {
    var s := front + ([c] + tail);
    FirstIndexUnique(s, c, |front|);
    assert s[..|front|] == front && s[|front| + 1..] == tail;
  }

  /** What follows the authority, cut at the first `#` and then at the first `?`. */
  function CutRest(rest: string): (string, Option<string>, Option<string>) {
    var outer := CutAt(rest, '#');
    var inner := CutAt(outer.0, '?');
    (inner.0, inner.1, outer.1)
  }

  function PartsAfter(scheme: string, after: string): Url {
    var n := AuthorityLength(after);
    var cut := CutRest(after[n..]);
    Url(scheme, after[..n], cut.0, cut.1, cut.2)
  }

  /** The parts of a text that has a scheme. */
  function Parts(url: string): Option<Url> {
    var k := SchemeEnd(url);
    if k.None? then None else Some(PartsAfter(url[..k.value], url[k.value + 3..]))
  }

  predicate AuthorityText(a: string) { forall j :: 0 <= j < |a| ==> !EndsAuthority(a[j]) }

  /** Parts that can be told apart again. */
  predicate Separable(u: Url) {
    && SchemeEnd(u.scheme).None?
    && AuthorityText(u.authority)
    && (u.path != [] ==> u.path[0] == '/') && Free(u.path, '?') && Free(u.path, '#')
    && (u.query.Some? ==> Free(u.query.value, '#'))
  }

  lemma {:induction false} CutOfRest(path: string, query: Option<string>, fragment: Option<string>)
    requires Free(path, '?') && Free(path, '#') && (query.Some? ==> Free(query.value, '#'))
    ensures CutRest(path + Prefixed('?', query) + Prefixed('#', fragment)) == (path, query, fragment)
  {
    assert Free(path + Prefixed('?', query), '#');
    CutAtUnique(path + Prefixed('?', query), '#', fragment);
    CutAtUnique(path, '?', query);
  }

  lemma {:induction false} AuthorityOf(authority: string, rest: string)
    requires AuthorityText(authority) && (rest != [] ==> EndsAuthority(rest[0]))
    ensures AuthorityLength(authority + rest) == |authority|
  {
    var s := authority + rest;
    var n := AuthorityLength(s);
    assert n < |s| ==> EndsAuthority(s[n]);
    assert |authority| < |s| ==> EndsAuthority(s[|authority|]);
    assert forall j :: 0 <= j < |authority| ==> s[j] == authority[j];
  }

  lemma {:induction false} SchemeOf(scheme: string, after: string)
    requires SchemeEnd(scheme).None?
    ensures SchemeEnd(scheme + "://" + after) == Some(|scheme|)
  {
    var s := scheme + "://" + after;
    assert SchemeAt(s, |scheme|);
    forall j | 0 <= j < |scheme| ensures !SchemeAt(s, j) {
      assert !SchemeAt(scheme, j);
      assert forall i :: 0 <= i < |scheme| ==> s[i] == scheme[i];
      assert s[|scheme|] == ':' && s[|scheme| + 1] == '/';
    }
    var k := SchemeEnd(s);
    assert k.Some?;
  }

  /** The rest of a rendered URL, after the authority. */
  function RestOf(u: Url): string { u.path + Prefixed('?', u.query) + Prefixed('#', u.fragment) }

  lemma {:induction false} RestHead(u: Url)
    requires u.path != [] ==> u.path[0] == '/'
    ensures RestOf(u) != [] ==> EndsAuthority(RestOf(u)[0])
  {
  }

  lemma {:induction false} PartsAfterRender(u: Url)
    requires Separable(u)
    ensures PartsAfter(u.scheme, u.authority + RestOf(u)) == u
  {
    var after := u.authority + RestOf(u);
    RestHead(u);
    AuthorityOf(u.authority, RestOf(u));
    assert after[..|u.authority|] == u.authority && after[|u.authority|..] == RestOf(u);
    CutOfRest(u.path, u.query, u.fragment);
  }

  /** Reading a rendered URL gives its parts back. */
  lemma {:induction false} PartsInvertRender(u: Url)
    requires Separable(u)
    ensures Parts(Render(u)) == Some(u)
  {
    var after := u.authority + RestOf(u);
    var url := Render(u);
    assert url == u.scheme + "://" + after;
    SchemeOf(u.scheme, after);
    assert url[..|u.scheme|] == u.scheme && url[|u.scheme| + 3..] == after;
    PartsAfterRender(u);
  }

  lemma {:induction false} PrefixFree(a: string, b: string, c: char)
    requires Free(a + b, c)
    ensures Free(a, c) && Free(b, c)
  {
    assert forall i :: 0 <= i < |a| ==> a[i] == (a + b)[i];
    assert forall i :: 0 <= i < |b| ==> b[i] == (a + b)[|a| + i];
  }

  lemma {:induction false} CutIsExact(rest: string)
    requires rest != [] ==> EndsAuthority(rest[0])
    ensures var cut := CutRest(rest);
            && cut.0 + Prefixed('?', cut.1) + Prefixed('#', cut.2) == rest
            && (cut.0 != [] ==> cut.0[0] == '/') && Free(cut.0, '?') && Free(cut.0, '#')
            && (cut.1.Some? ==> Free(cut.1.value, '#'))
  {
    var outer := CutAt(rest, '#');
    var inner := CutAt(outer.0, '?');
    PrefixFree(inner.0, Prefixed('?', inner.1), '#');
    if inner.1.Some? { PrefixFree(['?'], inner.1.value, '#'); }
    assert inner.0 != [] ==> inner.0[0] == rest[0];
  }

  lemma {:induction false} SchemePrefixIsClean(url: string, k: nat)
    requires SchemeEnd(url) == Some(k)
    ensures SchemeEnd(url[..k]).None?
  {
    var p := url[..k];
    forall j | 0 <= j < |p| ensures !SchemeAt(p, j) {
      assert !SchemeAt(url, j);
    }
    assert SchemeEnd(p).Some? ==> SchemeAt(p, SchemeEnd(p).value);
  }

  lemma {:induction false} AfterIsExact(scheme: string, after: string)
    ensures var u := PartsAfter(scheme, after);
            && u.authority + RestOf(u) == after && AuthorityText(u.authority)
            && (u.path != [] ==> u.path[0] == '/') && Free(u.path, '?') && Free(u.path, '#')
            && (u.query.Some? ==> Free(u.query.value, '#'))
  {
    var n := AuthorityLength(after);
    AuthorityPart(after);
    CutIsExact(after[n..]);
    assert after == after[..n] + after[n..];
  }

  lemma {:induction false} AuthorityPart(after: string)
    ensures var n := AuthorityLength(after);
            AuthorityText(after[..n]) && (after[n..] != [] ==> EndsAuthority(after[n..][0]))
  {
  }

  lemma {:induction false} SchemeIsExact(url: string, k: nat)
    requires SchemeEnd(url) == Some(k)
    ensures url == url[..k] + "://" + url[k + 3..]
  {
    assert url[k..k + 3] == "://";
  }

  /** The parts of any text render to the text itself and can be told apart again. */
  lemma {:induction false} RenderInvertsParts(url: string)
    requires Parts(url).Some?
    ensures Render(Parts(url).value) == url && Separable(Parts(url).value)
  {
    var k := SchemeEnd(url).value;
    SchemePrefixIsClean(url, k);
    SchemeIsExact(url, k);
    AfterIsExact(url[..k], url[k + 3..]);
  }

  // ---------------------------------------------------------------------------
  // Masking
  // ---------------------------------------------------------------------------

  /** Index of the last `@`, or None. */
  function LastAt(s: string): (out: Option<nat>)
    ensures out.Some? ==> out.value < |s| && s[out.value] == '@' && forall j :: out.value < j < |s| ==> s[j] != '@'
    ensures out.None? ==> Free(s, '@')
  {
    if s == [] then None
    else if s[|s| - 1] == '@' then Some(|s| - 1)
    else LastAt(s[..|s| - 1])
  }

  /** Everything up to the last `@` is user information. */
  function MaskAuthority(a: string): string {
    var at := LastAt(a);
    if at.None? then a else MARK + "@" + a[at.value + 1..]
  }

  function MaskPair(secret: SecretKeys, pair: string): string {
    var eq := FirstIndex(pair, '=');
    if eq < |pair| && secret(pair[..eq]) then pair[..eq] + "=" + MARK else pair
  }

  function MaskPairs(secret: SecretKeys, pairs: seq<string>): (out: seq<string>)
    ensures |out| == |pairs| && forall i :: 0 <= i < |pairs| ==> out[i] == MaskPair(secret, pairs[i])
  {
    seq(|pairs|, i requires 0 <= i < |pairs| => MaskPair(secret, pairs[i]))
  }

  /** `scrub_param_pairs`. */
  function Scrub(secret: SecretKeys, text: string): string {
    Join(MaskPairs(secret, Split(text, '&')), '&')
  }

  function ScrubPart(secret: SecretKeys, part: Option<string>): Option<string> {
    if part.Some? then Some(Scrub(secret, part.value)) else None
  }

  function Mask(secret: SecretKeys, u: Url): Url {
    Url(u.scheme, MaskAuthority(u.authority), u.path, ScrubPart(secret, u.query), ScrubPart(secret, u.fragment))
  }

  /** `redact_url_credentials`: text without a scheme is left alone. */
  function Redact(secret: SecretKeys, url: string): string {
    var u := Parts(url);
    if u.None? then url else Render(Mask(secret, u.value))
  }

  lemma {:induction false} MarkIsInert()
    ensures Free(MARK, '&') && Free(MARK, '#') && Free(MARK, '=') && Free(MARK, '@') && AuthorityText(MARK)
  {
  }

  lemma {:induction false} MaskedPairIsFree(secret: SecretKeys, pair: string, d: char)
    requires Free(pair, d) && Free(MARK, d) && d != '='
    ensures Free(MaskPair(secret, pair), d)
  {
    var eq := FirstIndex(pair, '=');
    var out := MaskPair(secret, pair);
    if out != pair {
      assert out == pair[..eq] + ['='] + MARK;
    }
  }

  lemma {:induction false} JoinFree(ps: seq<string>, d: char, e: char)
    requires |ps| >= 1 && AllFree(ps, e) && d != e
    ensures Free(Join(ps, d), e)
  {
    if |ps| > 1 { JoinFree(ps[1..], d, e); }
  }

  lemma {:induction false} SplitKeepsFree(s: string, d: char, e: char)
    requires Free(s, e)
    ensures AllFree(Split(s, d), e)
  {
    if s != [] { SplitKeepsFree(s[1..], d, e); }
  }

  /** Scrubbing keeps the pair boundaries. */
  lemma {:induction false} ScrubbedPairs(secret: SecretKeys, text: string)
    ensures Split(Scrub(secret, text), '&') == MaskPairs(secret, Split(text, '&'))
  {
    var ps := Split(text, '&');
    var out := MaskPairs(secret, ps);
    SplitFree(text, '&');
    MarkIsInert();
    forall i | 0 <= i < |ps| ensures Free(out[i], '&') { MaskedPairIsFree(secret, ps[i], '&'); }
    SplitJoin(out, '&');
  }

  lemma {:induction false} ScrubKeepsHashFree(secret: SecretKeys, text: string)
    requires Free(text, '#')
    ensures Free(Scrub(secret, text), '#')
  {
    var ps := Split(text, '&');
    var out := MaskPairs(secret, ps);
    SplitKeepsFree(text, '&', '#');
    MarkIsInert();
    forall i | 0 <= i < |ps| ensures Free(out[i], '#') { MaskedPairIsFree(secret, ps[i], '#'); }
    JoinFree(out, '&', '#');
  }

  lemma {:induction false} MaskPairTwice(secret: SecretKeys, pair: string)
    ensures MaskPair(secret, MaskPair(secret, pair)) == MaskPair(secret, pair)
  {
    var eq := FirstIndex(pair, '=');
    var out := MaskPair(secret, pair);
    if out != pair {
      FirstIndexUnique(out, '=', eq);
      assert out[..eq] == pair[..eq];
    }
  }

  lemma {:induction false} ScrubTwice(secret: SecretKeys, text: string)
    ensures Scrub(secret, Scrub(secret, text)) == Scrub(secret, text)
  {
    var ps := Split(text, '&');
    ScrubbedPairs(secret, text);
    forall i | 0 <= i < |ps| ensures MaskPair(secret, MaskPair(secret, ps[i])) == MaskPair(secret, ps[i]) {
      MaskPairTwice(secret, ps[i]);
    }
    assert MaskPairs(secret, MaskPairs(secret, ps)) == MaskPairs(secret, ps);
  }

  lemma {:induction false} LastAtUnique(s: string, k: nat)
    requires k < |s| && s[k] == '@' && forall j :: k < j < |s| ==> s[j] != '@'
    ensures LastAt(s) == Some(k)
  {
    var at := LastAt(s);
    assert at.Some?;
    assert s[at.value] == '@';
  }

  lemma {:induction false} MaskAuthorityTwice(a: string)
    ensures MaskAuthority(MaskAuthority(a)) == MaskAuthority(a)
  {
    var at := LastAt(a);
    if at.Some? {
      var host, out := a[at.value + 1..], MaskAuthority(a);
      assert out == MARK + "@" + host;
      LastAtUnique(out, |MARK|);
      assert out[|MARK| + 1..] == host;
    }
  }

  lemma {:induction false} MaskKeepsAuthorityText(a: string)
    requires AuthorityText(a)
    ensures AuthorityText(MaskAuthority(a))
  {
    MarkIsInert();
  }

  lemma {:induction false} MaskedIsSeparable(secret: SecretKeys, u: Url)
    requires Separable(u)
    ensures Separable(Mask(secret, u))
  {
    MaskKeepsAuthorityText(u.authority);
    if u.query.Some? { ScrubKeepsHashFree(secret, u.query.value); }
  }

  lemma {:induction false} MaskTwice(secret: SecretKeys, u: Url)
    ensures Mask(secret, Mask(secret, u)) == Mask(secret, u)
  {
    MaskAuthorityTwice(u.authority);
    if u.query.Some? { ScrubTwice(secret, u.query.value); }
    if u.fragment.Some? { ScrubTwice(secret, u.fragment.value); }
  }

  // ---------------------------------------------------------------------------
  // What redaction guarantees
  // ---------------------------------------------------------------------------

  /** Redaction of a rendered URL is the rendering of its masked parts: the textual rules act
      on the parts they are meant for and on nothing else. */
  lemma {:induction false} RedactActsOnParts(secret: SecretKeys, u: Url)
    requires Separable(u)
    ensures Redact(secret, Render(u)) == Render(Mask(secret, u))
  {
    PartsInvertRender(u);
  }

  /** Redacting twice is redacting once, on every string. */
  lemma {:induction false} RedactIsIdempotent(secret: SecretKeys, url: string)
    ensures Redact(secret, Redact(secret, url)) == Redact(secret, url)
  {
    if Parts(url).Some? {
      var u := Parts(url).value;
      RenderInvertsParts(url);
      MaskedIsSeparable(secret, u);
      PartsInvertRender(Mask(secret, u));
      MaskTwice(secret, u);
    }
  }

  /** Replacing the user information by any other text leaves the output unchanged. */
  lemma {:induction false} UserInfoIsInvisible(secret: SecretKeys, u: Url, user1: string, user2: string, host: string)
    requires AuthorityText(user1) && AuthorityText(user2) && AuthorityText(host) && Free(host, '@')
    requires Separable(u)
    ensures Redact(secret, Render(u.(authority := user1 + "@" + host)))
         == Redact(secret, Render(u.(authority := user2 + "@" + host)))
  {
    MaskedUser(user1, host);
    MaskedUser(user2, host);
    RedactActsOnParts(secret, u.(authority := user1 + "@" + host));
    RedactActsOnParts(secret, u.(authority := user2 + "@" + host));
  }

  lemma {:induction false} MaskedUser(user: string, host: string)
    requires AuthorityText(user) && AuthorityText(host) && Free(host, '@')
    ensures AuthorityText(user + "@" + host)
    ensures MaskAuthority(user + "@" + host) == MARK + "@" + host
  {
    var a := user + "@" + host;
    LastAtUnique(a, |user|);
    assert a[|user| + 1..] == host;
  }

  lemma {:induction false} MaskedSecretPair(secret: SecretKeys, key: string, value: string)
    requires secret(key) && Free(key, '=')
    ensures MaskPair(secret, key + "=" + value) == key + "=" + MARK
  {
    var pair := key + "=" + value;
    FirstIndexUnique(pair, '=', |key|);
    assert pair[..|key|] == key;
  }

  lemma {:induction false} MaskPairsAround(secret: SecretKeys, before: seq<string>, pair: string, after: seq<string>)
    ensures MaskPairs(secret, before + [pair] + after)
         == MaskPairs(secret, before) + [MaskPair(secret, pair)] + MaskPairs(secret, after)
  {
    MaskPairsConcat(secret, before + [pair], after);
    MaskPairsConcat(secret, before, [pair]);
    assert MaskPairs(secret, [pair]) == [MaskPair(secret, pair)];
  }

  lemma {:induction false} MaskPairsConcat(secret: SecretKeys, a: seq<string>, b: seq<string>)
    ensures MaskPairs(secret, a + b) == MaskPairs(secret, a) + MaskPairs(secret, b)
  {
    var left, right := MaskPairs(secret, a + b), MaskPairs(secret, a) + MaskPairs(secret, b);
    forall i | 0 <= i < |a + b| ensures left[i] == right[i] { }
  }

  lemma {:induction false} PairsSplit(before: seq<string>, key: string, value: string, after: seq<string>)
    requires Free(key, '&') && Free(value, '&') && AllFree(before, '&') && AllFree(after, '&')
    ensures Split(PairsWith(before, key, value, after), '&') == before + [key + "=" + value] + after
  {
    assert Free(key + "=" + value, '&');
    SplitJoin(before + [key + "=" + value] + after, '&');
  }

  /** A parameter list with one credential pair among the others scrubs to a text in which the
      credential does not occur. */
  lemma {:induction false} SecretValueIsMasked(secret: SecretKeys, before: seq<string>, key: string, value: string, after: seq<string>)
    requires secret(key) && Free(key, '=') && Free(key, '&') && Free(value, '&')
    requires AllFree(before, '&') && AllFree(after, '&')
    ensures Scrub(secret, PairsWith(before, key, value, after))
         == Join(MaskPairs(secret, before) + [key + "=" + MARK] + MaskPairs(secret, after), '&')
  {
    PairsSplit(before, key, value, after);
    MaskPairsAround(secret, before, key + "=" + value, after);
    MaskedSecretPair(secret, key, value);
  }

  /** The redacted URL is determined by the masked parts. */
  lemma {:induction false} ScrubbedPartsDecide(secret: SecretKeys, u1: Url, u2: Url)
    requires Separable(u1) && Separable(u2)
    requires u1.scheme == u2.scheme && u1.path == u2.path
    requires MaskAuthority(u1.authority) == MaskAuthority(u2.authority)
    requires ScrubPart(secret, u1.query) == ScrubPart(secret, u2.query)
    requires ScrubPart(secret, u1.fragment) == ScrubPart(secret, u2.fragment)
    ensures Redact(secret, Render(u1)) == Redact(secret, Render(u2))
  {
    RedactActsOnParts(secret, u1);
    RedactActsOnParts(secret, u2);
  }

  /** A parameter list with one credential pair. */
  function PairsWith(before: seq<string>, key: string, value: string, after: seq<string>): string {
    Join(before + [key + "=" + value] + after, '&')
  }

  lemma {:induction false} PairsWithHashFree(before: seq<string>, key: string, value: string, after: seq<string>)
    requires AllFree(before, '#') && AllFree(after, '#') && Free(key, '#') && Free(value, '#')
    ensures Free(PairsWith(before, key, value, after), '#')
  {
    assert Free(key + "=" + value, '#');
    JoinFree(before + [key + "=" + value] + after, '&', '#');
  }

  /** Replacing the value of a credential-named pair of the query by any other text free of
      `&` and `#` leaves the redacted URL unchanged. */
  lemma {:induction false} QuerySecretIsInvisible(secret: SecretKeys, u: Url, before: seq<string>, key: string,
                               v1: string, v2: string, after: seq<string>)
    requires Separable(u) && secret(key) && Free(key, '=')
    requires Free(key, '&') && Free(v1, '&') && Free(v2, '&') && AllFree(before, '&') && AllFree(after, '&')
    requires Free(key, '#') && Free(v1, '#') && Free(v2, '#') && AllFree(before, '#') && AllFree(after, '#')
    ensures Redact(secret, Render(u.(query := Some(PairsWith(before, key, v1, after)))))
         == Redact(secret, Render(u.(query := Some(PairsWith(before, key, v2, after)))))
  {
    SecretValueIsMasked(secret, before, key, v1, after);
    SecretValueIsMasked(secret, before, key, v2, after);
    PairsWithHashFree(before, key, v1, after);
    PairsWithHashFree(before, key, v2, after);
    ScrubbedPartsDecide(secret, u.(query := Some(PairsWith(before, key, v1, after))),
                        u.(query := Some(PairsWith(before, key, v2, after))));
  }

  /** The same for a pair of the fragment, whose value may even contain `#`. */
  lemma {:induction false} FragmentSecretIsInvisible(secret: SecretKeys, u: Url, before: seq<string>, key: string,
                                  v1: string, v2: string, after: seq<string>)
    requires Separable(u) && secret(key) && Free(key, '=')
    requires Free(key, '&') && Free(v1, '&') && Free(v2, '&') && AllFree(before, '&') && AllFree(after, '&')
    ensures Redact(secret, Render(u.(fragment := Some(PairsWith(before, key, v1, after)))))
         == Redact(secret, Render(u.(fragment := Some(PairsWith(before, key, v2, after)))))
  {
    SecretValueIsMasked(secret, before, key, v1, after);
    SecretValueIsMasked(secret, before, key, v2, after);
    ScrubbedPartsDecide(secret, u.(fragment := Some(PairsWith(before, key, v1, after))),
                        u.(fragment := Some(PairsWith(before, key, v2, after))));
  }

  // ---------------------------------------------------------------------------
  // What redaction leaves alone
  // ---------------------------------------------------------------------------

  /** No user information, or the mark in its place. */
  ghost predicate CleanAuthority(a: string) {
    Free(a, '@') || exists host :: Free(host, '@') && a == "<redacted>@" + host
  }

  /** Not a credential, or the mark in its place. */
  ghost predicate CleanPair(secret: SecretKeys, pair: string) {
    forall key, value :: Free(key, '=') && pair == key + "=" + value && secret(key) ==> value == "<redacted>"
  }

  ghost predicate CleanPairs(secret: SecretKeys, pairs: seq<string>) {
    forall i :: 0 <= i < |pairs| ==> CleanPair(secret, pairs[i])
  }

  ghost predicate CleanPart(secret: SecretKeys, part: Option<string>) {
    part.Some? ==> CleanPairs(secret, Split(part.value, '&'))
  }

  ghost predicate CleanUrl(secret: SecretKeys, u: Url) {
    CleanAuthority(u.authority) && CleanPart(secret, u.query) && CleanPart(secret, u.fragment)
  }

  lemma {:induction false} AuthorityKeptIff(a: string)
    ensures MaskAuthority(a) == a <==> CleanAuthority(a)
  {
    var at := LastAt(a);
    if at.Some? {
      var host := a[at.value + 1..];
      assert Free(host, '@');
      if MaskAuthority(a) == a { assert a == "<redacted>@" + host; }
      if CleanAuthority(a) { CleanAuthorityIsKept(a); }
    } else {
      assert Free(a, '@');
    }
  }

  lemma {:induction false} CleanAuthorityIsKept(a: string)
    requires CleanAuthority(a) && LastAt(a).Some?
    ensures MaskAuthority(a) == a
  {
    assert a[LastAt(a).value] == '@';
    var host :| Free(host, '@') && a == "<redacted>@" + host;
    LastAtUnique(a, |MARK|);
    assert a[|MARK| + 1..] == host;
  }

  lemma {:induction false} PairKeptIff(secret: SecretKeys, pair: string)
    ensures MaskPair(secret, pair) == pair <==> CleanPair(secret, pair)
  {
    var eq := FirstIndex(pair, '=');
    if eq < |pair| {
      var k, v := pair[..eq], pair[eq + 1..];
      assert pair == k + "=" + v && Free(k, '=');
      KeyedPairKeptIff(secret, pair, k, v);
    } else {
      forall key, value ensures pair != key + "=" + value { NoKey(pair, key, value); }
    }
  }

  lemma {:induction false} KeyedPairKeptIff(secret: SecretKeys, pair: string, k: string, v: string)
    requires Free(k, '=') && pair == k + "=" + v
    ensures MaskPair(secret, pair) == pair <==> CleanPair(secret, pair)
  {
    KeyIsFirst(pair, k, v);
    SameValue(k, v, MARK);
    forall key, value | Free(key, '=') && pair == key + "=" + value ensures key == k && value == v {
      KeyIsFirst(pair, key, value);
    }
    assert CleanPair(secret, pair) <==> (secret(k) ==> v == "<redacted>");
  }

  lemma {:induction false} NoKey(pair: string, key: string, value: string)
    requires Free(pair, '=')
    ensures pair != key + "=" + value
  {
    assert (key + "=" + value)[|key|] == '=';
  }

  lemma {:induction false} SameValue(key: string, v: string, w: string)
    ensures key + "=" + v == key + "=" + w <==> v == w
  {
    assert (key + "=" + v)[|key| + 1..] == v && (key + "=" + w)[|key| + 1..] == w;
  }

  lemma {:induction false} KeyIsFirst(pair: string, key: string, value: string)
    requires Free(key, '=') && pair == key + "=" + value
    ensures FirstIndex(pair, '=') == |key| && pair[..|key|] == key && pair[|key| + 1..] == value
  {
    FirstIndexUnique(pair, '=', |key|);
  }

  lemma {:induction false} TextKeptIff(secret: SecretKeys, text: string)
    ensures Scrub(secret, text) == text <==> CleanPairs(secret, Split(text, '&'))
  {
    var ps := Split(text, '&');
    JoinSplit(text, '&');
    ScrubbedPairs(secret, text);
    forall i | 0 <= i < |ps| ensures MaskPair(secret, ps[i]) == ps[i] <==> CleanPair(secret, ps[i]) { PairKeptIff(secret, ps[i]); }
    if Scrub(secret, text) == text { assert MaskPairs(secret, ps) == ps; }
    if CleanPairs(secret, ps) { assert MaskPairs(secret, ps) == ps; }
  }

  lemma {:induction false} PartKeptIff(secret: SecretKeys, part: Option<string>)
    ensures ScrubPart(secret, part) == part <==> CleanPart(secret, part)
  {
    if part.Some? { TextKeptIff(secret, part.value); }
  }

  /** A text is returned as it is exactly when it has no scheme or carries no credential that is
      not the mark already: nothing else is ever changed. */
  lemma {:induction false} RedactKeepsIff(secret: SecretKeys, url: string)
    ensures Redact(secret, url) == url <==> Parts(url).None? || CleanUrl(secret, Parts(url).value)
  {
    if Parts(url).Some? {
      var u := Parts(url).value;
      RenderInvertsParts(url);
      MaskedIsSeparable(secret, u);
      PartsInvertRender(u);
      PartsInvertRender(Mask(secret, u));
      AuthorityKeptIff(u.authority);
      PartKeptIff(secret, u.query);
      PartKeptIff(secret, u.fragment);
    }
  }

  lemma {:induction false} CleanPairsStay(secret: SecretKeys, pairs: seq<string>)
    requires CleanPairs(secret, pairs)
    ensures MaskPairs(secret, pairs) == pairs
  {
    forall i | 0 <= i < |pairs| ensures MaskPair(secret, pairs[i]) == pairs[i] { PairKeptIff(secret, pairs[i]); }
  }

  /** The whole effect on a URL with user information and one credential among clean pairs: both
      give way to the mark, and every other character stays. */
  lemma {:induction false} RedactedForm(secret: SecretKeys, u: Url, user: string, host: string, before: seq<string>, key: string,
                                        value: string, after: seq<string>)
    requires Separable(u) && u.fragment.None? && secret(key) && Free(key, '=')
    requires AuthorityText(user) && AuthorityText(host) && Free(host, '@')
    requires Free(key, '&') && Free(value, '&') && AllFree(before, '&') && AllFree(after, '&')
    requires Free(key, '#') && Free(value, '#') && AllFree(before, '#') && AllFree(after, '#')
    requires CleanPairs(secret, before) && CleanPairs(secret, after)
    ensures Redact(secret, Render(u.(authority := user + "@" + host, query := Some(PairsWith(before, key, value, after)))))
         == Render(u.(authority := "<redacted>@" + host, query := Some(PairsWith(before, key, "<redacted>", after))))
  {
    var text := PairsWith(before, key, value, after);
    MaskedUser(user, host);
    CleanPairsStay(secret, before);
    CleanPairsStay(secret, after);
    SecretValueIsMasked(secret, before, key, value, after);
    PairsWithHashFree(before, key, value, after);
    RedactQuery(secret, u, user + "@" + host, "<redacted>@" + host, text, PairsWith(before, key, "<redacted>", after));
  }

  lemma {:induction false} RedactQuery(secret: SecretKeys, u: Url, authority: string, masked: string, text: string, scrubbed: string)
    requires Separable(u) && u.fragment.None? && AuthorityText(authority) && Free(text, '#')
    requires MaskAuthority(authority) == masked && Scrub(secret, text) == scrubbed
    ensures Redact(secret, Render(u.(authority := authority, query := Some(text))))
         == Render(u.(authority := masked, query := Some(scrubbed)))
  {
    RedactActsOnParts(secret, u.(authority := authority, query := Some(text)));
  }

  /** The names of credentials. */
  const CREDENTIAL_NAMES: seq<string> :=
    ["token", "access_token", "auth", "auth_token", "authorization", "apikey", "api_key", "api-key", "key", "secret",
     "password", "passwd", "pass", "sig", "signature", "x-amz-signature", "x-goog-signature", "x-ms-signature", "hmac"]

  /** A parameter is a credential exactly when it has one of those names, in any letter case. */
  lemma {:induction false} IsSecretKeyIff(key: string)
    ensures IsSecretKey(key) <==> exists i :: 0 <= i < |CREDENTIAL_NAMES| && SameLetters(key, CREDENTIAL_NAMES[i])
  {
    forall i | 0 <= i < |CREDENTIAL_NAMES| ensures SameLetters(key, CREDENTIAL_NAMES[i]) <==> Lower(key) == CREDENTIAL_NAMES[i] {
      SameLettersIff(key, CREDENTIAL_NAMES[i]);
      NamesAreLower(CREDENTIAL_NAMES[i], i);
    }
  }

  lemma {:induction false} NamesAreLower(name: string, i: nat)
    requires i < |CREDENTIAL_NAMES| && name == CREDENTIAL_NAMES[i]
    ensures Lower(name) == name
  {
    if i < 9 { FirstNamesAreLower(name, i); } else { LastNamesAreLower(name, i); }
    LowerKeeps(name);
  }

  lemma {:induction false} FirstNamesAreLower(name: string, i: nat)
    requires i < 9 && name == CREDENTIAL_NAMES[i]
    ensures !HasUpper(name)
  {
  }

  lemma {:induction false} LastNamesAreLower(name: string, i: nat)
    requires 9 <= i < 19 && name == CREDENTIAL_NAMES[i]
    ensures !HasUpper(name)
  {
  }

  /** The daemon's redaction, appending to an output string. */
  method RedactUrlCredentials(url: string) returns (out: string)
    ensures out == Redact(key => IsSecretKey(key), url)
  {
    var secret: SecretKeys := key => IsSecretKey(key);
    out := RedactWith(secret, url);
  }

  /** Everything after the scheme, part by part. */
  method AppendMasked(secret: SecretKeys, u: Url) returns (out: string)
    ensures out == Mask(secret, u).authority + RestOf(Mask(secret, u))
  {
    var query, fragment := "", "";
    if u.query.Some? { query := "?" + Scrub(secret, u.query.value); }
    if u.fragment.Some? { fragment := "#" + Scrub(secret, u.fragment.value); }
    assert query == Prefixed('?', ScrubPart(secret, u.query));
    assert fragment == Prefixed('#', ScrubPart(secret, u.fragment));
    out := MaskAuthority(u.authority) + (u.path + query + fragment);
  }

  lemma {:induction false} SchemeText(url: string, k: nat)
    requires SchemeEnd(url) == Some(k)
    ensures url[..k + 3] == url[..k] + "://"
  {
    assert url[k..k + 3] == "://";
  }

  method RedactWith(secret: SecretKeys, url: string) returns (out: string)
    ensures out == Redact(secret, url)
  {
    var scheme := SchemeEnd(url);
    if scheme.None? { return url; }
    var k := scheme.value;
    SchemeText(url, k);
    var u := PartsAfter(url[..k], url[k + 3..]);
    var rest := AppendMasked(secret, u);
    out := url[..k + 3] + rest;
  }
}
