/** Conditional-forwarding routes: validation, the longest-first sort, first-match dispatch. */
module Routing {
  import opened Names
  import opened Sorting
  import opened Spelling

  /** A configured route; `arm` stands for the resolvers that serve its zone. */
  datatype Route = Route(zone: string, arm: nat)

  // ---------------------------------------------------------------------------
  // Validation
  // ---------------------------------------------------------------------------

  /** A zone as it is compared: trimmed and lowercased. */
  function ZoneKey(zone: string): string { Lower(Trim(zone)) }

  type ZoneKeys = string -> string

  predicate AcceptableZone(key: ZoneKeys, zone: string) {
    key(zone) != [] && EndsWith(zone, ".") && key(zone) != "."
  }

  /** Every zone is named, dotted and not the root, and no two have the same key. */
  predicate ValidZones(key: ZoneKeys, zones: seq<string>) {
    && (forall i :: 0 <= i < |zones| ==> AcceptableZone(key, zones[i]))
    && (forall i, j :: 0 <= i < j < |zones| ==> key(zones[i]) != key(zones[j]))
  }

  method ValidateRouteZones(key: ZoneKeys, zones: seq<string>) returns (ok: bool)
    ensures ok <==> ValidZones(key, zones)
  {
    var seen: set<string> := {};
    for n := 0 to |zones|
      invariant ValidZones(key, zones[..n])
      invariant seen == set i | 0 <= i < n :: key(zones[i])
    {
      if !AcceptableZone(key, zones[n]) { return false; }
      if key(zones[n]) in seen { return false; }
      seen := seen + {key(zones[n])};
    }
    return true;
  }

  // ---------------------------------------------------------------------------
  // Longest zone first
  // ---------------------------------------------------------------------------

  predicate LongestFirst(rs: seq<Route>) {
    forall i, j :: 0 <= i < j < |rs| ==> |rs[i].zone| >= |rs[j].zone|
  }

  const SHORTER_LAST: Route -> int := (r: Route) => -|r.zone|

  /** The stable sort of the route table at construction. */
  function SortRoutes(rs: seq<Route>): (out: seq<Route>)
    ensures LongestFirst(out) && multiset(out) == multiset(rs)
  {
    var out := SortBy(SHORTER_LAST, rs);
    assert forall i, j :: 0 <= i < j < |out| ==> SHORTER_LAST(out[i]) <= SHORTER_LAST(out[j]);
    out
  }

  lemma {:induction false} SameMembers(a: seq<Route>, b: seq<Route>)
    requires multiset(a) == multiset(b)
    ensures forall r :: r in a <==> r in b
  {
    forall r ensures r in a <==> r in b {
      assert r in multiset(a) <==> r in multiset(b);
    }
  }

  // ---------------------------------------------------------------------------
  // Dispatch
  // ---------------------------------------------------------------------------

  /** The query name as it is matched: lowercased, with a final dot. */
  function QueryKey(name: string): string {
    var n := Lower(name);
    if EndsWith(n, ".") then n else n + "."
  }

  /** `iter().find`: the first route that matches. */
  function FirstMatch(rs: seq<Route>, matches: string -> bool): (out: Option<Route>)
    ensures out.None? <==> forall i :: 0 <= i < |rs| ==> !matches(rs[i].zone)
    ensures out.Some? ==> exists k :: && 0 <= k < |rs| && rs[k] == out.value && matches(rs[k].zone)
                                      && forall i :: 0 <= i < k ==> !matches(rs[i].zone)
  {
    if rs == [] then None
    else if matches(rs[0].zone) then Some(rs[0])
    else
      assert forall i :: 0 < i < |rs| ==> rs[i] == rs[1..][i - 1];
      FirstMatch(rs[1..], matches)
  }

  /** Does the route's zone contain the query? */
  function ZoneTest(name: string): string -> bool {
    var key := QueryKey(name);
    zone => EqualOrDotted(key, zone)
  }

  function MatchRoute(sorted: seq<Route>, name: string): Option<Route> {
    if sorted == [] then None else FirstMatch(sorted, ZoneTest(name))
  }

  predicate DistinctZones(rs: seq<Route>) {
    forall i, j :: 0 <= i < j < |rs| ==> rs[i].zone != rs[j].zone
  }

  /** A table built from validated zones has distinct keys. */
  lemma {:induction false} ValidatedTableIsDistinct(zones: seq<string>, rs: seq<Route>)
    requires |rs| == |zones| && forall i :: 0 <= i < |rs| ==> rs[i].zone == ZoneKey(zones[i])
    requires ValidZones(z => ZoneKey(z), zones)
    ensures DistinctZones(rs)
  {
    var key: ZoneKeys := z => ZoneKey(z);
    assert forall i :: 0 <= i < |rs| ==> rs[i].zone == key(zones[i]);
  }

  /** `best` is configured, matches, and every other matching route is strictly shorter. */
  ghost predicate IsLongestMatch(rs: seq<Route>, matches: string -> bool, best: Route) {
    && best in rs && matches(best.zone)
    && forall r :: r in rs && matches(r.zone) && r != best ==> |r.zone| < |best.zone|
  }

  /** Distinct zones that contain one name never have the same length. */
  ghost predicate LengthsSeparate(rs: seq<Route>, matches: string -> bool) {
    forall a, b :: a in rs && b in rs && matches(a.zone) && matches(b.zone) && |a.zone| == |b.zone| ==> a == b
  }

  lemma {:induction false} FirstMatchBeatsOthers(sorted: seq<Route>, matches: string -> bool, r: Route)
    requires LongestFirst(sorted) && r in sorted && matches(r.zone)
    ensures var out := FirstMatch(sorted, matches);
            out.Some? && (out.value == r || |r.zone| <= |out.value.zone|)
  {
    var i :| 0 <= i < |sorted| && sorted[i] == r;
    var out := FirstMatch(sorted, matches);
    var k :| && 0 <= k < |sorted| && sorted[k] == out.value && matches(sorted[k].zone)
             && forall i :: 0 <= i < k ==> !matches(sorted[i].zone);
    assert k <= i;
  }

  lemma {:induction false} FirstMatchIsLongest(rs: seq<Route>, sorted: seq<Route>, matches: string -> bool)
    requires LongestFirst(sorted) && multiset(sorted) == multiset(rs) && LengthsSeparate(rs, matches)
    ensures var out := FirstMatch(sorted, matches);
            && (out.None? <==> forall r :: r in rs ==> !matches(r.zone))
            && (out.Some? ==> IsLongestMatch(rs, matches, out.value))
  {
    SameMembers(rs, sorted);
    forall r | r in rs && matches(r.zone)
      ensures var out := FirstMatch(sorted, matches);
              out.Some? && (out.value == r || |r.zone| <= |out.value.zone|)
    {
      FirstMatchBeatsOthers(sorted, matches, r);
    }
  }

  lemma {:induction false} MatchingZonesSeparate(rs: seq<Route>, name: string)
    requires DistinctZones(rs)
    ensures LengthsSeparate(rs, ZoneTest(name))
  {
    var key := QueryKey(name);
    forall a, b | a in rs && b in rs && EqualOrDotted(key, a.zone) && EqualOrDotted(key, b.zone) && |a.zone| == |b.zone|
      ensures a == b
    {
      TextualTestIsLabelSuffix(key, a.zone);
      TextualTestIsLabelSuffix(key, b.zone);
      ZonesOfANameFormAChain(key, a.zone, b.zone);
      var i :| 0 <= i < |rs| && rs[i] == a;
      var j :| 0 <= j < |rs| && rs[j] == b;
    }
  }

  /** Dispatch returns the unique longest configured zone that contains the query name, and
      every other zone that contains it also contains the chosen zone; it returns nothing
      exactly when no configured zone contains the name. */
  lemma {:induction false} LongestZoneWins(rs: seq<Route>, name: string)
    requires DistinctZones(rs)
    ensures var out := MatchRoute(SortRoutes(rs), name);
            && (out.None? <==> forall r :: r in rs ==> !Within(QueryKey(name), r.zone))
            && (out.Some? ==> && out.value in rs && Within(QueryKey(name), out.value.zone)
                              && forall r :: r in rs && Within(QueryKey(name), r.zone) && r != out.value ==>
                                   |r.zone| < |out.value.zone| && Within(out.value.zone, r.zone))
  {
    var key, sorted := QueryKey(name), SortRoutes(rs);
    MatchingZonesSeparate(rs, name);
    FirstMatchIsLongest(rs, sorted, ZoneTest(name));
    forall r | r in rs ensures ZoneTest(name)(r.zone) <==> Within(key, r.zone) {
      TextualTestIsLabelSuffix(key, r.zone);
    }
    var out := MatchRoute(sorted, name);
    EmptySortsEmpty(rs);
    if out.Some? {
      forall r | r in rs && Within(key, r.zone) && r != out.value ensures Within(out.value.zone, r.zone) {
        ZonesOfANameFormAChain(key, r.zone, out.value.zone);
      }
    }
  }

  lemma {:induction false} EmptySortsEmpty(rs: seq<Route>)
    ensures SortRoutes(rs) == [] <==> rs == []
  {
    assert |multiset(SortRoutes(rs))| == |multiset(rs)|;
  }

  /** The declaration order of the routes never matters. */
  lemma {:induction false} DeclarationOrderIsIrrelevant(a: seq<Route>, b: seq<Route>, name: string)
    requires DistinctZones(a) && DistinctZones(b) && multiset(a) == multiset(b)
    ensures MatchRoute(SortRoutes(a), name) == MatchRoute(SortRoutes(b), name)
  {
    MatchingZonesSeparate(a, name);
    MatchingZonesSeparate(b, name);
    LongestMatchUnique(a, b, SortRoutes(a), SortRoutes(b), ZoneTest(name));
    EmptySortsEmpty(a);
    EmptySortsEmpty(b);
  }

  lemma {:induction false} LongestMatchUnique(a: seq<Route>, b: seq<Route>, sa: seq<Route>, sb: seq<Route>, matches: string -> bool)
    requires multiset(a) == multiset(b) && multiset(sa) == multiset(a) && multiset(sb) == multiset(b)
    requires LongestFirst(sa) && LongestFirst(sb) && LengthsSeparate(a, matches) && LengthsSeparate(b, matches)
    ensures FirstMatch(sa, matches) == FirstMatch(sb, matches)
  {
    FirstMatchIsLongest(a, sa, matches);
    FirstMatchIsLongest(b, sb, matches);
    SameMembers(a, b);
  }

  // ---------------------------------------------------------------------------
  // Dispatch by names as they are written
  // ---------------------------------------------------------------------------

  /** Some end of `name` that starts at a label is `zone`, up to the case of ASCII letters and a
      missing final dot. */
  ghost predicate InZone(name: string, zone: string) {
    exists k: nat :: k <= |name| && (k == 0 || name[k - 1] == '.') && SameDotted(name[k..], zone)
  }

  lemma {:induction false} QueryKeyIs(name: string)
    ensures QueryKey(name) == Lower(WithDot(name))
  {
    LowerWithDot(name);
    var n := Lower(name);
    if n != [] { assert n[|n| - 1..] == [n[|n| - 1]]; }
  }

  lemma {:induction false} WithDotTail(name: string, k: nat)
    requires k <= |name| && (Dotted(name) ==> k < |name|)
    ensures WithDot(name)[k..] == WithDot(name[k..])
  {
  }

  lemma {:induction false} LowerTail(s: string, k: nat)
    requires k <= |s|
    ensures Lower(s)[k..] == Lower(s[k..])
  {
  }

  lemma {:induction false} DottedIsWithDot(zone: string)
    requires Dotted(zone)
    ensures WithDot(zone) == zone
  {
  }

  /** Where the zone starts in a name that ends with it. */
  lemma {:induction false} TailInZone(name: string, zone: string, k: nat)
    requires Dotted(zone) && k <= |name| && (Dotted(name) ==> k < |name|)
    ensures Lower(WithDot(name))[k..] == Lower(zone) <==> SameDotted(name[k..], zone)
  {
    WithDotTail(name, k);
    LowerTail(WithDot(name), k);
    DottedIsWithDot(zone);
    SameDottedIff(name[k..], zone);
  }

  lemma {:induction false} EmptyIsNoZone(zone: string)
    requires Dotted(zone) && zone != "."
    ensures !SameDotted([], zone)
  {
    SameDottedIff([], zone);
    DottedIsWithDot(zone);
    assert |Lower(zone)| == |zone| && |Lower(WithDot([]))| == 1;
    assert |zone| == 1 ==> zone == ".";
  }

  lemma {:induction false} InZoneMatches(name: string, zone: string, k: nat)
    requires Dotted(zone) && k < |name| && (k == 0 || name[k - 1] == '.') && SameDotted(name[k..], zone)
    ensures EqualOrDotted(Lower(WithDot(name)), Lower(zone))
  {
    var q, z := Lower(WithDot(name)), Lower(zone);
    TailInZone(name, zone, k);
    if k == 0 {
      assert q[0..] == q;
    } else {
      assert q[k - 1] == '.';
      assert q[k - 1..] == "." + z;
    }
  }

  lemma {:induction false} MatchStart(q: string, z: string) returns (k: nat)
    requires EqualOrDotted(q, z)
    ensures k <= |q| && |q| - k == |z| && q[k..] == z && (k == 0 || q[k - 1] == '.')
  {
    k := |q| - |z|;
    if q != z {
      var t := q[|q| - |z| - 1..];
      assert t == "." + z && t[0] == q[k - 1] && t[1..] == q[k..];
    }
  }

  lemma {:induction false} MatchesInZone(name: string, zone: string)
    requires Dotted(zone) && zone != "." && EqualOrDotted(Lower(WithDot(name)), Lower(zone))
    ensures InZone(name, zone)
  {
    var q, z := Lower(WithDot(name)), Lower(zone);
    var k := MatchStart(q, z);
    assert |z| == |zone| >= 1;
    assert |zone| == 1 ==> zone == ".";
    assert k < |name|;
    TailInZone(name, zone, k);
    assert k > 0 ==> LowerChar(name[k - 1]) == '.';
  }

  /** The textual test decides whether a name lies in a zone, for every zone but the root. */
  lemma {:induction false} InZoneIff(name: string, zone: string)
    requires Dotted(zone) && zone != "."
    ensures InZone(name, zone) <==> EqualOrDotted(QueryKey(name), Lower(zone))
  {
    QueryKeyIs(name);
    if InZone(name, zone) {
      var k: nat :| k <= |name| && (k == 0 || name[k - 1] == '.') && SameDotted(name[k..], zone);
      EmptyIsNoZone(zone);
      assert name[k..] != [];
      InZoneMatches(name, zone, k);
    }
    if EqualOrDotted(QueryKey(name), Lower(zone)) { MatchesInZone(name, zone); }
  }

  /** The table of a configuration: for each zone, as it is written, its key and its arm. */
  predicate TableOf(zones: seq<string>, rs: seq<Route>) {
    |rs| == |zones| && forall i :: 0 <= i < |rs| ==> rs[i].zone == ZoneKey(zones[i])
  }

  const ZONE_KEY: ZoneKeys := z => ZoneKey(z)

  lemma {:induction false} AcceptedZone(zone: string, core: string, lead: string, trail: string)
    requires AcceptableZone(ZONE_KEY, zone) && IsCore(zone, core, lead, trail)
    ensures Dotted(core) && core != "." && ZoneKey(zone) == Lower(core) && |core| == |ZoneKey(zone)|
  {
    CoreIsTrim(zone, core, lead, trail);
    assert zone[|zone| - 1..][0] == '.';
    TrimKeepsEnd(zone);
  }

  /** `core` is the zone of a route as it is written, without the white space around it. */
  ghost predicate WrittenAs(zones: seq<string>, i: nat, core: string) {
    i < |zones| && exists lead, trail :: IsCore(zones[i], core, lead, trail)
  }

  lemma {:induction false} WrittenZoneMatches(zones: seq<string>, rs: seq<Route>, i: nat, core: string, name: string)
    requires ValidZones(ZONE_KEY, zones) && TableOf(zones, rs) && WrittenAs(zones, i, core)
    ensures |rs[i].zone| == |core| && (InZone(name, core) <==> Within(QueryKey(name), rs[i].zone))
  {
    var lead, trail :| IsCore(zones[i], core, lead, trail);
    AcceptedZone(zones[i], core, lead, trail);
    InZoneIff(name, core);
    TextualTestIsLabelSuffix(QueryKey(name), rs[i].zone);
  }

  /** Over the zones and the query name as they are written: dispatch returns nothing exactly if
      the name lies in no zone, and otherwise the route of the longest zone it lies in. */
  lemma {:induction false} DispatchAsWritten(zones: seq<string>, rs: seq<Route>, name: string, i: nat, core: string, j: nat, other: string)
    requires ValidZones(ZONE_KEY, zones) && TableOf(zones, rs) && WrittenAs(zones, i, core) && WrittenAs(zones, j, other)
    ensures var out := MatchRoute(SortRoutes(rs), name);
            && (InZone(name, core) ==> out.Some?)
            && (out == Some(rs[i]) ==> InZone(name, core) && (InZone(name, other) && j != i ==> |other| < |core|))
            && (out.Some? ==> out.value in rs)
  {
    ValidatedIsDistinct(zones, rs);
    LongestZoneWins(rs, name);
    WrittenZoneMatches(zones, rs, i, core, name);
    WrittenZoneMatches(zones, rs, j, other, name);
    assert rs[i] in rs && rs[j] in rs;
    assert j != i ==> rs[j] != rs[i];
  }

  lemma {:induction false} ValidatedIsDistinct(zones: seq<string>, rs: seq<Route>)
    requires ValidZones(ZONE_KEY, zones) && TableOf(zones, rs)
    ensures forall i, j :: 0 <= i < |rs| && 0 <= j < |rs| && i != j ==> rs[i].zone != rs[j].zone
  {
    forall i, j | 0 <= i < j < |rs| ensures rs[i].zone != rs[j].zone {
      assert ZONE_KEY(zones[i]) != ZONE_KEY(zones[j]);
    }
  }

  /** The case of ASCII letters and a missing final dot of the query name never change the
      chosen route. */
  lemma {:induction false} QuerySpellingIsIrrelevant(sorted: seq<Route>, a: string, b: string)
    requires SameDotted(a, b)
    ensures MatchRoute(sorted, a) == MatchRoute(sorted, b)
  {
    QueryKeyIs(a);
    QueryKeyIs(b);
    SameDottedIff(a, b);
  }
}
