/**
 Batched enrichment of model metadata. The source partitions the models, asks the channel table twice
 and passes once over the price list; the specification looks at one model at a time.
 */
module ModelEnrichment {
  import opened Outcomes
  import Decimal

  datatype NameRule = Exact | Prefix | Contains | Suffix | OtherRule

  datatype BoundChannel = BoundChannel(name: string, kind: int)

  /** The endpoints column: free text, or the JSON of a list. */
  datatype Endpoints = Text(text: string) | Listed(types: seq<string>)

  datatype Pricing = Pricing(name: string, endpoints: seq<string>, groups: seq<string>, quotaType: int)

  /** The caches and the channel table, each seen as a lookup by model name. */
  datatype Catalog = Catalog(pricings: seq<Pricing>, bound: string -> seq<BoundChannel>,
                             endpointsOf: string -> seq<string>, groupsOf: string -> seq<string>,
                             quotasOf: string -> seq<int>)

  datatype Info = Info(endpoints: Endpoints, channels: seq<BoundChannel>, groups: seq<string>, quotaTypes: seq<int>,
                       matched: seq<string>, matchedCount: int)

  class Model {
    const name: string
    const rule: NameRule
    var endpoints: Endpoints
    var channels: seq<BoundChannel>
    var groups: seq<string>
    var quotaTypes: seq<int>
    var matched: seq<string>
    var matchedCount: int

    constructor (name: string, rule: NameRule, endpoints: Endpoints)
      ensures this.name == name && this.rule == rule && Contents() == Info(endpoints, [], [], [], [], 0)
    {
      this.name, this.rule, this.endpoints := name, rule, endpoints;
      channels, groups, quotaTypes, matched, matchedCount := [], [], [], [], 0;
    }

    ghost function Contents(): Info
      reads this
    {
      Info(endpoints, channels, groups, quotaTypes, matched, matchedCount)
    }
  }

  // ---------- one model at a time ----------

  predicate HasSuffix(s: string, suffix: string) {
    |suffix| <= |s| && s[|s| - |suffix|..] == suffix
  }

  predicate HasSubstring(s: string, sub: string) {
    exists i :: 0 <= i <= |s| - |sub| && s[i..][..|sub|] == sub
  }

  predicate Matches(m: Model, p: Pricing) {
    match m.rule
    case Prefix => m.name <= p.name
    case Suffix => HasSuffix(p.name, m.name)
    case Contains => HasSubstring(p.name, m.name)
    case _ => false
  }

  function MatchedNames(m: Model, pricings: seq<Pricing>): seq<string> {
    if pricings == [] then [] else
      MatchedNames(m, pricings[..|pricings| - 1]) +
      if Matches(m, pricings[|pricings| - 1]) then [pricings[|pricings| - 1].name] else []
  }

  ghost function EndpointUnion(m: Model, pricings: seq<Pricing>): set<string> {
    set p, e | p in pricings && Matches(m, p) && e in p.endpoints :: e
  }

  ghost function GroupUnion(m: Model, pricings: seq<Pricing>): set<string> {
    set p, g | p in pricings && Matches(m, p) && g in p.groups :: g
  }

  ghost function QuotaSet(m: Model, pricings: seq<Pricing>): set<int> {
    set p | p in pricings && Matches(m, p) :: p.quotaType
  }

  ghost function ChannelUnion(names: seq<string>, bound: string -> seq<BoundChannel>): set<BoundChannel> {
    set n, ch | n in names && ch in bound(n) :: ch
  }

  /** `list` holds exactly the elements of `s`, each once. */
  ghost predicate Lists<T(!new)>(list: seq<T>, s: set<T>) {
    && (forall x :: x in list <==> x in s)
    && (forall i, j :: 0 <= i < j < |list| ==> list[i] != list[j])
  }

  predicate StrictlySorted(s: seq<int>) {
    forall i, j :: 0 <= i < j < |s| ==> s[i] < s[j]
  }

  ghost function EnrichedExact(m: Model, before: Info, c: Catalog): Info {
    before.(endpoints := if before.endpoints == Text("") then Listed(c.endpointsOf(m.name)) else before.endpoints,
            channels := c.bound(m.name), groups := c.groupsOf(m.name), quotaTypes := c.quotasOf(m.name))
  }

  /** A rule model with a match gets unions over its matches; one without keeps what it had. */
  ghost predicate IsEnrichedRule(m: Model, before: Info, after: Info, c: Catalog) {
    var names := MatchedNames(m, c.pricings);
    && after.matched == names && after.matchedCount == |names|
    && (if names == [] then
          after.endpoints == before.endpoints && after.groups == before.groups && after.quotaTypes == before.quotaTypes
        else
          && (if before.endpoints == Text("") then
                after.endpoints.Listed? && Lists(after.endpoints.types, EndpointUnion(m, c.pricings))
              else
                after.endpoints == before.endpoints)
          && Lists(after.groups, GroupUnion(m, c.pricings))
          && StrictlySorted(after.quotaTypes) && Lists(after.quotaTypes, QuotaSet(m, c.pricings)))
    && (if ChannelUnion(names, c.bound) == {} then after.channels == before.channels
        else Lists(after.channels, ChannelUnion(names, c.bound)))
  }

  ghost predicate IsEnriched(m: Model, before: Info, after: Info, c: Catalog) {
    if m.rule == Exact then after == EnrichedExact(m, before, c) else IsEnrichedRule(m, before, after, c)
  }

  // ---------- the same in terms of names alone ----------

  /** The rule of the model lets it stand for the name. */
  ghost predicate StandsFor(m: Model, name: string) {
    match m.rule
    case Prefix => exists b :: name == m.name + b
    case Suffix => exists a :: name == a + m.name
    case Contains => exists a, b :: name == a + m.name + b
    case _ => false
  }

  lemma MatchesStandsFor(m: Model, p: Pricing)
    ensures Matches(m, p) <==> StandsFor(m, p.name)
  {
    var n, k := p.name, |m.name|;
    match m.rule
    case Prefix =>
      if m.name <= n { assert n == m.name + n[k..]; }
    case Suffix =>
      if HasSuffix(n, m.name) { assert n == n[..|n| - k] + m.name; }
      if a :| n == a + m.name { assert |a| == |n| - k; }
    case Contains =>
      if i :| 0 <= i <= |n| - k && n[i..][..k] == m.name { assert n == n[..i] + m.name + n[i..][k..]; }
      if a, b :| n == a + m.name + b { assert n[|a|..][..k] == m.name; }
    case _ =>
  }

  /** Increasing positions of the price list, and exactly those whose name the model stands for. */
  ghost predicate Picks(positions: seq<nat>, m: Model, pricings: seq<Pricing>) {
    && (forall i, j :: 0 <= i < j < |positions| ==> positions[i] < positions[j])
    && (forall i :: 0 <= i < |positions| ==> positions[i] < |pricings|)
    && (forall k :: 0 <= k < |pricings| ==> (k in positions <==> StandsFor(m, pricings[k].name)))
  }

  /** The names are those of the entries the model stands for, one for each, in price-list order. */
  ghost predicate InPriceOrder(names: seq<string>, m: Model, pricings: seq<Pricing>) {
    exists positions :: Picks(positions, m, pricings) && NamesAt(names, positions, pricings)
  }

  ghost predicate NamesAt(names: seq<string>, positions: seq<nat>, pricings: seq<Pricing>) {
    && |names| == |positions|
    && forall i :: 0 <= i < |positions| ==> positions[i] < |pricings| && names[i] == pricings[positions[i]].name
  }

  lemma PicksOneMore(positions: seq<nat>, m: Model, pricings: seq<Pricing>, n: nat)
    requires n < |pricings| && Picks(positions, m, pricings[..n])
    ensures Picks(if StandsFor(m, pricings[n].name) then positions + [n] else positions, m, pricings[..n + 1])
  {
    hide StandsFor;
    var front, more := pricings[..n], pricings[..n + 1];
    assert forall k :: 0 <= k < n ==> more[k] == front[k] && more[k] == pricings[k];
    assert n !in positions && more[n] == pricings[n];
    forall k | 0 <= k < n ensures k in positions <==> StandsFor(m, more[k].name) {
      assert k in positions <==> StandsFor(m, front[k].name);
    }
  }

  lemma NamesOneMore(names: seq<string>, positions: seq<nat>, pricings: seq<Pricing>, n: nat)
    requires n < |pricings| && NamesAt(names, positions, pricings[..n])
    ensures NamesAt(names, positions, pricings[..n + 1])
    ensures NamesAt(names + [pricings[n].name], positions + [n], pricings[..n + 1])
  {
    assert forall k :: 0 <= k < n ==> pricings[..n + 1][k] == pricings[..n][k];
  }

  lemma MatchedNamesOneMore(m: Model, pricings: seq<Pricing>, n: nat)
    requires n < |pricings|
    ensures MatchedNames(m, pricings[..n + 1])
         == MatchedNames(m, pricings[..n]) + if StandsFor(m, pricings[n].name) then [pricings[n].name] else []
  {
    MatchesStandsFor(m, pricings[n]);
    hide StandsFor, Matches;
    assert pricings[..n + 1][..n] == pricings[..n];
  }

  ghost predicate Positions(positions: seq<nat>, m: Model, pricings: seq<Pricing>) {
    Picks(positions, m, pricings) && NamesAt(MatchedNames(m, pricings), positions, pricings)
  }

  lemma PositionsOneMore(front: seq<nat>, m: Model, pricings: seq<Pricing>, n: nat) returns (positions: seq<nat>)
    requires n < |pricings| && Positions(front, m, pricings[..n])
    ensures Positions(positions, m, pricings[..n + 1])
  {
    hide StandsFor, Picks, NamesAt, MatchedNames;
    PicksOneMore(front, m, pricings, n);
    NamesOneMore(MatchedNames(m, pricings[..n]), front, pricings, n);
    MatchedNamesOneMore(m, pricings, n);
    positions := if StandsFor(m, pricings[n].name) then front + [n] else front;
    assert MatchedNames(m, pricings[..n]) + [] == MatchedNames(m, pricings[..n]);
  }

  lemma {:induction false} MatchedPositions(m: Model, pricings: seq<Pricing>, n: nat) returns (positions: seq<nat>)
    requires n <= |pricings|
    ensures Positions(positions, m, pricings[..n])
  {
    if n == 0 {
      positions := [];
    } else {
      hide Positions;
      var front := MatchedPositions(m, pricings, n - 1);
      positions := PositionsOneMore(front, m, pricings, n - 1);
    }
  }

  /** Exactly what the entries with a name the model stands for have: endpoints, groups, quota types. */
  ghost predicate HasEndpoints(types: seq<string>, m: Model, pricings: seq<Pricing>) {
    forall e :: e in types <==> exists p :: p in pricings && StandsFor(m, p.name) && e in p.endpoints
  }

  ghost predicate HasGroups(groups: seq<string>, m: Model, pricings: seq<Pricing>) {
    forall g :: g in groups <==> exists p :: p in pricings && StandsFor(m, p.name) && g in p.groups
  }

  ghost predicate HasQuotaTypes(quotas: seq<int>, m: Model, pricings: seq<Pricing>) {
    forall q :: q in quotas <==> exists p :: p in pricings && StandsFor(m, p.name) && q == p.quotaType
  }

  /** What enrichment leaves in a rule model, said of the price list and the channel table only. */
  ghost predicate IsEnrichedByName(m: Model, before: Info, after: Info, c: Catalog) {
    && InPriceOrder(after.matched, m, c.pricings) && after.matchedCount == |after.matched|
    && (after.matched == [] ==>
          after.endpoints == before.endpoints && after.groups == before.groups && after.quotaTypes == before.quotaTypes)
    && (before.endpoints != Text("") ==> after.endpoints == before.endpoints)
    && (after.matched != [] && before.endpoints == Text("") ==>
          after.endpoints.Listed? && HasEndpoints(after.endpoints.types, m, c.pricings))
    && (after.matched != [] ==>
          && HasGroups(after.groups, m, c.pricings)
          && HasQuotaTypes(after.quotaTypes, m, c.pricings) && StrictlySorted(after.quotaTypes))
    && (if forall n :: n in after.matched ==> c.bound(n) == [] then after.channels == before.channels
        else forall ch :: ch in after.channels <==> exists n :: n in after.matched && ch in c.bound(n))
  }

  lemma UnionsGather(m: Model, pricings: seq<Pricing>, types: seq<string>, groups: seq<string>, quotas: seq<int>)
    ensures Lists(types, EndpointUnion(m, pricings)) ==> HasEndpoints(types, m, pricings)
    ensures Lists(groups, GroupUnion(m, pricings)) ==> HasGroups(groups, m, pricings)
    ensures Lists(quotas, QuotaSet(m, pricings)) ==> HasQuotaTypes(quotas, m, pricings)
  {
    forall p | p in pricings ensures Matches(m, p) <==> StandsFor(m, p.name) {
      MatchesStandsFor(m, p);
    }
    hide Matches, StandsFor;
    if Lists(types, EndpointUnion(m, pricings)) {
      assert forall x :: x in types <==> x in EndpointUnion(m, pricings);
    }
    if Lists(groups, GroupUnion(m, pricings)) {
      assert forall x :: x in groups <==> x in GroupUnion(m, pricings);
    }
    if Lists(quotas, QuotaSet(m, pricings)) {
      assert forall x :: x in quotas <==> x in QuotaSet(m, pricings);
    }
  }

  lemma ChannelsByName(names: seq<string>, bound: string -> seq<BoundChannel>)
    ensures (forall n :: n in names ==> bound(n) == []) <==> ChannelUnion(names, bound) == {}
    ensures forall ch :: ch in ChannelUnion(names, bound) <==> exists n :: n in names && ch in bound(n)
  {
    if n :| n in names && bound(n) != [] {
      var ch := bound(n)[0];
      assert ch in bound(n) && ch in ChannelUnion(names, bound);
    }
  }

  lemma MatchedInPriceOrder(m: Model, pricings: seq<Pricing>)
    ensures InPriceOrder(MatchedNames(m, pricings), m, pricings)
  {
    hide Picks, NamesAt, MatchedNames;
    assert pricings[..|pricings|] == pricings;
    var positions := MatchedPositions(m, pricings, |pricings|);
  }

  lemma EnrichedRuleByName(m: Model, before: Info, after: Info, c: Catalog)
    requires IsEnrichedRule(m, before, after, c)
    ensures IsEnrichedByName(m, before, after, c)
  {
    hide MatchedNames, StandsFor, InPriceOrder, HasEndpoints, HasGroups, HasQuotaTypes;
    hide EndpointUnion, GroupUnion, QuotaSet, ChannelUnion, StrictlySorted;
    MatchedInPriceOrder(m, c.pricings);
    var types := if after.endpoints.Listed? then after.endpoints.types else [];
    UnionsGather(m, c.pricings, types, after.groups, after.quotaTypes);
    ChannelsByName(after.matched, c.bound);
  }

  // ---------- library calls ----------

  /** Ranging over a Go map used as a set, in some order. */
  method Collect<T(==, !new)>(s: set<T>) returns (list: seq<T>)
    ensures Lists(list, s)
  {
    list := [];
    var todo := s;
    while todo != {}
      invariant todo <= s && Lists(list, s - todo)
    {
      var x :| x in todo;
      list := list + [x];
      todo := todo - {x};
    }
  }

  function Insert(x: int, s: seq<int>): (r: seq<int>)
    ensures forall y :: y in r <==> y == x || y in s
    ensures StrictlySorted(s) && x !in s ==> StrictlySorted(r)
  {
    if s == [] || x <= s[0] then [x] + s
    else
      assert forall y :: y in s <==> y == s[0] || y in s[1..];
      var r := Insert(x, s[1..]);
      assert forall i :: 0 <= i < |r| ==> r[i] in r;
      [s[0]] + r
  }

  /** sort.Ints: the same elements, strictly ascending when no element repeats. */
  function SortInts(s: seq<int>): (r: seq<int>)
    ensures forall y :: y in r <==> y in s
    ensures (forall i, j :: 0 <= i < j < |s| ==> s[i] != s[j]) ==> StrictlySorted(r)
  {
    if s == [] then []
    else
      assert forall y :: y in s <==> y == s[0] || y in s[1..];
      Insert(s[0], SortInts(s[1..]))
  }

  /** Reading a missing entry of a Go map gives nil, which ranges like the empty list. */
  function Lookup(found: map<string, seq<BoundChannel>>, name: string): seq<BoundChannel> {
    if name in found then found[name] else []
  }

  /** One batched query: entries for the asked names that have rows. */
  function BoundByModel(names: seq<string>, bound: string -> seq<BoundChannel>): (found: map<string, seq<BoundChannel>>)
    ensures forall n :: n in names ==> Lookup(found, n) == bound(n)
  {
    map n | n in names && bound(n) != [] :: bound(n)
  }

  // ---------- the partition ----------

  predicate ExactAt(models: seq<Model?>, i: nat, name: string) {
    i < |models| && models[i] != null && models[i].rule == Exact && models[i].name == name
  }

  predicate RuleAt(models: seq<Model?>, i: nat) {
    i < |models| && models[i] != null && models[i].rule != Exact
  }

  /** The positions of the exact models by name, and those of the rule models in order. */
  method Partition(models: seq<Model?>)
    returns (exactNames: seq<string>, exactIdx: map<string, seq<nat>>, ruleIndices: seq<nat>)
    ensures forall n :: n in exactNames <==> n in exactIdx
    ensures forall i: nat, n :: n in exactIdx && i in exactIdx[n] ==> ExactAt(models, i, n)
    ensures forall i: nat, n :: ExactAt(models, i, n) ==> n in exactIdx && i in exactIdx[n]
    ensures forall i: nat :: i in ruleIndices <==> RuleAt(models, i)
    ensures forall i, j :: 0 <= i < j < |ruleIndices| ==> ruleIndices[i] < ruleIndices[j]
  {
    exactNames, exactIdx, ruleIndices := [], map[], [];
    for k := 0 to |models|
      invariant forall n :: n in exactNames <==> n in exactIdx
      invariant forall i: nat, n :: n in exactIdx && i in exactIdx[n] ==> ExactAt(models, i, n)
      invariant forall i: nat, n :: i < k && ExactAt(models, i, n) ==> n in exactIdx && i in exactIdx[n]
      invariant forall i: nat :: i in ruleIndices <==> i < k && RuleAt(models, i)
      invariant forall i, j :: 0 <= i < j < |ruleIndices| ==> ruleIndices[i] < ruleIndices[j]
    {
      var m := models[k];
      if m == null { continue; }
      if m.rule == Exact {
        exactNames := exactNames + [m.name];
        exactIdx := exactIdx[m.name := (if m.name in exactIdx then exactIdx[m.name] else []) + [k]];
      } else {
        assert forall i :: 0 <= i < |ruleIndices| ==> ruleIndices[i] in ruleIndices;
        ruleIndices := ruleIndices + [k];
      }
    }
  }

  // ---------- one pass over the price list ----------

  /** What the four per-index maps of the source hold for one index; they share their keys. */
  datatype Gathered = Gathered(names: seq<string>, endpoints: set<string>, groups: set<string>, quotas: set<int>)

  const NOTHING := Gathered([], {}, {}, {})

  function Elements<T>(s: seq<T>): set<T> {
    set x | x in s
  }

  function With(g: Gathered, p: Pricing): Gathered {
    Gathered(g.names + [p.name], g.endpoints + Elements(p.endpoints), g.groups + Elements(p.groups),
             g.quotas + {p.quotaType})
  }

  ghost function GatheredFor(m: Model, pricings: seq<Pricing>): Gathered {
    Gathered(MatchedNames(m, pricings), EndpointUnion(m, pricings), GroupUnion(m, pricings), QuotaSet(m, pricings))
  }

  lemma GatherOne(m: Model, pricings: seq<Pricing>, p: Pricing)
    ensures var g := GatheredFor(m, pricings);
      GatheredFor(m, pricings + [p]) == if Matches(m, p) then With(g, p) else g
  {
    var more := pricings + [p];
    assert more[..|more| - 1] == pricings;
    assert forall q :: q in more <==> q in pricings || q == p;
    if Matches(m, p) {
      assert EndpointUnion(m, more) == EndpointUnion(m, pricings) + Elements(p.endpoints);
      assert GroupUnion(m, more) == GroupUnion(m, pricings) + Elements(p.groups);
      assert QuotaSet(m, more) == QuotaSet(m, pricings) + {p.quotaType};
    } else {
      assert EndpointUnion(m, more) == EndpointUnion(m, pricings);
      assert GroupUnion(m, more) == GroupUnion(m, pricings);
      assert QuotaSet(m, more) == QuotaSet(m, pricings);
    }
  }

  lemma {:induction false} NoMatchNoUnion(m: Model, pricings: seq<Pricing>)
    requires MatchedNames(m, pricings) == []
    ensures GatheredFor(m, pricings) == NOTHING
  {
    if pricings != [] {
      var front, last := pricings[..|pricings| - 1], pricings[|pricings| - 1];
      assert pricings == front + [last];
      NoMatchNoUnion(m, front);
      GatherOne(m, front, last);
    }
  }

  function At(gathered: map<nat, Gathered>, i: nat): Gathered {
    if i in gathered then gathered[i] else NOTHING
  }

  ghost predicate GatheredUpTo(gathered: map<nat, Gathered>, models: seq<Model?>, i: nat, pricings: seq<Pricing>)
    requires RuleAt(models, i)
  {
    && At(gathered, i) == GatheredFor(models[i], pricings)
    && (i in gathered <==> MatchedNames(models[i], pricings) != [])
  }

  /** One price list entry met by one rule model. */
  function Gather(gathered: map<nat, Gathered>, i: nat, m: Model, p: Pricing): map<nat, Gathered> {
    if Matches(m, p) then gathered[i := With(At(gathered, i), p)] else gathered
  }

  lemma GatherKeeps(gathered: map<nat, Gathered>, models: seq<Model?>, i: nat, p: Pricing, pricings: seq<Pricing>)
    requires RuleAt(models, i) && GatheredUpTo(gathered, models, i, pricings)
    ensures GatheredUpTo(Gather(gathered, i, models[i], p), models, i, pricings + [p])
  {
    GatherOne(models[i], pricings, p);
    assert (pricings + [p])[..|pricings|] == pricings;
  }

  lemma GatherFrame(gathered: map<nat, Gathered>, models: seq<Model?>, i: nat, p: Pricing, pricings: seq<Pricing>,
                    other: nat)
    requires RuleAt(models, i) && RuleAt(models, other) && i != other
    ensures GatheredUpTo(Gather(gathered, i, models[i], p), models, other, pricings)
         == GatheredUpTo(gathered, models, other, pricings)
  {
  }

  method GatherMatches(models: seq<Model?>, ruleIndices: seq<nat>, pricings: seq<Pricing>)
    returns (gathered: map<nat, Gathered>)
    requires forall i :: 0 <= i < |ruleIndices| ==> RuleAt(models, ruleIndices[i])
    requires forall i, j :: 0 <= i < j < |ruleIndices| ==> ruleIndices[i] < ruleIndices[j]
    ensures gathered.Keys <= Elements(ruleIndices)
    ensures forall i :: 0 <= i < |ruleIndices| ==> GatheredUpTo(gathered, models, ruleIndices[i], pricings)
  {
    gathered := map[];
    for k := 0 to |pricings|
      invariant gathered.Keys <= Elements(ruleIndices)
      invariant forall i :: 0 <= i < |ruleIndices| ==> GatheredUpTo(gathered, models, ruleIndices[i], pricings[..k])
    {
      assert pricings[..k + 1] == pricings[..k] + [pricings[k]];
      gathered := GatherOnce(models, ruleIndices, pricings[k], gathered, pricings[..k]);
    }
    assert pricings[..|pricings|] == pricings;
  }

  /** The inner loop: one price list entry offered to every rule model. */
  method GatherOnce(models: seq<Model?>, ruleIndices: seq<nat>, p: Pricing, g: map<nat, Gathered>,
                    ghost front: seq<Pricing>)
    returns (gathered: map<nat, Gathered>)
    requires forall i :: 0 <= i < |ruleIndices| ==> RuleAt(models, ruleIndices[i])
    requires forall i, j :: 0 <= i < j < |ruleIndices| ==> ruleIndices[i] < ruleIndices[j]
    requires g.Keys <= Elements(ruleIndices)
    requires forall i :: 0 <= i < |ruleIndices| ==> GatheredUpTo(g, models, ruleIndices[i], front)
    ensures gathered.Keys <= Elements(ruleIndices)
    ensures forall i :: 0 <= i < |ruleIndices| ==> GatheredUpTo(gathered, models, ruleIndices[i], front + [p])
  {
    hide GatheredUpTo, Matches, With, At, GatheredFor;
    gathered := g;
    for j := 0 to |ruleIndices|
      invariant gathered.Keys <= Elements(ruleIndices)
      invariant forall i :: 0 <= i < j ==> GatheredUpTo(gathered, models, ruleIndices[i], front + [p])
      invariant forall i :: j <= i < |ruleIndices| ==> GatheredUpTo(gathered, models, ruleIndices[i], front)
    {
      var idx := ruleIndices[j];
      ghost var was := gathered;
      if Matches(models[idx], p) {
        gathered := gathered[idx := With(At(gathered, idx), p)];
      }
      assert gathered == Gather(was, idx, models[idx], p);
      GatherKeeps(was, models, idx, p, front);
      forall i | 0 <= i < j ensures GatheredUpTo(gathered, models, ruleIndices[i], front + [p]) {
        GatherFrame(was, models, idx, p, front + [p], ruleIndices[i]);
      }
      forall i | j < i < |ruleIndices| ensures GatheredUpTo(gathered, models, ruleIndices[i], front) {
        GatherFrame(was, models, idx, p, front, ruleIndices[i]);
      }
    }
  }

  // ---------- the union of channels ----------

  function Key(ch: BoundChannel): string {
    ch.name + "_" + Decimal.Print(ch.kind)
  }

  /** Names may contain underscores, but a printed number does not, so the last one splits the key. */
  lemma KeyIsInjective(a: BoundChannel, b: BoundChannel)
    requires Key(a) == Key(b)
    ensures a == b
  {
    var x, y := Decimal.Print(a.kind), Decimal.Print(b.kind);
    Decimal.PrintHasNoUnderscore(a.kind);
    Decimal.PrintHasNoUnderscore(b.kind);
    var key := Key(a);
    assert key[|key| - |x| - 1] == '_' == key[|key| - |y| - 1];
    assert forall i :: 0 <= i < |x| ==> key[|key| - |x| + i] == x[i];
    assert forall i :: 0 <= i < |y| ==> key[|key| - |y| + i] == y[i];
    assert |x| == |y|;
    assert x == key[|key| - |x|..] == y;
    assert key[..|a.name|] == a.name && key[..|b.name|] == b.name;
    Decimal.PrintIsInjective(a.kind, b.kind);
  }

  /** The map's values, keyed by themselves, are exactly `seen`. */
  ghost predicate Keyed(channelSet: map<string, BoundChannel>, seen: set<BoundChannel>) {
    && (forall k :: k in channelSet ==> Key(channelSet[k]) == k && channelSet[k] in seen)
    && (forall ch :: ch in seen ==> Key(ch) in channelSet)
  }

  lemma KeyedAdd(channelSet: map<string, BoundChannel>, seen: set<BoundChannel>, ch: BoundChannel)
    requires Keyed(channelSet, seen)
    ensures Keyed(channelSet[Key(ch) := ch], seen + {ch})
  {
  }

  lemma ChannelUnionStep(names: seq<string>, i: nat, bound: string -> seq<BoundChannel>)
    requires i < |names|
    ensures ChannelUnion(names[..i + 1], bound) == ChannelUnion(names[..i], bound) + Elements(bound(names[i]))
  {
    assert names[..i + 1] == names[..i] + [names[i]];
    assert forall n :: n in names[..i + 1] <==> n in names[..i] || n == names[i];
  }

  /** The distinct channels of all the names: the key tells apart exactly what the name and type do. */
  method UnionOfChannels(names: seq<string>, found: map<string, seq<BoundChannel>>,
                         ghost bound: string -> seq<BoundChannel>)
    returns (channelSet: map<string, BoundChannel>)
    requires forall n :: n in names ==> Lookup(found, n) == bound(n)
    ensures Keyed(channelSet, ChannelUnion(names, bound))
  {
    hide Key;
    channelSet := map[];
    for i := 0 to |names|
      invariant Keyed(channelSet, ChannelUnion(names[..i], bound))
    {
      var chs := Lookup(found, names[i]);
      ghost var seen := ChannelUnion(names[..i], bound);
      for j := 0 to |chs|
        invariant Keyed(channelSet, seen + Elements(chs[..j]))
      {
        KeyedAdd(channelSet, seen + Elements(chs[..j]), chs[j]);
        assert chs[..j + 1] == chs[..j] + [chs[j]];
        assert seen + Elements(chs[..j]) + {chs[j]} == seen + Elements(chs[..j + 1]);
        channelSet := channelSet[Key(chs[j]) := chs[j]];
      }
      assert chs[..|chs|] == chs;
      ChannelUnionStep(names, i, bound);
    }
    assert names[..|names|] == names;
  }

  method ListChannels(channelSet: map<string, BoundChannel>, ghost all: set<BoundChannel>)
    returns (list: seq<BoundChannel>)
    requires Keyed(channelSet, all)
    ensures Lists(list, all)
  {
    hide Key;
    var keys := Collect(channelSet.Keys);
    list := [];
    for i := 0 to |keys|
      invariant |list| == i && forall j :: 0 <= j < i ==> Key(list[j]) == keys[j] && list[j] in all
    {
      assert keys[i] in keys;
      list := list + [channelSet[keys[i]]];
    }
    forall ch | ch in all ensures ch in list {
      assert Key(ch) in keys;
      var j :| 0 <= j < |keys| && keys[j] == Key(ch);
      KeyIsInjective(list[j], ch);
    }
  }

  // ---------- filling in the models ----------

  ghost function Objects(models: seq<Model?>): set<Model?> {
    set m | m in models && m != null
  }

  /** Filling in one exact model; a second time changes nothing. */
  method FillExact(mm: Model, chs: seq<BoundChannel>, c: Catalog)
    requires chs == c.bound(mm.name)
    modifies mm
    ensures mm.Contents() == EnrichedExact(mm, old(mm.Contents()), c)
  {
    if mm.endpoints == Text("") {
      mm.endpoints := Listed(c.endpointsOf(mm.name));
    }
    mm.channels := chs;
    mm.groups := c.groupsOf(mm.name);
    mm.quotaTypes := c.quotasOf(mm.name);
  }

  lemma ExactTwice(m: Model, before: Info, c: Catalog)
    ensures EnrichedExact(m, EnrichedExact(m, before, c), c) == EnrichedExact(m, before, c)
  {
  }

  method EnrichExact(models: seq<Model?>, exactIdx: map<string, seq<nat>>, found: map<string, seq<BoundChannel>>,
                     c: Catalog)
    requires forall n :: n in exactIdx ==> Lookup(found, n) == c.bound(n)
    requires forall i: nat, n :: n in exactIdx && i in exactIdx[n] ==> ExactAt(models, i, n)
    requires forall i: nat, n :: ExactAt(models, i, n) ==> n in exactIdx && i in exactIdx[n]
    modifies Objects(models)
    ensures forall m :: m in models && m != null ==>
      m.Contents() == if m.rule == Exact then EnrichedExact(m, old(m.Contents()), c) else old(m.Contents())
  {
    hide EnrichedExact, Model.Contents;
    forall m | m in models && m != null && m.rule == Exact ensures m.name in exactIdx {
      var i: nat :| i < |models| && models[i] == m;
      assert ExactAt(models, i, m.name);
    }
    var todo := exactIdx.Keys;
    while todo != {}
      invariant todo <= exactIdx.Keys
      invariant forall m :: m in models && m != null ==>
        m.Contents() ==
          if m.rule == Exact && m.name !in todo then EnrichedExact(m, old(m.Contents()), c) else old(m.Contents())
    {
      var name :| name in todo;
      var chs := Lookup(found, name);
      var indices := exactIdx[name];
      for j := 0 to |indices|
        invariant forall m :: m in models && m != null && !(m.rule == Exact && m.name == name) ==>
          m.Contents() ==
            if m.rule == Exact && m.name !in todo then EnrichedExact(m, old(m.Contents()), c) else old(m.Contents())
        invariant forall m :: m in models && m != null && m.rule == Exact && m.name == name ==>
          m.Contents() == old(m.Contents()) || m.Contents() == EnrichedExact(m, old(m.Contents()), c)
        invariant forall i :: 0 <= i < j ==> ExactAt(models, indices[i], name)
        invariant forall i, m :: 0 <= i < j && m == models[indices[i]] ==>
          m.Contents() == EnrichedExact(m, old(m.Contents()), c)
      {
        assert indices[j] in exactIdx[name];
        ExactTwice(models[indices[j]], old(models[indices[j]].Contents()), c);
        FillExact(models[indices[j]], chs, c);
      }
      forall m | m in models && m != null && m.rule == Exact && m.name == name
        ensures m.Contents() == EnrichedExact(m, old(m.Contents()), c)
      {
        var i: nat :| i < |models| && models[i] == m;
        assert ExactAt(models, i, name);
        assert i in indices;
      }
      todo := todo - {name};
    }
  }

  /** The channel part: the channels of the model are replaced only if there are any bound ones. */
  method BackFillChannels(mm: Model, names: seq<string>, found: map<string, seq<BoundChannel>>,
                          ghost bound: string -> seq<BoundChannel>)
    requires forall n :: n in names ==> Lookup(found, n) == bound(n)
    modifies mm`channels
    ensures if ChannelUnion(names, bound) == {} then mm.channels == old(mm.channels)
            else Lists(mm.channels, ChannelUnion(names, bound))
  {
    var channelSet := UnionOfChannels(names, found, bound);
    if |channelSet| > 0 {
      var k :| k in channelSet;
      var chs := ListChannels(channelSet, ChannelUnion(names, bound));
      mm.channels := chs;
    }
  }

  /** The back-filling of one rule model. */
  method BackFill(mm: Model, gathered: Option<Gathered>, found: map<string, seq<BoundChannel>>, ghost c: Catalog)
    requires mm.rule != Exact
    requires (if gathered.Some? then gathered.value else NOTHING) == GatheredFor(mm, c.pricings)
    requires gathered.Some? <==> MatchedNames(mm, c.pricings) != []
    requires forall n :: n in MatchedNames(mm, c.pricings) ==> Lookup(found, n) == c.bound(n)
    modifies mm
    ensures IsEnrichedRule(mm, old(mm.Contents()), mm.Contents(), c)
  {
    hide ChannelUnion, MatchedNames, EndpointUnion, GroupUnion, QuotaSet;
    if gathered.Some? && mm.endpoints == Text("") {
      var types := Collect(gathered.value.endpoints);
      mm.endpoints := Listed(types);
    }
    if gathered.Some? {
      var groups := Collect(gathered.value.groups);
      mm.groups := groups;
    }
    if gathered.Some? {
      var quotas := Collect(gathered.value.quotas);
      mm.quotaTypes := SortInts(quotas);
    }
    var names := if gathered.Some? then gathered.value.names else [];
    BackFillChannels(mm, names, found, c.bound);
    mm.matched := names;
    mm.matchedCount := |names|;
  }

  /** Filling in a model twice, when the list holds it twice, is like filling it in once. */
  lemma EnrichedTwice(m: Model, before: Info, between: Info, after: Info, c: Catalog)
    requires IsEnrichedRule(m, before, between, c) && IsEnrichedRule(m, between, after, c)
    ensures IsEnrichedRule(m, before, after, c)
  {
  }

  method BackFillAll(models: seq<Model?>, ruleIndices: seq<nat>, gathered: map<nat, Gathered>,
                     found: map<string, seq<BoundChannel>>, ghost c: Catalog)
    requires forall i :: 0 <= i < |ruleIndices| ==> RuleAt(models, ruleIndices[i])
    requires forall i :: 0 <= i < |ruleIndices| ==> GatheredUpTo(gathered, models, ruleIndices[i], c.pricings)
    requires forall idx, n :: idx in gathered && n in gathered[idx].names ==> Lookup(found, n) == c.bound(n)
    modifies Objects(models)
    ensures forall m :: m in models && m != null && m.rule == Exact ==> m.Contents() == old(m.Contents())
    ensures forall i, m :: 0 <= i < |ruleIndices| && RuleAt(models, ruleIndices[i]) && m == models[ruleIndices[i]] ==>
      IsEnrichedRule(m, old(m.Contents()), m.Contents(), c)
  {
    hide IsEnrichedRule, Model.Contents, MatchedNames;
    for k := 0 to |ruleIndices|
      invariant forall m :: m in models && m != null && m.rule == Exact ==> m.Contents() == old(m.Contents())
      invariant forall m :: m in models && m != null && m.rule != Exact ==>
        m.Contents() == old(m.Contents()) || IsEnrichedRule(m, old(m.Contents()), m.Contents(), c)
      invariant forall i, m :: 0 <= i < k && m == models[ruleIndices[i]] ==>
        IsEnrichedRule(m, old(m.Contents()), m.Contents(), c)
    {
      var idx := ruleIndices[k];
      var mm := models[idx];
      ghost var was := mm.Contents();
      BackFill(mm, if idx in gathered then Some(gathered[idx]) else None, found, c);
      if was != old(mm.Contents()) {
        EnrichedTwice(mm, old(mm.Contents()), was, mm.Contents(), c);
      }
    }
  }

  /** Batched enrichment gives every model what looking at that model alone gives it. */
  method EnrichModels(models: seq<Model?>, c: Catalog)
    modifies Objects(models)
    ensures forall m :: m in models && m != null && m.rule != Exact ==>
      IsEnrichedByName(m, old(m.Contents()), m.Contents(), c)
    ensures forall m :: m in models && m != null && m.rule == Exact ==>
      && m.groups == c.groupsOf(m.name) && m.quotaTypes == c.quotasOf(m.name) && m.channels == c.bound(m.name)
      && m.endpoints == (if old(m.endpoints) == Text("") then Listed(c.endpointsOf(m.name)) else old(m.endpoints))
      && m.matched == old(m.matched) && m.matchedCount == old(m.matchedCount)
    ensures forall m :: m in models && m != null ==> IsEnriched(m, old(m.Contents()), m.Contents(), c)
  {
    EnrichAll(models, c);
    forall m | m in models && m != null && m.rule != Exact
      ensures IsEnrichedByName(m, old(m.Contents()), m.Contents(), c)
    {
      EnrichedRuleByName(m, old(m.Contents()), m.Contents(), c);
    }
    hide IsEnrichedByName, IsEnrichedRule;
  }

  method EnrichAll(models: seq<Model?>, c: Catalog)
    modifies Objects(models)
    ensures forall m :: m in models && m != null ==> IsEnriched(m, old(m.Contents()), m.Contents(), c)
  {
    hide EnrichedExact, IsEnrichedRule, Model.Contents, MatchedNames, GatheredFor;
    if |models| == 0 { return; }
    var exactNames, exactIdx, ruleIndices := Partition(models);
    EnrichExact(models, exactIdx, BoundByModel(exactNames, c.bound), c);
    assert forall i :: 0 <= i < |ruleIndices| ==> ruleIndices[i] in ruleIndices && RuleAt(models, ruleIndices[i]);
    forall m | m in models && m != null && m.rule != Exact
      ensures exists i :: 0 <= i < |ruleIndices| && models[ruleIndices[i]] == m
    {
      var i: nat :| i < |models| && models[i] == m;
      assert RuleAt(models, i);
      assert i in ruleIndices;
    }
    if |ruleIndices| == 0 { return; }
    var gathered := GatherMatches(models, ruleIndices, c.pricings);
    var allMatchedSet := set idx, n | idx in gathered && n in gathered[idx].names :: n;
    var allMatched := Collect(allMatchedSet);
    var found := BoundByModel(allMatched, c.bound);
    assert forall idx, n :: idx in gathered && n in gathered[idx].names ==>
      n in allMatched && Lookup(found, n) == c.bound(n);
    BackFillAll(models, ruleIndices, gathered, found, c);
  }
}
