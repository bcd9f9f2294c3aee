/**
 The ratio comparison behind "sync upstream ratios": `buildDifferences` fills a table
 model -> ratio type -> item and then prunes it in place. The specification below never
 mentions a pass: it says which pairs are listed and what each item holds.
 */
module RatioSync {
  import opened Outcomes

  /** A decoded JSON value. `Other` stands for booleans, arrays and objects. */
  datatype Value = Nil | Num(num: real) | Text(text: string) | Other(id: nat)

  const SAME := Text("same")
  const EPSILON: real := 0.000000001

  datatype RatioType = ModelRatio | CompletionRatio | CacheRatio | ModelPrice

  const RATIO_TYPES: seq<RatioType> := [ModelRatio, CompletionRatio, CacheRatio, ModelPrice]

  lemma EveryRatioType(rt: RatioType)
    ensures exists k :: 0 <= k < |RATIO_TYPES| && RATIO_TYPES[k] == rt
  {
    match rt
    case ModelRatio => assert RATIO_TYPES[0] == rt;
    case CompletionRatio => assert RATIO_TYPES[1] == rt;
    case CacheRatio => assert RATIO_TYPES[2] == rt;
    case ModelPrice => assert RATIO_TYPES[3] == rt;
  }

  // A ratio type whose table is absent or not a JSON object is missing from these maps.
  type LocalData = map<RatioType, map<string, real>>
  type UpstreamData = map<RatioType, map<string, Value>>

  datatype Channel = Channel(name: string, data: UpstreamData)
  datatype Item = Item(current: Value, upstreams: map<string, Value>, confidence: map<string, bool>)
  type Row = map<RatioType, Item>
  type Table = map<string, Row>

  predicate NearlyEqual(a: real, b: real) {
    if a > b then a - b < EPSILON else b - a < EPSILON
  }

  predicate ValuesEqual(a: Value, b: Value) {
    if a.Num? && b.Num? then NearlyEqual(a.num, b.num) else a == b
  }

  // ---------- what the table must contain ----------

  function LocalValue(local: LocalData, rt: RatioType, m: string): Value {
    if rt in local && m in local[rt] then Num(local[rt][m]) else Nil
  }

  function Reported(c: Channel, rt: RatioType, m: string): Option<Value> {
    if rt in c.data && m in c.data[rt] then Some(c.data[rt][m]) else None
  }

  /** What one channel contributes to one pair: its own value, "same", or nil (no value). */
  function Cell(current: Value, reported: Option<Value>): Value {
    match reported
    case Some(v) => if ValuesEqual(current, v) then SAME else v
    case None => if current == Nil then SAME else Nil
  }

  predicate RealDifference(v: Value) {
    v != Nil && v != SAME
  }

  /** One channel is enough to list the pair before pruning. */
  predicate Disagrees(current: Value, reported: Option<Value>) {
    reported.Some? && (current == Nil || !ValuesEqual(current, reported.value))
  }

  predicate Candidate(local: LocalData, chs: seq<Channel>, rt: RatioType, m: string) {
    exists i :: 0 <= i < |chs| && Disagrees(LocalValue(local, rt, m), Reported(chs[i], rt, m))
  }

  function Names(chs: seq<Channel>): set<string> {
    set i | 0 <= i < |chs| :: chs[i].name
  }

  /** Channel name -> cell; of two channels with one name the later one wins. */
  function Cells(local: LocalData, chs: seq<Channel>, rt: RatioType, m: string): (cells: map<string, Value>)
    ensures cells.Keys == Names(chs)
  {
    if chs == [] then map[] else
      var c := chs[|chs| - 1];
      Cells(local, chs[..|chs| - 1], rt, m)[c.name := Cell(LocalValue(local, rt, m), Reported(c, rt, m))]
  }

  /** A pricing page that reports 37.5 with a completion ratio of 1 is reporting its defaults. */
  predicate Trusted(c: Channel, m: string) {
    !(Reported(c, ModelRatio, m) == Some(Num(37.5)) && Reported(c, CompletionRatio, m) == Some(Num(1.0)))
  }

  function Trust(chs: seq<Channel>, m: string): (trust: map<string, bool>)
    ensures trust.Keys == Names(chs)
  {
    if chs == [] then map[] else
      var c := chs[|chs| - 1];
      Trust(chs[..|chs| - 1], m)[c.name := Trusted(c, m)]
  }

  ghost predicate DiffersAt(local: LocalData, chs: seq<Channel>, name: string, rt: RatioType, m: string) {
    && Candidate(local, chs, rt, m)
    && name in Cells(local, chs, rt, m)
    && RealDifference(Cells(local, chs, rt, m)[name])
  }

  ghost predicate DiffersSomewhere(local: LocalData, chs: seq<Channel>, name: string) {
    exists rt, m :: DiffersAt(local, chs, name, rt, m)
  }

  /** The pair survives pruning: a channel that differs somewhere does not say "same" here. */
  ghost predicate Listed(local: LocalData, chs: seq<Channel>, rt: RatioType, m: string) {
    && Candidate(local, chs, rt, m)
    && exists name ::
      && name in Cells(local, chs, rt, m)
      && DiffersSomewhere(local, chs, name)
      && Cells(local, chs, rt, m)[name] != SAME
  }

  /** The item of a surviving pair: only the channels that differ somewhere, with their cells. */
  ghost function ListedItem(local: LocalData, chs: seq<Channel>, rt: RatioType, m: string): Item {
    var cells, trust := Cells(local, chs, rt, m), Trust(chs, m);
    Item(LocalValue(local, rt, m),
         map name | name in cells && DiffersSomewhere(local, chs, name) :: cells[name],
         map name | name in trust && DiffersSomewhere(local, chs, name) :: trust[name])
  }

  ghost predicate IsDifferences(d: Table, local: LocalData, chs: seq<Channel>) {
    && (forall m :: m in d <==> exists rt :: Listed(local, chs, rt, m))
    && (forall m, rt :: m in d ==> (rt in d[m] <==> Listed(local, chs, rt, m)))
    && (forall m, rt :: m in d && rt in d[m] ==> d[m][rt] == ListedItem(local, chs, rt, m))
  }

  // ---------- the passes ----------

  predicate Mentions(c: Channel, m: string) {
    exists rt :: Reported(c, rt, m).Some?
  }

  ghost predicate KnownModel(local: LocalData, chs: seq<Channel>, m: string) {
    || (exists rt :: LocalValue(local, rt, m) != Nil)
    || (exists i :: 0 <= i < |chs| && Mentions(chs[i], m))
  }

  method CollectModels(local: LocalData, chs: seq<Channel>) returns (all: set<string>)
    ensures forall m :: m in all <==> KnownModel(local, chs, m)
  {
    all := {};
    for k := 0 to |RATIO_TYPES|
      invariant forall m :: m in all <==> exists j :: 0 <= j < k && LocalValue(local, RATIO_TYPES[j], m) != Nil
    {
      if RATIO_TYPES[k] in local {
        all := all + local[RATIO_TYPES[k]].Keys;
      }
    }
    forall m, rt | LocalValue(local, rt, m) != Nil ensures m in all {
      EveryRatioType(rt);
    }
    ghost var fromLocal := all;
    for i := 0 to |chs|
      invariant forall m :: m in all <==> m in fromLocal || exists j :: 0 <= j < i && Mentions(chs[j], m)
    {
      var mentioned := ChannelModels(chs[i]);
      all := all + mentioned;
    }
  }

  method ChannelModels(c: Channel) returns (mentioned: set<string>)
    ensures forall m :: m in mentioned <==> Mentions(c, m)
  {
    mentioned := {};
    for k := 0 to |RATIO_TYPES|
      invariant forall m :: m in mentioned <==> exists j :: 0 <= j < k && Reported(c, RATIO_TYPES[j], m).Some?
    {
      if RATIO_TYPES[k] in c.data {
        mentioned := mentioned + c.data[RATIO_TYPES[k]].Keys;
      }
    }
    forall m, rt | Reported(c, rt, m).Some? ensures m in mentioned {
      EveryRatioType(rt);
    }
  }

  /** Trust is decided for every known model, even one the channel says nothing about. */
  method ChannelConfidence(c: Channel, all: set<string>) returns (trusted: map<string, bool>)
    ensures trusted == map m | m in all :: Trusted(c, m)
  {
    trusted := map[];
    var todo := all;
    if ModelRatio in c.data && CompletionRatio in c.data {
      var modelRatios, completionRatios := c.data[ModelRatio], c.data[CompletionRatio];
      while todo != {}
        invariant todo <= all
        invariant trusted == map m | m in all - todo :: Trusted(c, m)
      {
        var m :| m in todo;
        trusted := trusted[m := true];
        if m in modelRatios && m in completionRatios {
          if modelRatios[m].Num? && completionRatios[m].Num? {
            if modelRatios[m].num == 37.5 && completionRatios[m].num == 1.0 {
              trusted := trusted[m := false];
            }
          }
        }
        todo := todo - {m};
      }
    } else {
      trusted := map m | m in all :: true;
    }
  }

  ghost predicate IsConfidence(conf: map<string, map<string, bool>>, chs: seq<Channel>, all: set<string>) {
    && conf.Keys == Names(chs)
    && forall name, m :: name in conf && m in all ==> m in conf[name] && conf[name][m] == Trust(chs, m)[name]
  }

  method BuildConfidence(chs: seq<Channel>, all: set<string>) returns (conf: map<string, map<string, bool>>)
    ensures IsConfidence(conf, chs, all)
  {
    conf := map[];
    for i := 0 to |chs|
      invariant IsConfidence(conf, chs[..i], all)
    {
      var trusted := ChannelConfidence(chs[i], all);
      conf := conf[chs[i].name := trusted];
      PrefixStep(chs, i);
    }
    assert chs[..|chs|] == chs;
  }

  lemma PrefixStep(chs: seq<Channel>, i: nat)
    requires i < |chs|
    ensures chs[..i + 1][..i] == chs[..i]
    ensures Names(chs[..i + 1]) == Names(chs[..i]) + {chs[i].name}
  {
    forall n | n in Names(chs[..i + 1]) ensures n in Names(chs[..i]) + {chs[i].name} {
      var j :| 0 <= j < i + 1 && chs[..i + 1][j].name == n;
      if j < i { assert chs[..i][j].name == n; }
    }
    forall n | n in Names(chs[..i]) + {chs[i].name} ensures n in Names(chs[..i + 1]) {
      if n != chs[i].name {
        var j :| 0 <= j < i && chs[..i][j].name == n;
        assert chs[..i + 1][j].name == n;
      } else {
        assert chs[..i + 1][i].name == n;
      }
    }
  }

  function RawItem(local: LocalData, chs: seq<Channel>, rt: RatioType, m: string): Item {
    Item(LocalValue(local, rt, m), Cells(local, chs, rt, m), Trust(chs, m))
  }

  /** The body of the loop over the channels, for one pair. */
  method CompareChannel(localValue: Value, channel: Channel, rt: RatioType, m: string)
    returns (upstreamValue: Value, reports: bool, differs: bool)
    ensures upstreamValue == Cell(localValue, Reported(channel, rt, m))
    ensures reports == Reported(channel, rt, m).Some?
    ensures localValue != Nil ==> differs == Disagrees(localValue, Reported(channel, rt, m))
  {
    upstreamValue, reports, differs := Nil, false, false;
    if rt in channel.data && m in channel.data[rt] {
      var val := channel.data[rt][m];
      upstreamValue := val;
      reports := true;
      if localValue != Nil && !ValuesEqual(localValue, val) {
        differs := true;
      } else if ValuesEqual(localValue, val) {
        upstreamValue := SAME;
      }
    }
    if upstreamValue == Nil && localValue == Nil {
      upstreamValue := SAME;
    }
    if localValue == Nil && upstreamValue != Nil && upstreamValue != SAME {
      differs := true;
    }
  }

  lemma {:induction false} CellsStep(local: LocalData, chs: seq<Channel>, i: nat, rt: RatioType, m: string)
    requires i < |chs|
    ensures Cells(local, chs[..i + 1], rt, m)
         == Cells(local, chs[..i], rt, m)[chs[i].name := Cell(LocalValue(local, rt, m), Reported(chs[i], rt, m))]
  {
    PrefixStep(chs, i);
  }

  ghost predicate Remembered(confidence: map<string, bool>, chs: seq<Channel>, i: nat, m: string)
    requires i <= |chs|
  {
    && confidence.Keys == Names(chs[..i])
    && forall name :: name in confidence ==> name in Names(chs) && confidence[name] == Trust(chs, m)[name]
  }

  lemma {:induction false} RememberedStep(confidence: map<string, bool>, chs: seq<Channel>, i: nat, m: string)
    requires i < |chs| && Remembered(confidence, chs, i, m)
    ensures chs[i].name in Names(chs)
    ensures Remembered(confidence[chs[i].name := Trust(chs, m)[chs[i].name]], chs, i + 1, m)
  {
    PrefixStep(chs, i);
  }

  lemma {:induction false} RememberedAll(confidence: map<string, bool>, chs: seq<Channel>, m: string)
    requires Remembered(confidence, chs, |chs|, m)
    ensures confidence == Trust(chs, m)
  {
    assert chs[..|chs|] == chs;
  }

  ghost predicate FlagsAre(current: Value, chs: seq<Channel>, i: nat, rt: RatioType, m: string, reports: bool,
                           differs: bool)
    requires i <= |chs|
  {
    && (reports <==> exists j :: 0 <= j < i && Reported(chs[j], rt, m).Some?)
    && (current != Nil ==> (differs <==> exists j :: 0 <= j < i && Disagrees(current, Reported(chs[j], rt, m))))
  }

  lemma FlagsStep(current: Value, chs: seq<Channel>, i: nat, rt: RatioType, m: string,
                  reports: bool, differs: bool, here: bool, differsHere: bool)
    requires i < |chs| && FlagsAre(current, chs, i, rt, m, reports, differs)
    requires here == Reported(chs[i], rt, m).Some?
    requires current != Nil ==> differsHere == Disagrees(current, Reported(chs[i], rt, m))
    ensures FlagsAre(current, chs, i + 1, rt, m, reports || here, differs || differsHere)
  {
  }

  /** One pair of the first pass: the loop over the channels with its two flags. */
  method ComparePair(local: LocalData, chs: seq<Channel>, conf: map<string, map<string, bool>>, ghost all: set<string>,
                     rt: RatioType, m: string) returns (listed: bool, item: Item)
    requires IsConfidence(conf, chs, all) && m in all
    ensures listed <==> Candidate(local, chs, rt, m)
    ensures item == RawItem(local, chs, rt, m)
  {
    var localValue := Nil;
    if rt in local {
      if m in local[rt] {
        localValue := Num(local[rt][m]);
      }
    }
    var upstreamValues: map<string, Value>, confidenceValues: map<string, bool> := map[], map[];
    var hasUpstreamValue, hasDifference := false, false;
    for i := 0 to |chs|
      invariant upstreamValues == Cells(local, chs[..i], rt, m)
      invariant Remembered(confidenceValues, chs, i, m)
      invariant FlagsAre(localValue, chs, i, rt, m, hasUpstreamValue, hasDifference)
    {
      var upstreamValue, reports, differs := CompareChannel(localValue, chs[i], rt, m);
      FlagsStep(localValue, chs, i, rt, m, hasUpstreamValue, hasDifference, reports, differs);
      hasUpstreamValue, hasDifference := hasUpstreamValue || reports, hasDifference || differs;
      CellsStep(local, chs, i, rt, m);
      RememberedStep(confidenceValues, chs, i, m);
      upstreamValues := upstreamValues[chs[i].name := upstreamValue];
      confidenceValues := confidenceValues[chs[i].name := conf[chs[i].name][m]];
    }
    assert chs[..|chs|] == chs;
    RememberedAll(confidenceValues, chs, m);
    listed := if localValue != Nil then hasDifference else hasUpstreamValue;
    item := Item(localValue, upstreamValues, confidenceValues);
  }

  ghost predicate IsRawRow(row: Row, local: LocalData, chs: seq<Channel>, m: string) {
    && (forall rt :: rt in row <==> Candidate(local, chs, rt, m))
    && (forall rt :: rt in row ==> row[rt] == RawItem(local, chs, rt, m))
  }

  ghost predicate IsRaw(d: Table, local: LocalData, chs: seq<Channel>, done: set<string>) {
    && (forall m :: m in d <==> m in done && exists rt :: Candidate(local, chs, rt, m))
    && (forall m :: m in d ==> IsRawRow(d[m], local, chs, m))
  }

  method CompareModel(local: LocalData, chs: seq<Channel>, conf: map<string, map<string, bool>>, ghost all: set<string>,
                      m: string) returns (row: Row)
    requires IsConfidence(conf, chs, all) && m in all
    ensures IsRawRow(row, local, chs, m)
  {
    row := map[];
    for k := 0 to |RATIO_TYPES|
      invariant forall rt :: rt in row ==> Candidate(local, chs, rt, m) && row[rt] == RawItem(local, chs, rt, m)
      invariant forall j :: 0 <= j < k && Candidate(local, chs, RATIO_TYPES[j], m) ==> RATIO_TYPES[j] in row
    {
      var rt := RATIO_TYPES[k];
      var listed, item := ComparePair(local, chs, conf, all, rt, m);
      if listed {
        row := row[rt := item];
      }
    }
    forall rt | Candidate(local, chs, rt, m) ensures rt in row {
      EveryRatioType(rt);
    }
  }

  method FirstPass(local: LocalData, chs: seq<Channel>, all: set<string>, conf: map<string, map<string, bool>>)
    returns (d: Table)
    requires IsConfidence(conf, chs, all)
    ensures IsRaw(d, local, chs, all)
  {
    d := map[];
    var todo := all;
    while todo != {}
      invariant todo <= all
      invariant IsRaw(d, local, chs, all - todo)
    {
      var m :| m in todo;
      var row := CompareModel(local, chs, conf, all, m);
      if row != map[] {
        assert exists rt :: rt in row;
        d := d[m := row];
      }
      todo := todo - {m};
    }
  }

  ghost predicate DiffersInRow(row: Row, name: string) {
    exists rt :: rt in row && name in row[rt].upstreams && RealDifference(row[rt].upstreams[name])
  }

  ghost predicate DiffersInTable(d: Table, name: string) {
    exists m :: m in d && DiffersInRow(d[m], name)
  }

  method MarkItem(item: Item, marked: set<string>) returns (channelHasDiff: set<string>)
    ensures channelHasDiff == marked + set name | name in item.upstreams && RealDifference(item.upstreams[name])
  {
    channelHasDiff := marked;
    var todo := item.upstreams.Keys;
    while todo != {}
      invariant todo <= item.upstreams.Keys
      invariant channelHasDiff ==
        marked + set name | name in item.upstreams.Keys - todo && RealDifference(item.upstreams[name])
    {
      var name :| name in todo;
      var val := item.upstreams[name];
      if val != Nil && val != SAME {
        channelHasDiff := channelHasDiff + {name};
      }
      todo := todo - {name};
    }
  }

  method MarkRow(row: Row, marked: set<string>) returns (channelHasDiff: set<string>)
    ensures forall name :: name in channelHasDiff <==> name in marked || DiffersInRow(row, name)
  {
    channelHasDiff := marked;
    var todo := row.Keys;
    while todo != {}
      invariant todo <= row.Keys
      invariant forall name :: name in channelHasDiff ==> name in marked || DiffersInRow(row, name)
      invariant marked <= channelHasDiff
      invariant forall rt, name ::
        (rt in row.Keys - todo && name in row[rt].upstreams && RealDifference(row[rt].upstreams[name]))
        ==> name in channelHasDiff
    {
      var rt :| rt in todo;
      channelHasDiff := MarkItem(row[rt], channelHasDiff);
      todo := todo - {rt};
    }
  }

  /** The second pass: which channels differ in at least one pair. */
  method MarkChannels(d: Table) returns (channelHasDiff: set<string>)
    ensures forall name :: name in channelHasDiff <==> DiffersInTable(d, name)
  {
    channelHasDiff := {};
    var todo := d.Keys;
    while todo != {}
      invariant todo <= d.Keys
      invariant forall name :: name in channelHasDiff ==> DiffersInTable(d, name)
      invariant forall m, name :: m in d.Keys - todo && DiffersInRow(d[m], name) ==> name in channelHasDiff
    {
      var m :| m in todo;
      channelHasDiff := MarkRow(d[m], channelHasDiff);
      todo := todo - {m};
    }
  }

  function Pruned(item: Item, keep: set<string>): Item {
    Item(item.current,
         map name | name in item.upstreams && name in keep :: item.upstreams[name],
         map name | name in item.confidence && (name in keep || name !in item.upstreams) :: item.confidence[name])
  }

  ghost predicate Informative(item: Item) {
    exists name :: name in item.upstreams && item.upstreams[name] != SAME
  }

  method PruneItem(item: Item, keep: set<string>) returns (pruned: Item, drop: bool)
    ensures pruned == Pruned(item, keep)
    ensures drop <==> !Informative(pruned)
  {
    pruned := item;
    var todo := item.upstreams.Keys;
    while todo != {}
      invariant todo <= item.upstreams.Keys
      invariant pruned == Pruned(item, keep + todo)
    {
      var name :| name in todo;
      if name !in keep {
        pruned := pruned.(upstreams := pruned.upstreams - {name}, confidence := pruned.confidence - {name});
      }
      todo := todo - {name};
    }
    assert keep + todo == keep;
    var allSame := true;
    var left := pruned.upstreams.Keys;
    while left != {} && allSame
      invariant left <= pruned.upstreams.Keys
      invariant allSame <==> forall name :: name in pruned.upstreams.Keys - left ==> pruned.upstreams[name] == SAME
    {
      var name :| name in left;
      if pruned.upstreams[name] != SAME {
        allSame := false;
      }
      left := left - {name};
    }
    drop := |pruned.upstreams| == 0 || allSame;
  }

  ghost predicate PrunedPair(pruned: Row, row: Row, keep: set<string>, rt: RatioType) {
    if rt in row && Informative(Pruned(row[rt], keep)) then rt in pruned && pruned[rt] == Pruned(row[rt], keep)
    else rt !in pruned
  }

  ghost predicate IsPrunedRow(pruned: Row, row: Row, keep: set<string>) {
    forall rt :: PrunedPair(pruned, row, keep, rt)
  }

  method PruneRow(row: Row, keep: set<string>) returns (pruned: Row)
    ensures IsPrunedRow(pruned, row, keep)
  {
    pruned := row;
    var todo := row.Keys;
    while todo != {}
      invariant todo <= row.Keys
      invariant forall rt :: rt in todo ==> rt in pruned && pruned[rt] == row[rt]
      invariant forall rt :: rt !in todo ==> PrunedPair(pruned, row, keep, rt)
    {
      var rt :| rt in todo;
      var item, drop := PruneItem(pruned[rt], keep);
      pruned := if drop then pruned - {rt} else pruned[rt := item];
      todo := todo - {rt};
    }
  }

  ghost predicate PrunedModel(pruned: Table, d: Table, keep: set<string>, m: string) {
    if m in pruned then m in d && pruned[m] != map[] && IsPrunedRow(pruned[m], d[m], keep)
    else m in d ==> IsPrunedRow(map[], d[m], keep)
  }

  ghost predicate IsPrunedTable(pruned: Table, d: Table, keep: set<string>) {
    forall m :: PrunedModel(pruned, d, keep, m)
  }

  /** The third pass deletes inside the table it walks over: channels, then pairs, then models. */
  method Prune(d: Table, keep: set<string>) returns (pruned: Table)
    ensures IsPrunedTable(pruned, d, keep)
  {
    pruned := d;
    var todo := d.Keys;
    while todo != {}
      invariant todo <= d.Keys
      invariant forall m :: m in todo ==> m in pruned && pruned[m] == d[m]
      invariant forall m :: m !in todo ==> PrunedModel(pruned, d, keep, m)
    {
      var m :| m in todo;
      var row := PruneRow(pruned[m], keep);
      pruned := if |row| == 0 then pruned - {m} else pruned[m := row];
      todo := todo - {m};
    }
  }

  method BuildDifferences(local: LocalData, chs: seq<Channel>) returns (differences: Table)
    ensures IsDifferences(differences, local, chs)
  {
    var all := CollectModels(local, chs);
    var conf := BuildConfidence(chs, all);
    var raw := FirstPass(local, chs, all, conf);
    RawCoversCandidates(raw, local, chs, all);
    var keep := MarkChannels(raw);
    MarksAreDifferences(raw, local, chs, keep);
    differences := Prune(raw, keep);
    PrunedIsDifferences(differences, raw, local, chs, keep);
  }

  ghost predicate IsCandidateTable(d: Table, local: LocalData, chs: seq<Channel>) {
    && (forall m, rt :: m in d && rt in d[m] <==> Candidate(local, chs, rt, m))
    && (forall m, rt :: m in d && rt in d[m] ==> d[m][rt] == RawItem(local, chs, rt, m))
  }

  lemma RawCoversCandidates(d: Table, local: LocalData, chs: seq<Channel>, all: set<string>)
    requires forall m :: m in all <==> KnownModel(local, chs, m)
    requires IsRaw(d, local, chs, all)
    ensures IsCandidateTable(d, local, chs)
  {
    forall m, rt | Candidate(local, chs, rt, m) ensures m in all {
      var i :| 0 <= i < |chs| && Disagrees(LocalValue(local, rt, m), Reported(chs[i], rt, m));
      assert Mentions(chs[i], m);
    }
  }

  lemma MarksAreDifferences(d: Table, local: LocalData, chs: seq<Channel>, keep: set<string>)
    requires IsCandidateTable(d, local, chs)
    requires forall name :: name in keep <==> DiffersInTable(d, name)
    ensures forall name :: name in keep <==> DiffersSomewhere(local, chs, name)
  {
    forall name ensures name in keep <==> DiffersSomewhere(local, chs, name) {
      if DiffersInTable(d, name) {
        var m :| m in d && DiffersInRow(d[m], name);
        var rt :| rt in d[m] && name in d[m][rt].upstreams && RealDifference(d[m][rt].upstreams[name]);
        assert DiffersAt(local, chs, name, rt, m);
      }
      if DiffersSomewhere(local, chs, name) {
        var rt, m :| DiffersAt(local, chs, name, rt, m);
        assert m in d && rt in d[m];
        assert DiffersInRow(d[m], name);
      }
    }
  }

  lemma PrunedRawItem(local: LocalData, chs: seq<Channel>, keep: set<string>, m: string, rt: RatioType)
    requires forall name :: name in keep <==> DiffersSomewhere(local, chs, name)
    ensures Pruned(RawItem(local, chs, rt, m), keep) == ListedItem(local, chs, rt, m)
  {
    hide DiffersSomewhere;
    var pruned, item := Pruned(RawItem(local, chs, rt, m), keep), ListedItem(local, chs, rt, m);
    assert pruned.upstreams == item.upstreams;
    assert pruned.confidence == item.confidence;
  }

  lemma InformativeWhenListed(local: LocalData, chs: seq<Channel>, rt: RatioType, m: string)
    requires Candidate(local, chs, rt, m)
    ensures Informative(ListedItem(local, chs, rt, m)) <==> Listed(local, chs, rt, m)
  {
    hide Candidate, DiffersSomewhere;
    var upstreams := ListedItem(local, chs, rt, m).upstreams;
    if Listed(local, chs, rt, m) {
      var name :| name in Cells(local, chs, rt, m) && DiffersSomewhere(local, chs, name)
        && Cells(local, chs, rt, m)[name] != SAME;
      assert name in upstreams;
    }
  }

  lemma PairSurvives(d: Table, local: LocalData, chs: seq<Channel>, keep: set<string>, m: string, rt: RatioType)
    requires IsCandidateTable(d, local, chs)
    requires forall name :: name in keep <==> DiffersSomewhere(local, chs, name)
    ensures m in d && rt in d[m] && Informative(Pruned(d[m][rt], keep)) <==> Listed(local, chs, rt, m)
    ensures m in d && rt in d[m] ==> Pruned(d[m][rt], keep) == ListedItem(local, chs, rt, m)
  {
    hide Candidate, DiffersSomewhere, Pruned;
    assert m in d && rt in d[m] <==> Candidate(local, chs, rt, m);
    if m in d && rt in d[m] {
      assert d[m][rt] == RawItem(local, chs, rt, m);
      PrunedRawItem(local, chs, keep, m, rt);
      InformativeWhenListed(local, chs, rt, m);
    }
  }

  lemma PairInPruned(pruned: Table, d: Table, keep: set<string>, m: string, rt: RatioType)
    requires IsPrunedTable(pruned, d, keep)
    ensures m in pruned && rt in pruned[m] <==> m in d && rt in d[m] && Informative(Pruned(d[m][rt], keep))
    ensures m in pruned && rt in pruned[m] ==> pruned[m][rt] == Pruned(d[m][rt], keep)
  {
    assert PrunedModel(pruned, d, keep, m);
    if m in pruned {
      assert PrunedPair(pruned[m], d[m], keep, rt);
    } else if m in d {
      assert PrunedPair(map[], d[m], keep, rt);
    }
  }

  lemma PrunedIsDifferences(pruned: Table, d: Table, local: LocalData, chs: seq<Channel>, keep: set<string>)
    requires IsCandidateTable(d, local, chs)
    requires forall name :: name in keep <==> DiffersSomewhere(local, chs, name)
    requires IsPrunedTable(pruned, d, keep)
    ensures IsDifferences(pruned, local, chs)
  {
    forall m, rt
      ensures m in pruned && rt in pruned[m] <==> Listed(local, chs, rt, m)
      ensures m in pruned && rt in pruned[m] ==> pruned[m][rt] == ListedItem(local, chs, rt, m)
    {
      PairSurvives(d, local, chs, keep, m, rt);
      PairInPruned(pruned, d, keep, m, rt);
    }
    forall m ensures m in pruned ==> exists rt :: Listed(local, chs, rt, m) {
      if m in pruned {
        assert PrunedModel(pruned, d, keep, m);
        var rt :| rt in pruned[m];
        assert Listed(local, chs, rt, m);
      }
    }
  }

  // ---------- what the table means ----------

  lemma RowIsUnique(d1: Table, d2: Table, local: LocalData, chs: seq<Channel>, m: string)
    requires IsDifferences(d1, local, chs) && IsDifferences(d2, local, chs)
    requires m in d1 && m in d2
    ensures d1[m] == d2[m]
  {
    hide Listed, ListedItem;
    assert forall rt :: rt in d1[m] ==> d1[m][rt] == ListedItem(local, chs, rt, m);
    assert forall rt :: rt in d1[m] <==> rt in d2[m];
  }

  /** The result does not depend on the order in which Go walks its maps. */
  lemma OrderIndependent(d1: Table, d2: Table, local: LocalData, chs: seq<Channel>)
    requires IsDifferences(d1, local, chs) && IsDifferences(d2, local, chs)
    ensures d1 == d2
  {
    hide Listed, ListedItem;
    assert forall m :: m in d1 <==> m in d2;
    forall m | m in d1 ensures d1[m] == d2[m] {
      RowIsUnique(d1, d2, local, chs, m);
    }
  }

  function Abs(r: real): real {
    if r < 0.0 then -r else r
  }

  /** The channel gives a number, and the local value is absent or at least epsilon away from it. */
  predicate ReportsApart(local: LocalData, c: Channel, rt: RatioType, m: string) {
    && Reported(c, rt, m).Some?
    && Reported(c, rt, m).value.Num?
    && (LocalValue(local, rt, m).Num? ==> Abs(LocalValue(local, rt, m).num - Reported(c, rt, m).value.num) >= EPSILON)
  }

  ghost predicate ApartSomewhere(local: LocalData, c: Channel) {
    exists rt, m :: ReportsApart(local, c, rt, m)
  }

  ghost predicate NumericChannel(c: Channel) {
    forall rt, m :: Reported(c, rt, m).Some? ==> Reported(c, rt, m).value.Num?
  }

  ghost predicate Numeric(chs: seq<Channel>) {
    forall i :: 0 <= i < |chs| ==> NumericChannel(chs[i])
  }

  ghost predicate DistinctNames(chs: seq<Channel>) {
    forall i, j :: 0 <= i < j < |chs| ==> chs[i].name != chs[j].name
  }

  /** Of the channels with one name the last one speaks; with distinct names all do. */
  predicate Speaks(chs: seq<Channel>, i: int) {
    0 <= i < |chs| && forall j :: i < j < |chs| ==> chs[j].name != chs[i].name
  }

  lemma {:induction false} CellOf(local: LocalData, chs: seq<Channel>, i: nat, rt: RatioType, m: string)
    requires Speaks(chs, i)
    ensures chs[i].name in Cells(local, chs, rt, m)
    ensures Cells(local, chs, rt, m)[chs[i].name] == Cell(LocalValue(local, rt, m), Reported(chs[i], rt, m))
  {
    if i < |chs| - 1 {
      CellOf(local, chs[..|chs| - 1], i, rt, m);
    }
  }

  lemma {:induction false} TrustOf(chs: seq<Channel>, i: nat, m: string)
    requires Speaks(chs, i)
    ensures chs[i].name in Trust(chs, m) && Trust(chs, m)[chs[i].name] == Trusted(chs[i], m)
  {
    if i < |chs| - 1 {
      TrustOf(chs[..|chs| - 1], i, m);
    }
  }

  lemma ApartIsDifference(local: LocalData, chs: seq<Channel>, i: nat, rt: RatioType, m: string)
    requires DistinctNames(chs) && Numeric(chs) && i < |chs|
    ensures ReportsApart(local, chs[i], rt, m) <==> Disagrees(LocalValue(local, rt, m), Reported(chs[i], rt, m))
    ensures ReportsApart(local, chs[i], rt, m) <==> DiffersAt(local, chs, chs[i].name, rt, m)
  {
    CellOf(local, chs, i, rt, m);
  }

  lemma ApartIsDifferenceAnywhere(local: LocalData, chs: seq<Channel>, i: nat)
    requires DistinctNames(chs) && Numeric(chs) && i < |chs|
    ensures ApartSomewhere(local, chs[i]) <==> DiffersSomewhere(local, chs, chs[i].name)
  {
    forall rt, m ensures ReportsApart(local, chs[i], rt, m) <==> DiffersAt(local, chs, chs[i].name, rt, m) {
      ApartIsDifference(local, chs, i, rt, m);
    }
  }

  /** On numeric data the pruning passes never drop a pair: listed means some channel is apart. */
  lemma NumericPairs(local: LocalData, chs: seq<Channel>, rt: RatioType, m: string)
    requires DistinctNames(chs) && Numeric(chs)
    ensures Listed(local, chs, rt, m)
       <==> exists i :: 0 <= i < |chs| && ReportsApart(local, chs[i], rt, m)
  {
    if exists i :: 0 <= i < |chs| && ReportsApart(local, chs[i], rt, m) {
      var i :| 0 <= i < |chs| && ReportsApart(local, chs[i], rt, m);
      ApartIsDifference(local, chs, i, rt, m);
      assert DiffersSomewhere(local, chs, chs[i].name);
    }
    if Listed(local, chs, rt, m) {
      var i :| 0 <= i < |chs| && Disagrees(LocalValue(local, rt, m), Reported(chs[i], rt, m));
      ApartIsDifference(local, chs, i, rt, m);
    }
  }

  /** The number if it is apart, "same" if it is close (or there is nothing on either side), nil if only the
      local side has one. */
  function Shown(local: LocalData, c: Channel, rt: RatioType, m: string): Value {
    if ReportsApart(local, c, rt, m) then Reported(c, rt, m).value
    else if Reported(c, rt, m).Some? || LocalValue(local, rt, m) == Nil then SAME
    else Nil
  }

  lemma ShownIsCell(local: LocalData, c: Channel, rt: RatioType, m: string)
    requires NumericChannel(c)
    ensures Shown(local, c, rt, m) == Cell(LocalValue(local, rt, m), Reported(c, rt, m))
  {
    assert Reported(c, rt, m).Some? ==> Reported(c, rt, m).value.Num?;
  }

  /** An item lists exactly the channels that are apart somewhere, each with the value shown to the user
      and whether its pricing page is to be trusted. */
  ghost predicate ShowsChannel(item: Item, local: LocalData, c: Channel, rt: RatioType, m: string) {
    && (c.name in item.upstreams <==> ApartSomewhere(local, c))
    && (c.name in item.confidence <==> ApartSomewhere(local, c))
    && (c.name in item.upstreams ==> item.upstreams[c.name] == Shown(local, c, rt, m))
    && (c.name in item.confidence ==> item.confidence[c.name] == Trusted(c, m))
  }

  lemma NumericItem(local: LocalData, chs: seq<Channel>, rt: RatioType, m: string, i: nat)
    requires DistinctNames(chs) && Numeric(chs) && i < |chs|
    ensures ShowsChannel(ListedItem(local, chs, rt, m), local, chs[i], rt, m)
  {
    hide ApartSomewhere, DiffersSomewhere, Cells, Trust, Shown, Cell, Trusted, LocalValue, Reported;
    CellOf(local, chs, i, rt, m);
    TrustOf(chs, i, m);
    ApartIsDifferenceAnywhere(local, chs, i);
    ShownIsCell(local, chs[i], rt, m);
  }

  /** The whole answer on numeric data: which pairs, which channels in each, and with what. */
  lemma NumericDifferences(d: Table, local: LocalData, chs: seq<Channel>, rt: RatioType, m: string)
    requires DistinctNames(chs) && Numeric(chs)
    requires IsDifferences(d, local, chs)
    ensures m in d && rt in d[m] <==> exists i :: 0 <= i < |chs| && ReportsApart(local, chs[i], rt, m)
    ensures m in d && rt in d[m] ==>
      && d[m][rt].current == LocalValue(local, rt, m)
      && d[m][rt].confidence.Keys == d[m][rt].upstreams.Keys == ApartNames(local, chs)
      && forall i :: 0 <= i < |chs| ==> ShowsChannel(d[m][rt], local, chs[i], rt, m)
  {
    hide ShowsChannel, ApartSomewhere, ReportsApart, ApartNames, Listed;
    NumericPairs(local, chs, rt, m);
    if m in d && rt in d[m] {
      ItemKeys(local, chs, rt, m);
      forall i | 0 <= i < |chs| ensures ShowsChannel(d[m][rt], local, chs[i], rt, m) {
        NumericItem(local, chs, rt, m, i);
      }
    }
  }

  ghost function ApartNames(local: LocalData, chs: seq<Channel>): set<string> {
    set i | 0 <= i < |chs| && ApartSomewhere(local, chs[i]) :: chs[i].name
  }

  lemma ItemKeys(local: LocalData, chs: seq<Channel>, rt: RatioType, m: string)
    requires DistinctNames(chs) && Numeric(chs)
    ensures ListedItem(local, chs, rt, m).upstreams.Keys == ApartNames(local, chs)
    ensures ListedItem(local, chs, rt, m).confidence.Keys == ApartNames(local, chs)
  {
    var differing := set name | name in Names(chs) && DiffersSomewhere(local, chs, name);
    forall i | 0 <= i < |chs| ensures chs[i].name in differing <==> ApartSomewhere(local, chs[i]) {
      ApartIsDifferenceAnywhere(local, chs, i);
    }
    assert differing == ApartNames(local, chs);
    assert ListedItem(local, chs, rt, m).upstreams.Keys == differing;
    assert ListedItem(local, chs, rt, m).confidence.Keys == differing;
  }

  // ---------- which pairs are listed, on arbitrary JSON ----------

  /** The channel reports something that is not the local value, and is neither null nor the text "same". */
  predicate ReportsDifference(local: LocalData, c: Channel, rt: RatioType, m: string) {
    && Reported(c, rt, m).Some?
    && Reported(c, rt, m).value != Nil && Reported(c, rt, m).value != SAME
    && !ValuesEqual(LocalValue(local, rt, m), Reported(c, rt, m).value)
  }

  ghost predicate ReportsDifferenceSomewhere(local: LocalData, c: Channel) {
    exists rt, m :: ReportsDifference(local, c, rt, m)
  }

  /** There is a local value, and the channel has none: it reports null or nothing. */
  predicate Lacks(local: LocalData, c: Channel, rt: RatioType, m: string) {
    LocalValue(local, rt, m) != Nil && (Reported(c, rt, m) == None || Reported(c, rt, m) == Some(Nil))
  }

  lemma CellKinds(local: LocalData, c: Channel, rt: RatioType, m: string)
    ensures var cell := Cell(LocalValue(local, rt, m), Reported(c, rt, m));
      && (RealDifference(cell) <==> ReportsDifference(local, c, rt, m))
      && (cell == Nil <==> Lacks(local, c, rt, m))
    ensures ReportsDifference(local, c, rt, m) ==> Disagrees(LocalValue(local, rt, m), Reported(c, rt, m))
  {
  }

  lemma {:induction false} SpeakerOf(chs: seq<Channel>, name: string) returns (i: nat)
    requires name in Names(chs)
    ensures Speaks(chs, i) && chs[i].name == name
    decreases |chs|
  {
    i := |chs| - 1;
    if chs[i].name != name {
      PrefixStep(chs, i);
      assert chs[..i + 1] == chs;
      i := SpeakerOf(chs[..i], name);
    }
  }

  lemma DifferenceAt(local: LocalData, chs: seq<Channel>, i: nat, rt: RatioType, m: string)
    requires Speaks(chs, i)
    ensures DiffersAt(local, chs, chs[i].name, rt, m) <==> ReportsDifference(local, chs[i], rt, m)
  {
    hide Cells, Cell, Disagrees, ReportsDifference, RealDifference;
    CellOf(local, chs, i, rt, m);
    CellKinds(local, chs[i], rt, m);
  }

  lemma DifferenceSomewhere(local: LocalData, chs: seq<Channel>, i: nat)
    requires Speaks(chs, i)
    ensures DiffersSomewhere(local, chs, chs[i].name) <==> ReportsDifferenceSomewhere(local, chs[i])
  {
    hide DiffersAt, ReportsDifference;
    forall rt, m ensures DiffersAt(local, chs, chs[i].name, rt, m) <==> ReportsDifference(local, chs[i], rt, m) {
      DifferenceAt(local, chs, i, rt, m);
    }
  }

  /** What keeps a pair in the table: a difference in it, or no value from a channel that differs elsewhere. */
  ghost predicate Keeps(local: LocalData, c: Channel, rt: RatioType, m: string) {
    ReportsDifference(local, c, rt, m) || (Lacks(local, c, rt, m) && ReportsDifferenceSomewhere(local, c))
  }

  lemma KeepsExactlyWhen(local: LocalData, chs: seq<Channel>, i: nat, rt: RatioType, m: string)
    requires Speaks(chs, i)
    ensures chs[i].name in Cells(local, chs, rt, m)
    ensures Keeps(local, chs[i], rt, m) <==>
      DiffersSomewhere(local, chs, chs[i].name) && Cells(local, chs, rt, m)[chs[i].name] != SAME
  {
    CellOf(local, chs, i, rt, m);
    DifferenceSomewhere(local, chs, i);
    CellKinds(local, chs[i], rt, m);
    hide Cells, Cell, ReportsDifference, Lacks, DiffersSomewhere;
  }

  /** On every input, whatever JSON the channels report and whatever their names: a pair is listed exactly when some
      channel disagrees in it, and some speaking channel keeps it. */
  lemma ListedExactlyWhen(local: LocalData, chs: seq<Channel>, rt: RatioType, m: string)
    ensures Listed(local, chs, rt, m) <==>
      && Candidate(local, chs, rt, m)
      && exists i :: Speaks(chs, i) && Keeps(local, chs[i], rt, m)
  {
    hide Candidate, Keeps, DiffersSomewhere, Cells;
    if Listed(local, chs, rt, m) {
      var name :| name in Cells(local, chs, rt, m) && DiffersSomewhere(local, chs, name)
        && Cells(local, chs, rt, m)[name] != SAME;
      var i := SpeakerOf(chs, name);
      KeepsExactlyWhen(local, chs, i, rt, m);
    }
    if i :| Speaks(chs, i) && Keeps(local, chs[i], rt, m) {
      KeepsExactlyWhen(local, chs, i, rt, m);
    }
  }

  /** In the answer, a channel's confidence flag is false exactly when its pricing page gives the model the default
      ratio 37.5 together with the default completion ratio 1. */
  lemma FlagIsFalseExactlyWhen(d: Table, local: LocalData, chs: seq<Channel>, i: nat, rt: RatioType, m: string)
    requires IsDifferences(d, local, chs) && Speaks(chs, i)
    requires m in d && rt in d[m] && chs[i].name in d[m][rt].confidence
    ensures var data := chs[i].data;
      !d[m][rt].confidence[chs[i].name] <==>
        && ModelRatio in data && m in data[ModelRatio] && data[ModelRatio][m] == Num(37.5)
        && CompletionRatio in data && m in data[CompletionRatio] && data[CompletionRatio][m] == Num(1.0)
  {
    hide DiffersSomewhere, Listed, Cells, Trust;
    TrustOf(chs, i, m);
  }

  /** A candidate pair is dropped exactly when every speaking channel that disagrees in it reports null or the text
      "same", and every one that has no value for it reports no difference anywhere. */
  lemma DroppedExactlyWhen(local: LocalData, chs: seq<Channel>, rt: RatioType, m: string)
    requires Candidate(local, chs, rt, m)
    ensures !Listed(local, chs, rt, m) <==>
      && (forall i :: Speaks(chs, i) && Disagrees(LocalValue(local, rt, m), Reported(chs[i], rt, m)) ==>
            Reported(chs[i], rt, m).value == Nil || Reported(chs[i], rt, m).value == SAME)
      && (forall i :: Speaks(chs, i) && Lacks(local, chs[i], rt, m) ==> !ReportsDifferenceSomewhere(local, chs[i]))
  {
    hide Listed, Candidate, ReportsDifferenceSomewhere, Lacks;
    ListedExactlyWhen(local, chs, rt, m);
    forall i | Speaks(chs, i)
      ensures ReportsDifference(local, chs[i], rt, m) <==>
        && Disagrees(LocalValue(local, rt, m), Reported(chs[i], rt, m))
        && Reported(chs[i], rt, m).value != Nil && Reported(chs[i], rt, m).value != SAME
    {
    }
  }

  /** No difference is ever dropped: on any JSON, a speaking channel with a value of its own gets its pair listed. */
  lemma DifferencesAreListed(local: LocalData, chs: seq<Channel>, rt: RatioType, m: string, i: nat)
    requires Speaks(chs, i) && ReportsDifference(local, chs[i], rt, m)
    ensures Listed(local, chs, rt, m)
  {
    CellKinds(local, chs[i], rt, m);
    assert Candidate(local, chs, rt, m);
    assert Keeps(local, chs[i], rt, m);
    hide Candidate, Keeps, Speaks, Listed;
    ListedExactlyWhen(local, chs, rt, m);
  }

  /** Such a pair exists: a JSON null against a local number is a candidate, and it is dropped. */
  lemma NullIsDropped()
    ensures var local, c := map[ModelPrice := map["m" := 1.0]], Channel("c", map[ModelPrice := map["m" := Nil]]);
      Candidate(local, [c], ModelPrice, "m") && !Listed(local, [c], ModelPrice, "m")
  {
    var local: LocalData, c := map[ModelPrice := map["m" := 1.0]], Channel("c", map[ModelPrice := map["m" := Nil]]);
    var rt := ModelPrice;
    assert Disagrees(LocalValue(local, rt, "m"), Reported([c][0], rt, "m"));
    forall r, m ensures !DiffersAt(local, [c], "c", r, m) {
      CellOf(local, [c], 0, r, m);
    }
    CellOf(local, [c], 0, rt, "m");
    assert Names([c]) == {"c"};
  }

  // ---------- syncing converges ----------

  /** The value that an administrator takes over from the named channel for one listed pair. */
  function Chosen(d: Table, name: string, rt: RatioType, m: string): Option<real> {
    if m in d && rt in d[m] && name in d[m][rt].upstreams && d[m][rt].upstreams[name].Num?
    then Some(d[m][rt].upstreams[name].num) else None
  }

  function Sync(local: LocalData, d: Table, name: string): LocalData {
    map rt: RatioType | true ::
      var row := if rt in local then local[rt] else map[];
      map m | m in row.Keys + d.Keys && (m in row || Chosen(d, name, rt, m).Some?) ::
        match Chosen(d, name, rt, m) case Some(r) => r case None => row[m]
  }

  lemma SyncWrites(local: LocalData, d: Table, name: string, rt: RatioType, m: string)
    ensures LocalValue(Sync(local, d, name), rt, m) ==
      match Chosen(d, name, rt, m) case Some(r) => Num(r) case None => LocalValue(local, rt, m)
  {
  }

  lemma ApartHereIsSomewhere(local: LocalData, c: Channel, rt: RatioType, m: string)
    requires ReportsApart(local, c, rt, m)
    ensures ApartSomewhere(local, c)
  {
  }

  lemma NothingApartAfterSync(local: LocalData, chs: seq<Channel>, d: Table, i: nat, rt: RatioType, m: string)
    requires DistinctNames(chs) && Numeric(chs) && i < |chs|
    requires IsDifferences(d, local, chs)
    ensures !ReportsApart(Sync(local, d, chs[i].name), chs[i], rt, m)
  {
    hide Listed, ListedItem, ApartSomewhere;
    var c := chs[i];
    SyncWrites(local, d, c.name, rt, m);
    NumericPairs(local, chs, rt, m);
    if m in d && rt in d[m] {
      NumericItem(local, chs, rt, m, i);
    }
    if ReportsApart(local, c, rt, m) {
      ApartHereIsSomewhere(local, c, rt, m);
      assert Chosen(d, c.name, rt, m) == Some(Reported(c, rt, m).value.num);
    }
  }

  /** Taking over one channel's values for every listed pair leaves nothing to list for that channel. */
  lemma SyncConverges(local: LocalData, chs: seq<Channel>, d: Table, i: nat, d': Table)
    requires DistinctNames(chs) && Numeric(chs) && i < |chs|
    requires IsDifferences(d, local, chs)
    requires IsDifferences(d', Sync(local, d, chs[i].name), [chs[i]])
    ensures d' == map[]
  {
    hide ListedItem, Listed, ReportsApart, Sync;
    var local', alone := Sync(local, d, chs[i].name), [chs[i]];
    forall m | m in d' ensures false {
      var rt :| Listed(local', alone, rt, m);
      NumericPairs(local', alone, rt, m);
      NothingApartAfterSync(local, chs, d, i, rt, m);
    }
  }
}
