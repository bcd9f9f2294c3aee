/**
 Multi-key channels. The source keeps the keys in one newline-separated string and the per-key
 state in three sparse maps indexed by position, all of them rebuilt when a key is deleted. The
 specification is a plain sequence of records.
 */
module MultiKey {
  import opened Outcomes

  // ---------- the key string ----------

  predicate IsNewline(c: char) { c == '\n' }

  /** unicode.IsSpace. */
  predicate IsSpace(c: char) {
    || '\t' <= c <= '\r' || c == ' ' || c == '\U{85}' || c == '\U{A0}' || c == '\U{1680}'
    || '\U{2000}' <= c <= '\U{200A}' || c == '\U{2028}' || c == '\U{2029}' || c == '\U{202F}'
    || c == '\U{205F}' || c == '\U{3000}'
  }

  function TrimLeft(s: string, cut: char -> bool): string {
    if s != "" && cut(s[0]) then TrimLeft(s[1..], cut) else s
  }

  function TrimRight(s: string, cut: char -> bool): string {
    if s != "" && cut(s[|s| - 1]) then TrimRight(s[..|s| - 1], cut) else s
  }

  function Trim(s: string, cut: char -> bool): string {
    TrimRight(TrimLeft(s, cut), cut)
  }

  function Split(s: string): (lines: seq<string>)
    ensures |lines| > 0
  {
    if s == "" then [""] else
      var rest := Split(s[1..]);
      if s[0] == '\n' then [""] + rest else [[s[0]] + rest[0]] + rest[1..]
  }

  function Join(keys: seq<string>): string {
    if keys == [] then "" else if |keys| == 1 then keys[0] else keys[0] + "\n" + Join(keys[1..])
  }

  /** The key string of a channel that does not hold a JSON array. */
  function GetKeys(key: string): seq<string> {
    if key == "" then [] else Split(Trim(key, IsNewline))
  }

  /** A key that is not blank, has no line break and does not open a JSON array. */
  predicate PlainKey(k: string) {
    && '\n' !in k
    && TrimLeft(k, IsSpace) != ""
    && TrimLeft(k, IsSpace)[0] != '['
  }

  predicate PlainKeys(keys: seq<string>) {
    forall i :: 0 <= i < |keys| ==> PlainKey(keys[i])
  }

  lemma {:induction false} SplitOfLine(k: string, s: string)
    requires '\n' !in k
    ensures Split(k) == [k]
    ensures Split(k + "\n" + s) == [k] + Split(s)
  {
    if k == "" {
      assert (k + "\n" + s)[1..] == s;
    } else {
      SplitOfLine(k[1..], s);
      assert [k[0]] + k[1..] == k;
      assert (k + "\n" + s)[1..] == k[1..] + "\n" + s;
    }
  }

  lemma {:induction false} SplitUndoesJoin(keys: seq<string>)
    requires |keys| > 0 && forall i :: 0 <= i < |keys| ==> '\n' !in keys[i]
    ensures Split(Join(keys)) == keys
  {
    if |keys| == 1 {
      SplitOfLine(keys[0], "");
    } else {
      SplitUndoesJoin(keys[1..]);
      SplitOfLine(keys[0], Join(keys[1..]));
    }
  }

  lemma {:induction false} JoinEnds(keys: seq<string>)
    requires |keys| > 0 && PlainKeys(keys)
    ensures Join(keys) != "" && Join(keys)[0] != '\n' && Join(keys)[|Join(keys)| - 1] != '\n'
  {
    assert PlainKey(keys[0]) && keys[0] != "";
    if |keys| > 1 {
      JoinEnds(keys[1..]);
    }
  }

  /** Writing the keys back and reading them again gives the same list, also for the empty list. */
  lemma {:induction false} GetKeysUndoesJoin(keys: seq<string>)
    requires PlainKeys(keys)
    ensures GetKeys(Join(keys)) == keys
    ensures Join(keys) == "" <==> keys == []
  {
    if keys != [] {
      JoinEnds(keys);
      SplitUndoesJoin(keys);
    }
  }

  // ---------- records ----------

  const ENABLED := 1
  const MANUALLY_DISABLED := 2
  const AUTO_DISABLED := 3

  /** One key with the state kept for it, shown or not. */
  datatype Record = Record(key: string, status: int, time: Option<int>, reason: Option<string>)

  datatype Info = Info(size: int, status: map<int, int>, time: map<int, int>, reason: map<int, string>)

  function Lookup<T>(m: map<int, T>, i: int): Option<T> {
    if i in m then Some(m[i]) else None
  }

  function StatusAt(status: map<int, int>, i: int): int {
    if i in status then status[i] else ENABLED
  }

  function RecordAt(keys: seq<string>, info: Info, i: nat): Record
    requires i < |keys|
  {
    Record(keys[i], StatusAt(info.status, i), Lookup(info.time, i), Lookup(info.reason, i))
  }

  function Records(keys: seq<string>, info: Info): (recs: seq<Record>)
    ensures |recs| == |keys| && forall i :: 0 <= i < |keys| ==> recs[i] == RecordAt(keys, info, i)
  {
    seq(|keys|, i requires 0 <= i < |keys| => RecordAt(keys, info, i))
  }

  predicate InRange<T>(m: map<int, T>, n: int) {
    forall i :: i in m ==> 0 <= i < n
  }

  predicate Consistent(keys: seq<string>, info: Info) {
    && PlainKeys(keys)
    && info.size == |keys|
    && InRange(info.status, |keys|) && InRange(info.time, |keys|) && InRange(info.reason, |keys|)
  }

  // ---------- the actions on records ----------

  datatype Action =
    | DisableKey(index: Option<int>)
    | EnableKey(index: Option<int>)
    | EnableAll
    | DisableAll
    | DeleteKey(index: Option<int>)
    | DeleteDisabled

  datatype Reply = Done | NoIndex | OutOfRange | NothingToDo | LastKey | NotSaved

  function Enabled(r: Record): Record {
    Record(r.key, ENABLED, None, None)
  }

  function Disabled(r: Record): Record {
    if r.status == ENABLED then r.(status := MANUALLY_DISABLED) else r
  }

  function MapRecords(recs: seq<Record>, f: Record -> Record): (mapped: seq<Record>)
    ensures |mapped| == |recs| && forall i :: 0 <= i < |recs| ==> mapped[i] == f(recs[i])
  {
    seq(|recs|, i requires 0 <= i < |recs| => f(recs[i]))
  }

  function WithoutIndex<T>(s: seq<T>, k: int): seq<T>
    requires 0 <= k < |s|
  {
    s[..k] + s[k + 1..]
  }

  /** Deleting the auto-disabled keys also forgets the hidden time and reason of an enabled key. */
  function Survivors(recs: seq<Record>): seq<Record> {
    if recs == [] then [] else
      var last := recs[|recs| - 1];
      Survivors(recs[..|recs| - 1]) +
      (if last.status == AUTO_DISABLED then [] else if last.status == ENABLED then [Enabled(last)] else [last])
  }

  predicate AllAutoDisabled(recs: seq<Record>) {
    |recs| > 0 && forall i :: 0 <= i < |recs| ==> recs[i].status == AUTO_DISABLED
  }

  predicate AnyHas(recs: seq<Record>, status: int) {
    exists i :: 0 <= i < |recs| && recs[i].status == status
  }

  function CheckIndex(index: Option<int>, n: int): Reply {
    if index == None then NoIndex
    else if index.value < 0 || index.value >= n then OutOfRange
    else Done
  }

  /** What an action replies when the database accepts the write. */
  function ReplyOf(recs: seq<Record>, a: Action): Reply {
    match a
    case DisableKey(index) => CheckIndex(index, |recs|)
    case EnableKey(index) => CheckIndex(index, |recs|)
    case EnableAll => Done
    case DisableAll => if AnyHas(recs, ENABLED) then Done else NothingToDo
    case DeleteKey(index) =>
      if CheckIndex(index, |recs|) != Done then CheckIndex(index, |recs|)
      else if |recs| == 1 then LastKey else Done
    case DeleteDisabled => if AnyHas(recs, AUTO_DISABLED) then Done else NothingToDo
  }

  /** What an action leaves in the row. A row whose keys are all auto-disabled is not emptied by
      DeleteDisabled: the empty key string is not written, so every key comes back enabled. */
  function After(recs: seq<Record>, a: Action): seq<Record> {
    if ReplyOf(recs, a) != Done then recs else
      match a
      case DisableKey(index) => recs[index.value := recs[index.value].(status := MANUALLY_DISABLED)]
      case EnableKey(index) => recs[index.value := Enabled(recs[index.value])]
      case EnableAll => MapRecords(recs, Enabled)
      case DisableAll => MapRecords(recs, Disabled)
      case DeleteKey(index) => WithoutIndex(recs, index.value)
      case DeleteDisabled => if AllAutoDisabled(recs) then MapRecords(recs, Enabled) else Survivors(recs)
  }

  // ---------- the loops of the handlers ----------

  method DisableStatuses(keys: seq<string>, info: Info) returns (status: map<int, int>, disabledCount: nat)
    requires Consistent(keys, info)
    ensures disabledCount == 0 <==> !AnyHas(Records(keys, info), ENABLED)
    ensures Consistent(keys, info.(status := status))
    ensures Records(keys, info.(status := status)) == MapRecords(Records(keys, info), Disabled)
  {
    ghost var recs := Records(keys, info);
    status, disabledCount := info.status, 0;
    for i := 0 to info.size
      invariant disabledCount == 0 <==> !AnyHas(recs[..i], ENABLED)
      invariant InRange(status, info.size)
      invariant forall j :: i <= j ==> StatusAt(status, j) == StatusAt(info.status, j)
      invariant forall j :: 0 <= j < i ==> StatusAt(status, j) == Disabled(recs[j]).status
    {
      AnyHasStep(recs, i, ENABLED);
      if StatusAt(status, i) == ENABLED {
        status := status[i := MANUALLY_DISABLED];
        disabledCount := disabledCount + 1;
      }
    }
    assert recs[..info.size] == recs;
  }

  /** The state of the keys kept so far, under their new positions. */
  ghost predicate Represents(keys: seq<string>, info: Info, recs: seq<Record>) {
    && Records(keys, info) == recs
    && InRange(info.status, |keys|) && InRange(info.time, |keys|) && InRange(info.reason, |keys|)
  }

  lemma RepresentsNext(keys: seq<string>, info: Info, recs: seq<Record>, info': Info, r: Record)
    requires Represents(keys, info, recs)
    requires info'.status == (if r.status == ENABLED then info.status else info.status[|keys| := r.status])
    requires info'.time == (if r.time == None then info.time else info.time[|keys| := r.time.value])
    requires info'.reason == (if r.reason == None then info.reason else info.reason[|keys| := r.reason.value])
    ensures Represents(keys + [r.key], info', recs + [r])
  {
    var keys', recs' := keys + [r.key], recs + [r];
    forall i | 0 <= i < |keys'| ensures RecordAt(keys', info', i) == recs'[i] {
      if i < |keys| {
        assert RecordAt(keys, info, i) == recs[i];
      }
    }
    assert Records(keys', info') == recs';
  }

  lemma RepresentsAnySize(keys: seq<string>, info: Info, recs: seq<Record>, size: int)
    requires Represents(keys, info, recs)
    ensures Represents(keys, info.(size := size), recs)
  {
    assert Records(keys, info.(size := size)) == Records(keys, info);
  }

  lemma NothingRepresented(info: Info)
    requires info.status == map[] && info.time == map[] && info.reason == map[]
    ensures Represents([], info, [])
  {
  }

  method CopyWithout(keys: seq<string>, info: Info, keyIndex: int) returns (remaining: seq<string>, newInfo: Info)
    requires 0 <= keyIndex < |keys| && PlainKeys(keys)
    ensures Represents(remaining, newInfo, WithoutIndex(Records(keys, info), keyIndex))
    ensures PlainKeys(remaining)
  {
    ghost var recs, kept := Records(keys, info), [];
    remaining := [];
    var status: map<int, int>, time: map<int, int>, reason: map<int, string> := map[], map[], map[];
    var newIndex := 0;
    hide Represents, Records;
    NothingRepresented(Info(0, status, time, reason));
    for i := 0 to |keys|
      invariant newIndex == |remaining| && PlainKeys(remaining)
      invariant kept == if i <= keyIndex then recs[..i] else recs[..keyIndex] + recs[keyIndex + 1..i]
      invariant Represents(remaining, Info(0, status, time, reason), kept)
    {
      if i != keyIndex {
        ghost var before := Info(0, status, time, reason);
        if i in info.status && info.status[i] != ENABLED {
          status := status[newIndex := info.status[i]];
        }
        if i in info.time {
          time := time[newIndex := info.time[i]];
        }
        if i in info.reason {
          reason := reason[newIndex := info.reason[i]];
        }
        RepresentsNext(remaining, before, kept, Info(0, status, time, reason), recs[i]);
        remaining := remaining + [keys[i]];
        kept := kept + [recs[i]];
        newIndex := newIndex + 1;
      }
    }
    newInfo := Info(|remaining|, status, time, reason);
    RepresentsAnySize(remaining, Info(0, status, time, reason), kept, |remaining|);
    assert kept == WithoutIndex(recs, keyIndex);
  }

  lemma {:induction false} NoSurvivors(recs: seq<Record>)
    ensures Survivors(recs) == [] <==> recs == [] || AllAutoDisabled(recs)
  {
    if recs != [] {
      var n := |recs| - 1;
      NoSurvivors(recs[..n]);
      AllAutoDisabledStep(recs);
      hide AllAutoDisabled;
      assert Survivors(recs) == [] <==> Survivors(recs[..n]) == [] && recs[n].status == AUTO_DISABLED;
    }
  }

  lemma AllAutoDisabledStep(recs: seq<Record>)
    requires recs != []
    ensures var n := |recs| - 1;
      AllAutoDisabled(recs) <==> recs[n].status == AUTO_DISABLED && (recs[..n] == [] || AllAutoDisabled(recs[..n]))
  {
    var front := recs[..|recs| - 1];
    assert forall i :: 0 <= i < |front| ==> front[i] == recs[i];
  }

  method CopyNotAutoDisabled(keys: seq<string>, info: Info)
    returns (remaining: seq<string>, newInfo: Info, deletedCount: nat)
    requires PlainKeys(keys)
    ensures Represents(remaining, newInfo, Survivors(Records(keys, info)))
    ensures PlainKeys(remaining)
    ensures deletedCount == 0 <==> !AnyHas(Records(keys, info), AUTO_DISABLED)
  {
    ghost var recs := Records(keys, info);
    remaining, deletedCount := [], 0;
    var status: map<int, int>, time: map<int, int>, reason: map<int, string> := map[], map[], map[];
    var newIndex := 0;
    hide Represents, Records, AnyHas;
    NothingRepresented(Info(0, status, time, reason));
    for i := 0 to |keys|
      invariant newIndex == |remaining| && PlainKeys(remaining)
      invariant Represents(remaining, Info(0, status, time, reason), Survivors(recs[..i]))
      invariant deletedCount == 0 <==> !AnyHas(recs[..i], AUTO_DISABLED)
    {
      AnyHasStep(recs, i, AUTO_DISABLED);
      assert recs[..i + 1][..i] == recs[..i];
      var st := StatusAt(info.status, i);
      if st == AUTO_DISABLED {
        deletedCount := deletedCount + 1;
      } else {
        ghost var before := Info(0, status, time, reason);
        if st != ENABLED {
          status := status[newIndex := st];
          if i in info.time {
            time := time[newIndex := info.time[i]];
          }
          if i in info.reason {
            reason := reason[newIndex := info.reason[i]];
          }
        }
        ghost var r := if st == ENABLED then Enabled(recs[i]) else recs[i];
        RepresentsNext(remaining, before, Survivors(recs[..i]), Info(0, status, time, reason), r);
        assert Survivors(recs[..i + 1]) == Survivors(recs[..i]) + [r];
        remaining := remaining + [keys[i]];
        newIndex := newIndex + 1;
      }
    }
    assert recs[..|keys|] == recs;
    newInfo := Info(|remaining|, status, time, reason);
    RepresentsAnySize(remaining, Info(0, status, time, reason), Survivors(recs), |remaining|);
  }

  /** The position of a key, or 0 when the list does not hold it. */
  function IndexOf(keys: seq<string>, k: string): (i: nat)
    ensures keys != [] ==> i < |keys|
    ensures k in keys ==> keys[i] == k && k !in keys[..i]
    ensures k !in keys ==> i == 0
  {
    if k !in keys || keys[0] == k then 0 else 1 + IndexOf(keys[1..], k)
  }

  lemma {:induction false} FirstIsUnique(keys: seq<string>, k: string, i: nat)
    requires i < |keys| && keys[i] == k && k !in keys[..i]
    ensures IndexOf(keys, k) == i
  {
    if i > 0 {
      assert keys[..i][0] == keys[0];
      assert keys[1..][..i - 1] == keys[..i][1..];
      FirstIsUnique(keys[1..], k, i - 1);
    }
  }

  method IndexOfKey(keys: seq<string>, usingKey: string) returns (keyIndex: nat)
    ensures keyIndex == IndexOf(keys, usingKey)
  {
    for i := 0 to |keys|
      invariant usingKey !in keys[..i]
    {
      if keys[i] == usingKey {
        FirstIsUnique(keys, usingKey, i);
        return i;
      }
    }
    return 0;
  }

  function KeysOf(recs: seq<Record>): (keys: seq<string>)
    ensures |keys| == |recs| && forall i :: 0 <= i < |recs| ==> keys[i] == recs[i].key
  {
    seq(|recs|, i requires 0 <= i < |recs| => recs[i].key)
  }

  /** A status reported by the relay for the key with this text. */
  function Reported(recs: seq<Record>, usingKey: string, status: int, reason: string, now: int): seq<Record> {
    if recs == [] then recs else
    var i := IndexOf(KeysOf(recs), usingKey);
    recs[i := if status == ENABLED then recs[i].(status := ENABLED)
              else Record(recs[i].key, status, Some(now), Some(reason))]
  }

  /** Where the maps differ at one position only, so do the records. */
  lemma RecordsDifferAt(keys: seq<string>, info: Info, info': Info, i: nat)
    requires i < |keys|
    requires forall j :: 0 <= j < |keys| && j != i ==> RecordAt(keys, info', j) == RecordAt(keys, info, j)
    ensures Records(keys, info') == Records(keys, info)[i := RecordAt(keys, info', i)]
  {
    hide RecordAt;
  }

  function ReportedInfo(info: Info, i: nat, status: int, reason: string, now: int): Info {
    if status == ENABLED then info.(status := info.status - {i})
    else info.(status := info.status[i := status], time := info.time[i := now], reason := info.reason[i := reason])
  }

  lemma KeysOfRecords(keys: seq<string>, info: Info)
    ensures KeysOf(Records(keys, info)) == keys
  {
  }

  lemma ReportKeepsConsistent(keys: seq<string>, info: Info, i: nat, status: int, reason: string, now: int)
    requires i < |keys| && Consistent(keys, info)
    ensures Consistent(keys, ReportedInfo(info, i, status, reason, now))
  {
    hide PlainKeys;
  }

  lemma ReportAtIndex(keys: seq<string>, info: Info, usingKey: string, status: int, reason: string, now: int)
    requires keys != [] && Consistent(keys, info)
    ensures var info' := ReportedInfo(info, IndexOf(keys, usingKey), status, reason, now);
      Consistent(keys, info') && Records(keys, info') == Reported(Records(keys, info), usingKey, status, reason, now)
  {
    hide IndexOf, KeysOf, Records, Consistent;
    var i := IndexOf(keys, usingKey);
    KeysOfRecords(keys, info);
    ReportKeepsConsistent(keys, info, i, status, reason, now);
    var info' := ReportedInfo(info, i, status, reason, now);
    RecordsDifferAt(keys, info, info', i);
  }

  predicate EveryKeyListed(info: Info) {
    forall i :: 0 <= i < info.size ==> i in info.status
  }

  /** A set of positions below n has n members exactly when it has them all. */
  lemma {:induction false} FullSet(s: set<int>, n: nat)
    requires forall i :: i in s ==> 0 <= i < n
    ensures |s| <= n && (|s| == n <==> forall i :: 0 <= i < n ==> i in s)
  {
    if n > 0 {
      FullSet(s - {n - 1}, n - 1);
      assert forall i :: 0 <= i < n - 1 ==> (i in s <==> i in s - {n - 1});
    } else {
      assert forall i | i in s :: 0 <= i < n;
      assert s <= {};
    }
  }

  /** The channel is disabled with its last enabled key, when no entry of the map says enabled. */
  lemma ListedMeansDisabled(keys: seq<string>, info: Info)
    requires Consistent(keys, info) && forall i :: i in info.status ==> info.status[i] != ENABLED
    ensures EveryKeyListed(info) <==> !AnyHas(Records(keys, info), ENABLED)
  {
    var recs := Records(keys, info);
    forall i | 0 <= i < |keys| ensures recs[i].status == ENABLED <==> i !in info.status {
      assert recs[i] == RecordAt(keys, info, i);
    }
  }

  // ---------- appending keys ----------

  function Trimmed(s: string): string {
    Trim(s, IsSpace)
  }

  predicate IsTrimmedOf(k: string, lines: seq<string>) {
    exists i :: 0 <= i < |lines| && Trimmed(lines[i]) == k
  }

  /** Trimmed lines in order of first appearance, without blanks and without those already seen. */
  function FirstSeen(lines: seq<string>, seen: set<string>): (added: seq<string>)
    ensures forall i, j :: 0 <= i < j < |added| ==> added[i] != added[j]
    ensures forall k :: k in added <==> k != "" && k !in seen && IsTrimmedOf(k, lines)
  {
    if lines == [] then [] else
      var n := |lines| - 1;
      var front, k := FirstSeen(lines[..n], seen), Trimmed(lines[n]);
      IsTrimmedOfStep(lines, n);
      if k == "" || k in seen || k in front then front else front + [k]
  }

  lemma IsTrimmedOfStep(lines: seq<string>, n: nat)
    requires n < |lines|
    ensures forall k :: IsTrimmedOf(k, lines[..n + 1]) <==> IsTrimmedOf(k, lines[..n]) || k == Trimmed(lines[n])
    ensures n + 1 == |lines| ==> lines[..n + 1] == lines
  {
    forall k ensures IsTrimmedOf(k, lines[..n + 1]) <==> IsTrimmedOf(k, lines[..n]) || k == Trimmed(lines[n]) {
      if IsTrimmedOf(k, lines[..n]) {
        var i :| 0 <= i < n && Trimmed(lines[..n][i]) == k;
        assert Trimmed(lines[..n + 1][i]) == k;
      }
      if k == Trimmed(lines[n]) {
        assert Trimmed(lines[..n + 1][n]) == k;
      }
      if IsTrimmedOf(k, lines[..n + 1]) && k != Trimmed(lines[n]) {
        var i :| 0 <= i < n + 1 && Trimmed(lines[..n + 1][i]) == k;
        assert Trimmed(lines[..n][i]) == k;
      }
    }
  }

  function TrimmedSet(keys: seq<string>): set<string> {
    set i | 0 <= i < |keys| && Trimmed(keys[i]) != "" :: Trimmed(keys[i])
  }

  function AddedKeys(existing: seq<string>, input: string): seq<string> {
    FirstSeen(Split(input), TrimmedSet(existing))
  }

  function NewRecords(keys: seq<string>): (recs: seq<Record>)
    ensures |recs| == |keys| && forall i :: 0 <= i < |keys| ==> recs[i] == Record(keys[i], ENABLED, None, None)
  {
    seq(|keys|, i requires 0 <= i < |keys| => Record(keys[i], ENABLED, None, None))
  }

  lemma Appended(existing: seq<string>, added: seq<string>, info: Info)
    requires Consistent(existing, info)
    ensures forall size :: Records(existing + added, info.(size := size)) == Records(existing, info) + NewRecords(added)
  {
    forall size ensures Records(existing + added, info.(size := size)) == Records(existing, info) + NewRecords(added) {
      forall i | 0 <= i < |existing + added|
        ensures RecordAt(existing + added, info.(size := size), i) == (Records(existing, info) + NewRecords(added))[i]
      {
      }
    }
  }

  /** No line of the input would turn the key string into something read as a JSON array. */
  predicate OpensNoArray(input: string) {
    forall i :: 0 <= i < |Split(input)| ==> Trimmed(Split(input)[i]) == "" || Trimmed(Split(input)[i])[0] != '['
  }

  lemma {:induction false} TrimLeftIsSuffix(s: string, cut: char -> bool)
    ensures var t := TrimLeft(s, cut); (t != "" ==> !cut(t[0])) && (forall c :: c in t ==> c in s)
  {
    if s != "" && cut(s[0]) {
      TrimLeftIsSuffix(s[1..], cut);
    }
  }

  lemma {:induction false} TrimRightIsPrefix(s: string, cut: char -> bool)
    ensures var t := TrimRight(s, cut); t <= s && (t != "" ==> !cut(t[|t| - 1]))
  {
    if s != "" && cut(s[|s| - 1]) {
      TrimRightIsPrefix(s[..|s| - 1], cut);
    }
  }

  lemma TrimmedEnds(s: string)
    ensures var t := Trimmed(s);
      && (t != "" ==> !IsSpace(t[0]) && !IsSpace(t[|t| - 1]))
      && (forall c :: c in t ==> c in s)
      && Trimmed(t) == t && TrimLeft(t, IsSpace) == t
  {
    TrimLeftIsSuffix(s, IsSpace);
    TrimRightIsPrefix(TrimLeft(s, IsSpace), IsSpace);
    assert Trimmed(s) != "" ==> Trimmed(s)[0] == TrimLeft(s, IsSpace)[0];
  }

  lemma {:induction false} LinesHaveNoBreaks(s: string)
    ensures forall i :: 0 <= i < |Split(s)| ==> '\n' !in Split(s)[i]
  {
    if s != "" {
      LinesHaveNoBreaks(s[1..]);
    }
  }

  lemma AddedKeysArePlain(existing: seq<string>, input: string)
    requires OpensNoArray(input)
    ensures PlainKeys(AddedKeys(existing, input))
  {
    var added := AddedKeys(existing, input);
    forall j | 0 <= j < |added| ensures PlainKey(added[j]) {
      assert added[j] in added;
      assert IsTrimmedOf(added[j], Split(input));
      var i :| 0 <= i < |Split(input)| && Trimmed(Split(input)[i]) == added[j];
      LinesHaveNoBreaks(input);
      TrimmedEnds(Split(input)[i]);
    }
  }

  /** The two loops of the append branch: trim the lines, then drop those already seen. */
  method DedupedNewKeys(existing: seq<string>, input: string) returns (deduped: seq<string>)
    ensures deduped == AddedKeys(existing, input)
  {
    var newKeys, inputKeys := [], Split(input);
    for i := 0 to |inputKeys|
      invariant forall seen :: FirstSeen(newKeys, seen) == FirstSeen(inputKeys[..i], seen)
    {
      var k := Trimmed(inputKeys[i]);
      TrimmedEnds(inputKeys[i]);
      assert inputKeys[..i + 1][..i] == inputKeys[..i];
      if k != "" {
        assert (newKeys + [k])[..|newKeys|] == newKeys;
        newKeys := newKeys + [k];
      }
    }
    assert inputKeys[..|inputKeys|] == inputKeys;
    var seen: set<string> := {};
    for i := 0 to |existing|
      invariant seen == TrimmedSet(existing[..i])
    {
      var normalized := Trimmed(existing[i]);
      TrimmedSetStep(existing, i);
      if normalized != "" {
        seen := seen + {normalized};
      }
    }
    assert existing[..|existing|] == existing;
    ghost var known := seen;
    deduped := [];
    for i := 0 to |newKeys|
      invariant deduped == FirstSeen(newKeys[..i], known)
      invariant forall k :: k in seen <==> k in known || k in deduped
    {
      var normalized := Trimmed(newKeys[i]);
      assert newKeys[..i + 1][..i] == newKeys[..i];
      if normalized != "" && normalized !in seen {
        seen := seen + {normalized};
        deduped := deduped + [normalized];
      }
    }
    assert newKeys[..|newKeys|] == newKeys;
  }

  lemma TrimmedSetStep(keys: seq<string>, i: nat)
    requires i < |keys|
    ensures TrimmedSet(keys[..i + 1])
         == TrimmedSet(keys[..i]) + if Trimmed(keys[i]) == "" then {} else {Trimmed(keys[i])}
  {
    forall k | k in TrimmedSet(keys[..i]) ensures k in TrimmedSet(keys[..i + 1]) {
      var j :| 0 <= j < i && Trimmed(keys[..i][j]) == k;
      assert keys[..i + 1][j] == keys[..i][j];
    }
    forall k | k in TrimmedSet(keys[..i + 1]) && k != Trimmed(keys[i]) ensures k in TrimmedSet(keys[..i]) {
      var j :| 0 <= j < i + 1 && Trimmed(keys[..i + 1][j]) == k;
      assert keys[..i + 1][j] == keys[..i][j];
    }
    assert keys[..i + 1][i] == keys[i];
  }

  lemma RecordsOfSetStatus(keys: seq<string>, info: Info, i: int)
    requires Consistent(keys, info) && 0 <= i < |keys|
    ensures var enabled := Info(info.size, info.status - {i}, info.time - {i}, info.reason - {i});
      Consistent(keys, enabled) && Records(keys, enabled) == After(Records(keys, info), EnableKey(Some(i)))
    ensures var disabled := info.(status := info.status[i := MANUALLY_DISABLED]);
      Consistent(keys, disabled) && Records(keys, disabled) == After(Records(keys, info), DisableKey(Some(i)))
  {
  }

  // ---------- what a caller sees, record by record ----------

  predicate ChangesOnly(recs: seq<Record>, recs': seq<Record>, i: int, r: Record) {
    && |recs'| == |recs| && 0 <= i < |recs| && recs'[i] == r
    && forall j :: 0 <= j < |recs| && j != i ==> recs'[j] == recs[j]
  }

  /** The first position of the key, or the first of all when the list does not hold it. */
  predicate IsPositionOf(recs: seq<Record>, usingKey: string, i: int) {
    && 0 <= i < |recs|
    && (if recs[i].key == usingKey then forall j :: 0 <= j < i ==> recs[j].key != usingKey
        else i == 0 && forall j :: 0 <= j < |recs| ==> recs[j].key != usingKey)
  }

  /** The reported key gets the status, with this time and reason unless it is enabled; the others stay. */
  ghost predicate IsReported(recs: seq<Record>, recs': seq<Record>, usingKey: string, status: int, reason: string,
                             now: int)
  {
    if recs == [] then recs' == [] else
      exists i :: IsPositionOf(recs, usingKey, i) &&
        ChangesOnly(recs, recs', i,
                    if status == ENABLED then Record(recs[i].key, ENABLED, recs[i].time, recs[i].reason)
                    else Record(recs[i].key, status, Some(now), Some(reason)))
  }

  lemma ReportedIsSeen(recs: seq<Record>, usingKey: string, status: int, reason: string, now: int)
    ensures IsReported(recs, Reported(recs, usingKey, status, reason, now), usingKey, status, reason, now)
  {
    if recs != [] {
      var i := IndexOf(KeysOf(recs), usingKey);
      if usingKey in KeysOf(recs) {
        assert forall j :: 0 <= j < i ==> KeysOf(recs)[..i][j] == recs[j].key;
      } else {
        assert forall j :: 0 <= j < |recs| ==> recs[j].key == KeysOf(recs)[j];
      }
      assert IsPositionOf(recs, usingKey, i);
    }
  }

  /** In order, the positions of the records that are not auto-disabled. */
  ghost predicate AreKept(positions: seq<nat>, recs: seq<Record>) {
    && (forall i, j :: 0 <= i < j < |positions| ==> positions[i] < positions[j])
    && (forall i :: 0 <= i < |positions| ==> positions[i] < |recs|)
    && (forall k :: 0 <= k < |recs| ==> (k in positions <==> recs[k].status != AUTO_DISABLED))
  }

  ghost predicate SurviveFrom(positions: seq<nat>, recs: seq<Record>, recs': seq<Record>) {
    && |positions| == |recs'|
    && forall j :: 0 <= j < |positions| ==> positions[j] < |recs| && SurvivesAs(recs[positions[j]], recs'[j])
  }

  /** The records at these positions survive the deletion of the auto-disabled ones, in order. */
  ghost predicate SurviveAt(positions: seq<nat>, recs: seq<Record>, recs': seq<Record>) {
    AreKept(positions, recs) && SurviveFrom(positions, recs, recs')
  }

  predicate SurvivesAs(r: Record, r': Record) {
    r' == if r.status == ENABLED then Record(r.key, ENABLED, None, None) else r
  }

  predicate HasIndex(index: Option<int>, n: int) {
    index.Some? && 0 <= index.value < n
  }

  /** What each action does to the list of records when it is done. */
  ghost predicate HasEffect(recs: seq<Record>, recs': seq<Record>, a: Action) {
    match a
    case DisableKey(index) =>
      && HasIndex(index, |recs|)
      && ChangesOnly(recs, recs', index.value, recs[index.value].(status := MANUALLY_DISABLED))
    case EnableKey(index) =>
      && HasIndex(index, |recs|)
      && ChangesOnly(recs, recs', index.value, Record(recs[index.value].key, ENABLED, None, None))
    case EnableAll => AllEnabled(recs, recs')
    case DisableAll =>
      && |recs'| == |recs|
      && forall i :: 0 <= i < |recs| ==>
           recs'[i] == if recs[i].status == ENABLED then recs[i].(status := MANUALLY_DISABLED) else recs[i]
    case DeleteKey(index) =>
      && HasIndex(index, |recs|) && |recs'| == |recs| - 1
      && forall i :: 0 <= i < |recs'| ==> recs'[i] == if i < index.value then recs[i] else recs[i + 1]
    case DeleteDisabled =>
      if AllAutoDisabled(recs) then AllEnabled(recs, recs') else exists positions :: SurviveAt(positions, recs, recs')
  }

  predicate AllEnabled(recs: seq<Record>, recs': seq<Record>) {
    && |recs'| == |recs|
    && forall i :: 0 <= i < |recs| ==> recs'[i] == Record(recs[i].key, ENABLED, None, None)
  }

  /** Which reply each action gives, from the list alone. */
  ghost predicate Replies(recs: seq<Record>, a: Action, saved: bool, reply: Reply) {
    && (reply == Done ==> saved) && (reply == NotSaved ==> !saved)
    && match a
       case DisableKey(index) => RepliesToIndex(index, |recs|, reply) && reply != LastKey
       case EnableKey(index) => RepliesToIndex(index, |recs|, reply) && reply != LastKey
       case EnableAll => reply == Done || reply == NotSaved
       case DisableAll => RepliesToSearch(forall i :: 0 <= i < |recs| ==> recs[i].status != ENABLED, reply)
       case DeleteKey(index) =>
         && RepliesToIndex(index, |recs|, reply)
         && (reply == LastKey <==> HasIndex(index, |recs|) && |recs| == 1)
       case DeleteDisabled => RepliesToSearch(forall i :: 0 <= i < |recs| ==> recs[i].status != AUTO_DISABLED, reply)
  }

  predicate RepliesToIndex(index: Option<int>, n: int, reply: Reply) {
    && (reply == NoIndex <==> index == None)
    && (reply == OutOfRange <==> index.Some? && !(0 <= index.value < n))
    && (HasIndex(index, n) ==> reply == Done || reply == NotSaved || reply == LastKey)
  }

  predicate RepliesToSearch(nothing: bool, reply: Reply) {
    (reply == NothingToDo <==> nothing) && (reply == Done || reply == NotSaved || reply == NothingToDo)
  }

  /** An action replies as it should, has its effect when it is done, and changes nothing otherwise. */
  ghost predicate IsManaged(recs: seq<Record>, recs': seq<Record>, a: Action, saved: bool, reply: Reply) {
    && Replies(recs, a, saved, reply)
    && if reply == Done then HasEffect(recs, recs', a) else recs' == recs
  }

  lemma KeptOneMore(front: seq<nat>, recs: seq<Record>, n: nat)
    requires n + 1 == |recs| && AreKept(front, recs[..n])
    ensures AreKept(if recs[n].status == AUTO_DISABLED then front else front + [n], recs)
  {
    assert n !in front;
    forall k | 0 <= k < n ensures k in front <==> recs[k].status != AUTO_DISABLED {
      assert recs[..n][k] == recs[k];
    }
  }

  lemma SurviveOneMore(front: seq<nat>, recs: seq<Record>, n: nat)
    requires n + 1 == |recs| && SurviveFrom(front, recs[..n], Survivors(recs[..n]))
    ensures SurviveFrom(if recs[n].status == AUTO_DISABLED then front else front + [n], recs, Survivors(recs))
  {
    SurvivorsOneMore(recs, n);
    hide Survivors, SurvivesAs;
    forall j | 0 <= j < |front| ensures SurvivesAs(recs[front[j]], Survivors(recs)[j]) {
      assert recs[..n][front[j]] == recs[front[j]];
    }
  }

  lemma {:induction false} SurvivorPositions(recs: seq<Record>) returns (positions: seq<nat>)
    ensures SurviveAt(positions, recs, Survivors(recs))
  {
    if recs == [] {
      return [];
    }
    hide AreKept, SurviveFrom, Survivors;
    var n := |recs| - 1;
    var front := SurvivorPositions(recs[..n]);
    KeptOneMore(front, recs, n);
    SurviveOneMore(front, recs, n);
    positions := if recs[n].status == AUTO_DISABLED then front else front + [n];
  }

  lemma SurvivorsOneMore(recs: seq<Record>, n: nat)
    requires n + 1 == |recs|
    ensures
      if recs[n].status == AUTO_DISABLED then Survivors(recs) == Survivors(recs[..n])
      else |Survivors(recs)| == |Survivors(recs[..n])| + 1 && Survivors(recs[..n]) < Survivors(recs)
           && SurvivesAs(recs[n], Survivors(recs)[|Survivors(recs[..n])|])
  {
  }

  lemma AfterHasEffect(recs: seq<Record>, a: Action)
    requires ReplyOf(recs, a) == Done
    ensures HasEffect(recs, After(recs, a), a)
  {
    hide Survivors, SurviveAt, AllAutoDisabled, AnyHas;
    if a == DeleteDisabled && !AllAutoDisabled(recs) {
      var positions := SurvivorPositions(recs);
    }
  }

  lemma AnswerReplies(recs: seq<Record>, a: Action, saved: bool)
    ensures Replies(recs, a, saved, Answer(recs, a, saved))
  {
  }

  lemma AfterIsSeen(recs: seq<Record>, a: Action, saved: bool)
    ensures IsManaged(recs, if saved then After(recs, a) else recs, a, saved, Answer(recs, a, saved))
  {
    AnswerReplies(recs, a, saved);
    if ReplyOf(recs, a) == Done {
      AfterHasEffect(recs, a);
    }
    hide Replies, HasEffect;
  }

  // ---------- the stored row and the handlers ----------

  /** The stored row of one multi-key channel. `saved` says whether the database accepts the write. */
  class Channel {
    var key: string
    var info: Info
    var channelStatus: int

    ghost predicate Valid()
      reads this
    {
      Consistent(GetKeys(key), info)
    }

    ghost function Contents(): seq<Record>
      reads this
    {
      Records(GetKeys(key), info)
    }

    /** Channel.Update: the size follows the key string, statuses past the end are dropped, and an
        empty key string leaves the stored one alone. */
    method Update(newKey: string, newInfo: Info, saved: bool)
      modifies this
      ensures channelStatus == old(channelStatus)
      ensures !saved ==> key == old(key) && info == old(info)
      ensures saved ==> key == (if newKey != "" then newKey else old(key))
      ensures saved ==> info == newInfo.(
        size := |GetKeys(key)|,
        status := map i | i in newInfo.status && i < |GetKeys(key)| :: newInfo.status[i])
    {
      var keyStr := if newKey != "" then newKey else key;
      var size := |GetKeys(keyStr)|;
      var status := map i | i in newInfo.status && i < size :: newInfo.status[i];
      if saved {
        if newKey != "" {
          key := newKey;
        }
        info := newInfo.(size := size, status := status);
      }
    }

    /** Saving a changed info next to the unchanged key string. */
    method SaveInfo(newInfo: Info, ghost recs: seq<Record>, saved: bool)
      requires Consistent(GetKeys(key), newInfo) && Records(GetKeys(key), newInfo) == recs
      requires Valid()
      modifies this
      ensures channelStatus == old(channelStatus)
      ensures Valid() && Contents() == if saved then recs else old(Contents())
    {
      Update(key, newInfo, saved);
      if saved {
        assert info.status == newInfo.status;
      }
    }

    method SetStatus(index: Option<int>, enable: bool, saved: bool) returns (reply: Reply)
      requires Valid()
      modifies this
      ensures channelStatus == old(channelStatus)
      ensures Valid()
      ensures var a := if enable then EnableKey(index) else DisableKey(index);
        && Contents() == (if saved then After(old(Contents()), a) else old(Contents()))
        && reply == Answer(old(Contents()), a, saved)
    {
      if index == None {
        return NoIndex;
      }
      var keyIndex := index.value;
      if keyIndex < 0 || keyIndex >= info.size {
        return OutOfRange;
      }
      var newInfo := if enable
        then Info(info.size, info.status - {keyIndex}, info.time - {keyIndex}, info.reason - {keyIndex})
        else info.(status := info.status[keyIndex := MANUALLY_DISABLED]);
      ghost var a := if enable then EnableKey(index) else DisableKey(index);
      RecordsOfSetStatus(GetKeys(key), info, keyIndex);
      hide Records, Consistent;
      SaveInfo(newInfo, After(Contents(), a), saved);
      return if saved then Done else NotSaved;
    }

    method EnableAllKeys(saved: bool) returns (reply: Reply)
      requires Valid()
      modifies this
      ensures channelStatus == old(channelStatus)
      ensures Valid()
      ensures Contents() == if saved then After(old(Contents()), EnableAll) else old(Contents())
      ensures reply == Answer(old(Contents()), EnableAll, saved)
    {
      var newInfo := Info(info.size, map[], map[], map[]);
      assert Records(GetKeys(key), newInfo) == MapRecords(Contents(), Enabled);
      SaveInfo(newInfo, MapRecords(Contents(), Enabled), saved);
      return if saved then Done else NotSaved;
    }

    method DisableAllKeys(saved: bool) returns (reply: Reply)
      requires Valid()
      modifies this
      ensures channelStatus == old(channelStatus)
      ensures Valid()
      ensures Contents() == if saved then After(old(Contents()), DisableAll) else old(Contents())
      ensures reply == Answer(old(Contents()), DisableAll, saved)
    {
      ghost var recs := Contents();
      var status, disabledCount := DisableStatuses(GetKeys(key), info);
      if disabledCount == 0 {
        return NothingToDo;
      }
      SaveInfo(info.(status := status), After(recs, DisableAll), saved);
      return if saved then Done else NotSaved;
    }

    /** Both delete actions end this way: a new key string and a rebuilt info. */
    method SaveKeys(remaining: seq<string>, newInfo: Info, ghost recs: seq<Record>, saved: bool)
      requires Valid() && PlainKeys(remaining) && Represents(remaining, newInfo, recs)
      modifies this
      ensures channelStatus == old(channelStatus)
      ensures Valid()
      ensures Contents() ==
        if !saved then old(Contents()) else if recs == [] then MapRecords(old(Contents()), Enabled) else recs
    {
      GetKeysUndoesJoin(remaining);
      ghost var before := Contents();
      Update(Join(remaining), newInfo, saved);
      if saved && recs == [] {
        assert Contents() == MapRecords(before, Enabled);
      } else if saved {
        assert info.status == newInfo.status;
      }
    }

    method DeleteOneKey(index: Option<int>, saved: bool) returns (reply: Reply)
      requires Valid()
      modifies this
      ensures channelStatus == old(channelStatus)
      ensures Valid()
      ensures Contents() == if saved then After(old(Contents()), DeleteKey(index)) else old(Contents())
      ensures reply == Answer(old(Contents()), DeleteKey(index), saved)
    {
      if index == None {
        return NoIndex;
      }
      var keyIndex := index.value;
      if keyIndex < 0 || keyIndex >= info.size {
        return OutOfRange;
      }
      var remaining, newInfo := CopyWithout(GetKeys(key), info, keyIndex);
      if |remaining| == 0 {
        return LastKey;
      }
      SaveKeys(remaining, newInfo, WithoutIndex(Contents(), keyIndex), saved);
      return if saved then Done else NotSaved;
    }

    method DeleteDisabledKeys(saved: bool) returns (reply: Reply)
      requires Valid()
      modifies this
      ensures channelStatus == old(channelStatus)
      ensures Valid()
      ensures Contents() == if saved then After(old(Contents()), DeleteDisabled) else old(Contents())
      ensures reply == Answer(old(Contents()), DeleteDisabled, saved)
    {
      var remaining, newInfo, deletedCount := CopyNotAutoDisabled(GetKeys(key), info);
      if deletedCount == 0 {
        return NothingToDo;
      }
      NoSurvivors(Contents());
      SaveKeys(remaining, newInfo, Survivors(Contents()), saved);
      return if saved then Done else NotSaved;
    }

    /** handlerMultiKeyUpdate: the relay reports a key by its text; an unknown key means the first one.
        Enabling keeps the old time and reason, which is where leftovers come from. When every key has
        an entry in the status map, the whole channel is disabled. */
    method HandlerMultiKeyUpdate(usingKey: string, status: int, reason: string, now: int)
      requires Valid()
      modifies this
      ensures Valid()
      ensures IsReported(old(Contents()), Contents(), usingKey, status, reason, now)
      ensures Contents() == Reported(old(Contents()), usingKey, status, reason, now)
      ensures channelStatus == (if Contents() == [] then status
                                else if EveryKeyListed(info) then AUTO_DISABLED else old(channelStatus))
    {
      var keys := GetKeys(key);
      ReportedIsSeen(Contents(), usingKey, status, reason, now);
      hide IsReported;
      if |keys| == 0 {
        channelStatus := status;
        return;
      }
      var keyIndex := IndexOfKey(keys, usingKey);
      ReportAtIndex(keys, info, usingKey, status, reason, now);
      if status == ENABLED {
        info := info.(status := info.status - {keyIndex});
      } else {
        info := info.(status := info.status[keyIndex := status],
                      time := info.time[keyIndex := now], reason := info.reason[keyIndex := reason]);
      }
      hide Records, Reported;
      FullSet(info.status.Keys, info.size);
      if |info.status| >= info.size {
        channelStatus := AUTO_DISABLED;
      }
    }

    /** UpdateChannel in append mode: the lines of the input that are not there yet, after the old keys. */
    method AppendToKeys(input: string, saved: bool)
      requires Valid() && key != "" && OpensNoArray(input)
      modifies this
      ensures channelStatus == old(channelStatus)
      ensures Valid()
      ensures Contents() ==
        if saved then old(Contents()) + NewRecords(AddedKeys(old(GetKeys(key)), input)) else old(Contents())
    {
      var existing := GetKeys(key);
      var added := DedupedNewKeys(existing, input);
      AddedKeysArePlain(existing, input);
      var allKeys := existing + added;
      GetKeysUndoesJoin(allKeys);
      Appended(existing, added, info);
      Update(Join(allKeys), info, saved);
      if saved {
        assert info.status == old(info).status;
      }
    }

    /** A channel without keys takes the input as it is. */
    method AppendKeys(input: string, saved: bool)
      requires Valid() && OpensNoArray(input)
      modifies this
      ensures channelStatus == old(channelStatus)
      ensures !saved ==> Contents() == old(Contents())
      ensures saved && old(key) == "" ==> key == input && info.size == |GetKeys(input)|
      ensures saved && old(key) != "" ==>
        Valid() && Contents() == old(Contents()) + NewRecords(AddedKeys(old(GetKeys(key)), input))
    {
      if key == "" {
        Update(input, info, saved);
      } else {
        AppendToKeys(input, saved);
      }
    }

    method ManageMultiKeys(a: Action, saved: bool) returns (reply: Reply)
      requires Valid()
      modifies this
      ensures channelStatus == old(channelStatus)
      ensures Valid()
      ensures IsManaged(old(Contents()), Contents(), a, saved, reply)
      ensures Contents() == if saved then After(old(Contents()), a) else old(Contents())
      ensures reply == Answer(old(Contents()), a, saved)
    {
      AfterIsSeen(Contents(), a, saved);
      hide IsManaged;
      match a
      case DisableKey(index) => reply := SetStatus(index, false, saved);
      case EnableKey(index) => reply := SetStatus(index, true, saved);
      case EnableAll => reply := EnableAllKeys(saved);
      case DisableAll => reply := DisableAllKeys(saved);
      case DeleteKey(index) => reply := DeleteOneKey(index, saved);
      case DeleteDisabled => reply := DeleteDisabledKeys(saved);
    }
  }

  lemma AnyHasStep(recs: seq<Record>, i: nat, status: int)
    requires i < |recs|
    ensures AnyHas(recs[..i + 1], status) <==> AnyHas(recs[..i], status) || recs[i].status == status
  {
    if AnyHas(recs[..i], status) {
      var j :| 0 <= j < i && recs[..i][j].status == status;
      assert recs[..i + 1][j].status == status;
    }
    if recs[i].status == status {
      assert recs[..i + 1][i].status == status;
    }
    if AnyHas(recs[..i + 1], status) && recs[i].status != status {
      var j :| 0 <= j < i + 1 && recs[..i + 1][j].status == status;
      assert recs[..i][j].status == status;
    }
  }

  ghost function Answer(recs: seq<Record>, a: Action, saved: bool): Reply {
    if ReplyOf(recs, a) == Done && !saved then NotSaved else ReplyOf(recs, a)
  }

  // ---------- what an administrator sees ----------

  datatype Shown = Shown(key: string, status: int, time: int, reason: string)

  function Show(r: Record): Shown {
    if r.status == ENABLED then Shown(r.key, ENABLED, 0, "") else
      Shown(r.key, r.status,
            match r.time { case Some(t) => t case None => 0 },
            match r.reason { case Some(why) => why case None => "" })
  }

  function Visible(recs: seq<Record>): (shown: seq<Shown>)
    ensures |shown| == |recs| && forall i :: 0 <= i < |recs| ==> shown[i] == Show(recs[i])
  {
    seq(|recs|, i requires 0 <= i < |recs| => Show(recs[i]))
  }

  function Filter(list: seq<Shown>): seq<Shown> {
    if list == [] then [] else
      Filter(list[..|list| - 1]) + if list[|list| - 1].status == AUTO_DISABLED then [] else [list[|list| - 1]]
  }

  /** The same actions on a plain list of what is shown. */
  function PlainAfter(list: seq<Shown>, a: Action): seq<Shown> {
    match a
    case DisableKey(index) =>
      if CheckIndex(index, |list|) == Done then list[index.value := list[index.value].(status := MANUALLY_DISABLED)]
      else list
    case EnableKey(index) =>
      if CheckIndex(index, |list|) == Done then list[index.value := Shown(list[index.value].key, ENABLED, 0, "")]
      else list
    case EnableAll => seq(|list|, i requires 0 <= i < |list| => Shown(list[i].key, ENABLED, 0, ""))
    case DisableAll => seq(|list|, i requires 0 <= i < |list| =>
        if list[i].status == ENABLED then list[i].(status := MANUALLY_DISABLED) else list[i])
    case DeleteKey(index) =>
      if CheckIndex(index, |list|) == Done && |list| > 1 then WithoutIndex(list, index.value) else list
    case DeleteDisabled => Filter(list)
  }

  /** An enabled key that still carries an old time or reason. */
  predicate Leftover(r: Record) {
    r.status == ENABLED && Show(r.(status := MANUALLY_DISABLED)) != Shown(r.key, MANUALLY_DISABLED, 0, "")
  }

  /** Exactly when the stored maps behave like the plain list. */
  predicate BehavesPlainly(recs: seq<Record>, a: Action) {
    match a
    case DisableKey(index) => CheckIndex(index, |recs|) == Done ==> !Leftover(recs[index.value])
    case DisableAll => forall i :: 0 <= i < |recs| ==> !Leftover(recs[i])
    case DeleteDisabled => !AllAutoDisabled(recs)
    case _ => true
  }

  lemma VisibleOfConcat(a: seq<Record>, b: seq<Record>)
    ensures Visible(a + b) == Visible(a) + Visible(b)
  {
  }

  lemma {:induction false} SurvivorsAreFiltered(recs: seq<Record>)
    ensures Visible(Survivors(recs)) == Filter(Visible(recs))
  {
    if recs != [] {
      var n := |recs| - 1;
      SurvivorsAreFiltered(recs[..n]);
      assert Visible(recs)[..n] == Visible(recs[..n]);
      var kept := if recs[n].status == AUTO_DISABLED then []
                  else if recs[n].status == ENABLED then [Enabled(recs[n])] else [recs[n]];
      VisibleOfConcat(Survivors(recs[..n]), kept);
      assert Visible(kept) == if recs[n].status == AUTO_DISABLED then [] else [Show(recs[n])];
    }
  }

  lemma {:induction false} NothingToFilter(list: seq<Shown>)
    requires forall i :: 0 <= i < |list| ==> list[i].status != AUTO_DISABLED
    ensures Filter(list) == list
  {
    if list != [] {
      NothingToFilter(list[..|list| - 1]);
    }
  }

  lemma {:induction false} EverythingFiltered(list: seq<Shown>)
    requires forall i :: 0 <= i < |list| ==> list[i].status == AUTO_DISABLED
    ensures Filter(list) == []
  {
    if list != [] {
      EverythingFiltered(list[..|list| - 1]);
    }
  }

  /** One action on the stored maps shows the same as on the plain list, exactly in these cases. */
  lemma BehavesPlainlyExactly(recs: seq<Record>, a: Action)
    ensures Visible(After(recs, a)) == PlainAfter(Visible(recs), a) <==> BehavesPlainly(recs, a)
  {
    var left, right := Visible(After(recs, a)), PlainAfter(Visible(recs), a);
    match a
    case DisableKey(index) =>
      if CheckIndex(index, |recs|) == Done {
        assert left[index.value] == right[index.value] <==> !Leftover(recs[index.value]);
        assert forall i :: 0 <= i < |recs| && i != index.value ==> left[i] == right[i];
      }
    case EnableKey(index) => assert left == right;
    case EnableAll => assert left == right;
    case DisableAll =>
      assert |left| == |right| == |recs|;
      forall i | 0 <= i < |recs| ensures left[i] == right[i] <==> !Leftover(recs[i]) {
        if !AnyHas(recs, ENABLED) {
          assert recs[i].status != ENABLED;
        }
      }
    case DeleteKey(index) => assert left == right;
    case DeleteDisabled =>
      SurvivorsAreFiltered(recs);
      if AllAutoDisabled(recs) {
        assert AnyHas(recs, AUTO_DISABLED) by { assert recs[0].status == AUTO_DISABLED; }
        EverythingFiltered(Visible(recs));
      } else if !AnyHas(recs, AUTO_DISABLED) {
        NothingToFilter(Visible(recs));
      }
  }

  /** The one shape of row that DeleteDisabled treats otherwise: the deleted key comes back enabled. */
  lemma LastAutoDisabledKeyComesBack()
    ensures var recs := [Record("k", AUTO_DISABLED, Some(7), Some("quota"))];
      && Visible(After(recs, DeleteDisabled)) == [Shown("k", ENABLED, 0, "")]
      && PlainAfter(Visible(recs), DeleteDisabled) == []
  {
    var recs := [Record("k", AUTO_DISABLED, Some(7), Some("quota"))];
    assert recs[0].status == AUTO_DISABLED;
    assert AnyHas(recs, AUTO_DISABLED) && AllAutoDisabled(recs);
    assert After(recs, DeleteDisabled) == [Enabled(recs[0])];
    EverythingFiltered(Visible(recs));
  }

  /** The other case: a key that the relay enables again keeps what it was disabled for, and a manual disable shows it
      again, exactly when there was something to show. */
  lemma ReenabledKeyShowsItsPast(recs: seq<Record>, usingKey: string, now: int)
    requires recs != []
    ensures var i := IndexOf(KeysOf(recs), usingKey);
      var enabled := Reported(recs, usingKey, ENABLED, "", now);
      var past := Show(recs[i].(status := MANUALLY_DISABLED));
      && Visible(enabled)[i] == Shown(recs[i].key, ENABLED, 0, "")
      && Visible(After(enabled, DisableKey(Some(i))))[i] == past
      && (BehavesPlainly(enabled, DisableKey(Some(i))) <==> past.time == 0 && past.reason == "")
  {
    hide IndexOf;
  }

  // ---------- whole runs ----------

  predicate Tidy(recs: seq<Record>) {
    forall i :: 0 <= i < |recs| ==> !Leftover(recs[i])
  }

  lemma {:induction false} SurvivorsAreTidy(recs: seq<Record>)
    ensures Tidy(Survivors(recs))
  {
    if recs != [] {
      SurvivorsAreTidy(recs[..|recs| - 1]);
    }
  }

  lemma ActionsKeepTidy(recs: seq<Record>, a: Action)
    requires Tidy(recs)
    ensures Tidy(After(recs, a))
  {
    if a == DeleteDisabled {
      SurvivorsAreTidy(recs);
    }
  }

  function Run(recs: seq<Record>, actions: seq<Action>): seq<Record>
    decreases |actions|
  {
    if actions == [] then recs else Run(After(recs, actions[0]), actions[1..])
  }

  function PlainRun(list: seq<Shown>, actions: seq<Action>): seq<Shown>
    decreases |actions|
  {
    if actions == [] then list else PlainRun(PlainAfter(list, actions[0]), actions[1..])
  }

  /** Seen from the list alone: no DeleteDisabled meets a list that is auto-disabled throughout. */
  predicate NeverDeletesAll(list: seq<Shown>, actions: seq<Action>)
    decreases |actions|
  {
    actions == [] ||
    (&& (actions[0] == DeleteDisabled && list != [] ==> exists i :: 0 <= i < |list| && list[i].status != AUTO_DISABLED)
     && NeverDeletesAll(PlainAfter(list, actions[0]), actions[1..]))
  }

  lemma {:induction false} RowIsNeverEmptied(recs: seq<Record>, actions: seq<Action>)
    requires recs != []
    ensures Run(recs, actions) != []
    decreases |actions|
  {
    if actions != [] {
      NoSurvivors(recs);
      RowIsNeverEmptied(After(recs, actions[0]), actions[1..]);
    }
  }

  lemma {:induction false} EmptyListStaysEmpty(actions: seq<Action>)
    ensures PlainRun([], actions) == []
    decreases |actions|
  {
    if actions != [] {
      EmptyListStaysEmpty(actions[1..]);
    }
  }

  /** Without leftovers at the start, the row shows what the plain list shows after exactly these runs. */
  lemma {:induction false} RowRefinesPlainList(recs: seq<Record>, actions: seq<Action>)
    requires Tidy(recs)
    ensures Visible(Run(recs, actions)) == PlainRun(Visible(recs), actions) <==> NeverDeletesAll(Visible(recs), actions)
    decreases |actions|
  {
    if actions != [] {
      var a, list := actions[0], Visible(recs);
      if a == DeleteDisabled && list != [] {
        DeletesAllExactlyWhen(recs);
      }
      BehavesPlainlyExactly(recs, a);
      if BehavesPlainly(recs, a) {
        ActionsKeepTidy(recs, a);
        RowRefinesPlainList(After(recs, a), actions[1..]);
      } else {
        EverythingFiltered(list);
        RowIsNeverEmptied(recs, actions);
        EmptyListStaysEmpty(actions[1..]);
      }
    }
  }

  lemma DeletesAllExactlyWhen(recs: seq<Record>)
    requires recs != []
    ensures AllAutoDisabled(recs) <==> forall i :: 0 <= i < |recs| ==> Visible(recs)[i].status == AUTO_DISABLED
  {
    if !AllAutoDisabled(recs) {
      var i :| 0 <= i < |recs| && recs[i].status != AUTO_DISABLED;
      assert Visible(recs)[i].status != AUTO_DISABLED;
    }
  }
}
