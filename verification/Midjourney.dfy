/**
 The Midjourney poller: each response item is compared with the stored task, copied over it, and a
 task found failed is refunded, but only if its new row was stored.
 */
module Midjourney {
  import opened Balances
  import opened Outcomes

  datatype Row = Row(user: nat, quota: int, code: int, progress: string, promptEn: string, state: string,
                     submitTime: int, startTime: int, finishTime: int, imageUrl: string, status: string,
                     failReason: string, properties: string, buttons: string, videoUrl: string, videoUrls: string)

  /** One item of the upstream's answer. Nested JSON is given as the text it is stored as, an absent
      or empty list of video addresses as the empty text. */
  datatype Item = Item(progress: string, promptEn: string, state: string, submitTime: int, startTime: int,
                       finishTime: int, imageUrl: string, status: string, failReason: string,
                       properties: Option<string>, buttons: Option<string>, videoUrl: string, videoUrls: string)

  const FINISHED := "100%"
  const FAILED := "FAILURE"
  const TIMEOUT_MS := 3600000
  const TIMEOUT_REASON := "上游任务超时（超过1小时）"

  predicate NeedsUpdate(row: Row, item: Item) {
    if row.code != 1 then true
    else if row.progress != item.progress then true
    else if row.promptEn != item.promptEn then true
    else if row.state != item.state then true
    else if row.submitTime != item.submitTime then true
    else if row.startTime != item.startTime then true
    else if row.finishTime != item.finishTime then true
    else if row.imageUrl != item.imageUrl then true
    else if row.status != item.status then true
    else if row.failReason != item.failReason then true
    else if row.progress != FINISHED && item.failReason != "" then true
    else if row.videoUrl != item.videoUrl then true
    else if item.videoUrls != "" then row.videoUrls != item.videoUrls
    else row.videoUrls != ""
  }

  /** A task that has run for more than an hour without finishing has failed, whatever the item says. */
  function Judged(row: Row, item: Item, nowMs: int): Item {
    if nowMs - row.submitTime > TIMEOUT_MS && row.progress != FINISHED
    then item.(failReason := TIMEOUT_REASON, status := FAILED) else item
  }

  function Copied(row: Row, item: Item): Row {
    Row(row.user, row.quota, 1, item.progress, item.promptEn, item.state, item.submitTime, item.startTime,
        item.finishTime, item.imageUrl, item.status, item.failReason,
        match item.properties { case Some(p) => p case None => row.properties },
        match item.buttons { case Some(b) => b case None => row.buttons },
        item.videoUrl, item.videoUrls)
  }

  /** The copied task is a failed one: unfinished with a reason, or finished as a failure. */
  predicate Failed(row: Row) {
    || (row.progress != FINISHED && row.failReason != "")
    || (row.progress == FINISHED && row.status == FAILED)
  }

  function UpdatedRow(row: Row, given: Item, nowMs: int): Row {
    var item := Judged(row, given, nowMs);
    if !NeedsUpdate(row, item) then row
    else if Failed(Copied(row, item)) then Copied(row, item).(progress := FINISHED)
    else Copied(row, item)
  }

  predicate Refunds(row: Row, given: Item, nowMs: int, stored: bool) {
    var item := Judged(row, given, nowMs);
    NeedsUpdate(row, item) && Failed(Copied(row, item)) && row.quota != 0 && stored
  }

  /** The comparison asks for a write exactly when copying would change something it looks at, or when
      an unfinished task comes with a failure reason. */
  lemma NeedsUpdateExactlyWhen(row: Row, item: Item)
    ensures NeedsUpdate(row, item) <==>
      || Copied(row, item).(properties := row.properties, buttons := row.buttons) != row
      || (row.progress != FINISHED && item.failReason != "")
  {
    if !NeedsUpdate(row, item) {
      assert Copied(row, item).(properties := row.properties, buttons := row.buttons) == row;
    }
  }

  // ---------- what a caller sees, field by field ----------

  /** An unfinished task more than an hour after its submission. */
  predicate TimedOut(was: Row, nowMs: int) {
    nowMs - was.submitTime > 3600000 && was.progress != "100%"
  }

  /** The task already is as the item says, in everything that is compared. */
  predicate SaysNothingNew(was: Row, item: Item) {
    && was.code == 1 && was.progress == item.progress && was.promptEn == item.promptEn && was.state == item.state
    && was.submitTime == item.submitTime && was.startTime == item.startTime && was.finishTime == item.finishTime
    && was.imageUrl == item.imageUrl && was.status == item.status && was.failReason == item.failReason
    && was.videoUrl == item.videoUrl && was.videoUrls == item.videoUrls
    && (was.progress == "100%" || item.failReason == "")
  }

  /** The item itself is a failure: unfinished with a reason, or finished and failed. */
  predicate FailsItem(item: Item) {
    (item.progress != "100%" && item.failReason != "") || (item.progress == "100%" && item.status == "FAILURE")
  }

  /** The task takes over everything the item says, except what it keeps when the item is silent. */
  predicate TakesOver(was: Row, row: Row, item: Item) {
    && row.user == was.user && row.quota == was.quota && row.code == 1
    && row.promptEn == item.promptEn && row.state == item.state && row.submitTime == item.submitTime
    && row.startTime == item.startTime && row.finishTime == item.finishTime && row.imageUrl == item.imageUrl
    && row.videoUrl == item.videoUrl && row.videoUrls == item.videoUrls
    && row.properties == (if item.properties.Some? then item.properties.value else was.properties)
    && row.buttons == (if item.buttons.Some? then item.buttons.value else was.buttons)
  }

  /** All that one answer does, on the task (`was`, then `row`) and on the books. After an hour an unfinished task is
      failed with the timeout reason whatever the item says. Otherwise the item's own status and reason are taken, and
      only a failure of its own is one. An answer that says nothing new does nothing. */
  ghost predicate IsAnswered(l: Ledger, l': Ledger, id: nat, was: Row, row: Row, item: Item, nowMs: int,
                             stored: bool, credited: bool)
    requires id < |l.rows| == |l.refunds|
  {
    if TimedOut(was, nowMs) then
      && TakesOver(was, row, item)
      && row.status == "FAILURE" && row.failReason == TIMEOUT_REASON && row.progress == "100%"
      && IsBooked(l, l', id, row, stored, true, credited)
    else if SaysNothingNew(was, item) then
      row == was && l' == l
    else
      && TakesOver(was, row, item)
      && row.status == item.status && row.failReason == item.failReason
      && row.progress == (if FailsItem(item) then "100%" else item.progress)
      && IsBooked(l, l', id, row, stored, FailsItem(item), credited)
  }

  /** The row is written when the database takes it, and only then is a charged failure refunded. */
  ghost predicate IsBooked(l: Ledger, l': Ledger, id: nat, row: Row, stored: bool, fails: bool, credited: bool)
    requires id < |l.rows| == |l.refunds|
  {
    var refunds := stored && fails && row.quota != 0;
    && l'.rows == (if stored then l.rows[id := row] else l.rows)
    && l'.refunds == (if refunds then l.refunds[id := l.refunds[id] + 1] else l.refunds)
    && forall user :: Balance(l'.balances, user) == Balance(l.balances, user) +
         if user == row.user && refunds && credited && row.quota >= 0 then row.quota else 0
  }

  lemma AnswerIsSeen(l: Ledger, id: nat, was: Row, item: Item, nowMs: int, stored: bool, credited: bool)
    requires id < |l.rows| == |l.refunds|
    ensures IsAnswered(l, Updated(l, id, was, item, nowMs, stored, credited), id,
                       was, UpdatedRow(was, item, nowMs), item, nowMs, stored, credited)
  {
    if TimedOut(was, nowMs) {
      assert TIMEOUT_REASON != "";
    } else {
      assert NeedsUpdate(was, item) <==> !SaysNothingNew(was, item);
      hide NeedsUpdate, SaysNothingNew;
    }
  }

  // ---------- the code ----------

  class Task {
    const user: nat
    const quota: int
    var code: int
    var progress: string
    var promptEn: string
    var state: string
    var submitTime: int
    var startTime: int
    var finishTime: int
    var imageUrl: string
    var status: string
    var failReason: string
    var properties: string
    var buttons: string
    var videoUrl: string
    var videoUrls: string

    constructor (row: Row)
      ensures View() == row
    {
      user, quota, code, progress, promptEn := row.user, row.quota, row.code, row.progress, row.promptEn;
      state, submitTime, startTime, finishTime := row.state, row.submitTime, row.startTime, row.finishTime;
      imageUrl, status, failReason := row.imageUrl, row.status, row.failReason;
      properties, buttons, videoUrl, videoUrls := row.properties, row.buttons, row.videoUrl, row.videoUrls;
    }

    function View(): Row
      reads this
    {
      Row(user, quota, code, progress, promptEn, state, submitTime, startTime, finishTime, imageUrl, status,
          failReason, properties, buttons, videoUrl, videoUrls)
    }

    method CopyProgress(item: Item)
      modifies `code, `progress, `promptEn, `state, `submitTime, `startTime, `finishTime
      ensures code == 1 && progress == item.progress && promptEn == item.promptEn && state == item.state
      ensures submitTime == item.submitTime && startTime == item.startTime && finishTime == item.finishTime
    {
      code := 1;
      progress := item.progress;
      promptEn := item.promptEn;
      state := item.state;
      submitTime := item.submitTime;
      startTime := item.startTime;
      finishTime := item.finishTime;
    }

    method CopyResult(item: Item)
      modifies `imageUrl, `status, `failReason, `properties, `buttons, `videoUrl, `videoUrls
      ensures imageUrl == item.imageUrl && status == item.status && failReason == item.failReason
      ensures properties == (match item.properties case Some(p) => p case None => old(properties))
      ensures buttons == (match item.buttons case Some(b) => b case None => old(buttons))
      ensures videoUrl == item.videoUrl && videoUrls == item.videoUrls
    {
      imageUrl := item.imageUrl;
      status := item.status;
      failReason := item.failReason;
      if item.properties.Some? {
        properties := item.properties.value;
      }
      if item.buttons.Some? {
        buttons := item.buttons.value;
      }
      videoUrl := item.videoUrl;
      if item.videoUrls != "" {
        videoUrls := item.videoUrls;
      } else {
        videoUrls := "";
      }
    }

    method CopyFrom(item: Item)
      modifies this
      ensures View() == Copied(old(View()), item)
    {
      CopyProgress(item);
      CopyResult(item);
    }
  }

  class Database {
    var rows: seq<Row>
    var balances: map<nat, int>
    ghost var refunds: seq<nat>

    ghost function View(): Ledger
      reads this
    {
      Ledger(rows, balances, refunds)
    }
  }

  method UpdateTask(task: Task, id: nat, db: Database, given: Item, nowMs: int, stored: bool, credited: bool)
    requires id < |db.rows| == |db.refunds|
    modifies task, db
    ensures IsAnswered(old(db.View()), db.View(), id, old(task.View()), task.View(), given, nowMs, stored, credited)
    ensures task.View() == UpdatedRow(old(task.View()), given, nowMs)
    ensures db.View() == Updated(old(db.View()), id, old(task.View()), given, nowMs, stored, credited)
  {
    AnswerIsSeen(db.View(), id, task.View(), given, nowMs, stored, credited);
    hide IsAnswered;
    var responseItem := given;
    var useTime := nowMs - task.submitTime;
    if useTime > TIMEOUT_MS && task.progress != FINISHED {
      responseItem := responseItem.(failReason := TIMEOUT_REASON, status := FAILED);
    }
    hide NeedsUpdate;
    if !NeedsUpdate(task.View(), responseItem) {
      return;
    }
    task.CopyFrom(responseItem);
    var shouldReturnQuota := false;
    if (task.progress != FINISHED && responseItem.failReason != "")
       || (task.progress == FINISHED && task.status == FAILED) {
      task.progress := FINISHED;
      if task.quota != 0 {
        shouldReturnQuota := true;
      }
    }
    if stored {
      db.rows := db.rows[id := task.View()];
      if shouldReturnQuota {
        db.balances := Credited(db.balances, task.user, task.quota, credited);
        db.refunds := db.refunds[id := db.refunds[id] + 1];
      }
    }
  }

  // ---------- one refund per task ----------

  datatype Ledger = Ledger(rows: seq<Row>, balances: map<nat, int>, refunds: seq<nat>)

  function Updated(l: Ledger, id: nat, row: Row, given: Item, nowMs: int, stored: bool, credited: bool): Ledger
    requires id < |l.rows| == |l.refunds|
  {
    var refund := Refunds(row, given, nowMs, stored);
    var writes := stored && NeedsUpdate(row, Judged(row, given, nowMs));
    Ledger(if writes then l.rows[id := UpdatedRow(row, given, nowMs)] else l.rows,
           if refund then Credited(l.balances, row.user, row.quota, credited) else l.balances,
           if refund then l.refunds[id := l.refunds[id] + 1] else l.refunds)
  }

  /** One response item for row `id`, or rows failed in bulk because their channel or id is missing. */
  datatype Visit =
    | Answered(id: nat, item: Item, nowMs: int, stored: bool, credited: bool)
    | FailAll(ids: set<nat>, stored: bool)

  function IdsOf(v: Visit): set<nat> {
    match v case Answered(id, _, _, _, _) => {id} case FailAll(ids, _) => ids
  }

  /** `memory` holds the loaded tasks of this cycle; an item works on the task as earlier items left it. */
  function Visited(l: Ledger, memory: seq<Row>, v: Visit): (Ledger, seq<Row>)
    requires |l.rows| == |l.refunds| == |memory|
    requires v.Answered? ==> v.id < |memory|
  {
    match v
    case Answered(id, item, nowMs, stored, credited) =>
      (Updated(l, id, memory[id], item, nowMs, stored, credited), memory[id := UpdatedRow(memory[id], item, nowMs)])
    case FailAll(ids, stored) =>
      (if stored then l.(rows := seq(|l.rows|, i requires 0 <= i < |l.rows| =>
         if i in ids then l.rows[i].(status := FAILED, progress := FINISHED) else l.rows[i])) else l, memory)
  }

  predicate InBounds(memory: seq<Row>, visits: seq<Visit>) {
    forall i :: 0 <= i < |visits| && visits[i].Answered? ==> visits[i].id < |memory|
  }

  /** The books and the tasks in memory after some visits of a cycle. */
  function Through(l: Ledger, memory: seq<Row>, visits: seq<Visit>): (after: (Ledger, seq<Row>))
    requires |l.rows| == |l.refunds| == |memory| && InBounds(memory, visits)
    ensures |after.0.rows| == |after.0.refunds| == |after.1| == |memory|
    decreases |visits|
  {
    if visits == [] then (l, memory) else
      var (l', memory') := Visited(l, memory, visits[0]);
      Through(l', memory', visits[1..])
  }

  function Cycle(l: Ledger, memory: seq<Row>, visits: seq<Visit>): Ledger
    requires |l.rows| == |l.refunds| == |memory| && InBounds(memory, visits)
  {
    Through(l, memory, visits).0
  }

  /** Only tasks loaded as unfinished are visited (GetAllUnFinishTasks). */
  predicate VisitsUnfinished(rows: seq<Row>, v: Visit) {
    forall id :: id in IdsOf(v) ==> id < |rows| && rows[id].progress != FINISHED
  }

  ghost predicate DistinctVisits(visits: seq<Visit>) {
    forall i, j :: 0 <= i < j < |visits| ==> IdsOf(visits[i]) !! IdsOf(visits[j])
  }

  /** A refunded row is stored as finished, and was refunded once. */
  predicate RefundedOnce(l: Ledger) {
    |l.rows| == |l.refunds| &&
    forall i :: 0 <= i < |l.refunds| && l.refunds[i] > 0 ==> l.refunds[i] == 1 && l.rows[i].progress == FINISHED
  }

  /** No refund is ever taken back, and no row disappears. */
  predicate RefundsGrow(l: Ledger, l': Ledger) {
    && |l'.rows| == |l.rows| && |l'.refunds| == |l.refunds|
    && forall i :: 0 <= i < |l.refunds| ==> l.refunds[i] <= l'.refunds[i]
  }

  lemma VisitKeepsRefunds(l: Ledger, memory: seq<Row>, v: Visit)
    requires RefundedOnce(l) && |memory| == |l.rows|
    requires VisitsUnfinished(l.rows, v) && (v.Answered? ==> v.id < |memory|)
    ensures var (l', memory') := Visited(l, memory, v);
      && RefundedOnce(l') && RefundsGrow(l, l') && |l'.rows| == |memory'|
      && forall id :: 0 <= id < |l.rows| && id !in IdsOf(v) ==> l'.rows[id] == l.rows[id]
  {
    if v.Answered? {
      assert v.id in IdsOf(v);
      hide NeedsUpdate, Judged;
    }
  }

  /** With each task answered at most once in a cycle, no task is refunded more than once, whatever writes fail. */
  lemma {:induction false} CycleRefundsOnce(l: Ledger, memory: seq<Row>, visits: seq<Visit>)
    requires RefundedOnce(l) && |memory| == |l.rows|
    requires forall i :: 0 <= i < |visits| ==> VisitsUnfinished(l.rows, visits[i])
    requires DistinctVisits(visits)
    requires InBounds(memory, visits)
    ensures RefundedOnce(Cycle(l, memory, visits)) && RefundsGrow(l, Cycle(l, memory, visits))
    decreases |visits|
  {
    if visits != [] {
      var (l', memory') := Visited(l, memory, visits[0]);
      VisitKeepsRefunds(l, memory, visits[0]);
      hide Visited;
      forall i | 0 <= i < |visits[1..]| ensures VisitsUnfinished(l'.rows, visits[1..][i]) {
        assert visits[1..][i] == visits[i + 1] && IdsOf(visits[0]) !! IdsOf(visits[i + 1]);
        assert VisitsUnfinished(l.rows, visits[i + 1]);
      }
      CycleRefundsOnce(l', memory', visits[1..]);
    }
  }

  ghost predicate ProperCycles(l: Ledger, cycles: seq<seq<Visit>>)
    decreases |cycles|
  {
    |l.rows| == |l.refunds| &&
    (cycles == [] ||
     (&& (forall i :: 0 <= i < |cycles[0]| ==> VisitsUnfinished(l.rows, cycles[0][i]))
      && DistinctVisits(cycles[0])
      && InBounds(l.rows, cycles[0])
      && ProperCycles(Cycle(l, l.rows, cycles[0]), cycles[1..])))
  }

  ghost function RunCycles(l: Ledger, cycles: seq<seq<Visit>>): Ledger
    requires ProperCycles(l, cycles)
    decreases |cycles|
  {
    if cycles == [] then l else RunCycles(Cycle(l, l.rows, cycles[0]), cycles[1..])
  }

  lemma {:induction false} RefundAtMostOnce(l: Ledger, cycles: seq<seq<Visit>>)
    requires ProperCycles(l, cycles) && RefundedOnce(l)
    ensures var l' := RunCycles(l, cycles);
      |l'.rows| == |l.rows| == |l'.refunds| && forall i :: 0 <= i < |l.rows| ==> l.refunds[i] <= l'.refunds[i] <= 1
    decreases |cycles|
  {
    if cycles != [] {
      CycleRefundsOnce(l, l.rows, cycles[0]);
      RefundAtMostOnce(Cycle(l, l.rows, cycles[0]), cycles[1..]);
    }
  }

  // ---------- when a task is answered more than once ----------

  /** An answer that breaks the bound: the task was refunded before, the answer is stored, and it either is a charged
      failure again or writes the row back as unfinished, so that the next cycle polls it. */
  predicate Harmful(l: Ledger, memory: seq<Row>, v: Visit)
    requires |l.rows| == |l.refunds| == |memory|
    requires v.Answered? ==> v.id < |memory|
  {
    v.Answered? &&
    (var row, item := memory[v.id], Judged(memory[v.id], v.item, v.nowMs);
     && l.refunds[v.id] > 0 && v.stored && NeedsUpdate(row, item)
     && if Failed(Copied(row, item)) then row.quota != 0 else item.progress != FINISHED)
  }

  /** Any visit, of any task in any state. */
  lemma VisitKeepsBoundExactlyWhen(l: Ledger, memory: seq<Row>, v: Visit)
    requires RefundedOnce(l) && |memory| == |l.rows|
    requires v.Answered? ==> v.id < |memory|
    ensures RefundedOnce(Visited(l, memory, v).0) <==> !Harmful(l, memory, v)
  {
    hide NeedsUpdate, Judged, Failed;
    if v.Answered? {
      var l', id := Visited(l, memory, v).0, v.id;
      assert forall i :: 0 <= i < |l.rows| && i != id ==> l'.rows[i] == l.rows[i] && l'.refunds[i] == l.refunds[i];
      assert l.refunds[id] > 0 ==> l.refunds[id] == 1 && l.rows[id].progress == FINISHED;
    }
  }

  lemma {:induction false} OneMoreVisit(l: Ledger, memory: seq<Row>, visits: seq<Visit>, k: nat)
    requires |l.rows| == |l.refunds| == |memory| && InBounds(memory, visits) && k < |visits|
    ensures InBounds(memory, visits[..k]) && InBounds(memory, visits[..k + 1])
    ensures var (l', memory') := Through(l, memory, visits[..k]);
      Through(l, memory, visits[..k + 1]) == Visited(l', memory', visits[k])
    decreases k
  {
    hide Visited;
    if k > 0 {
      var (l', memory') := Visited(l, memory, visits[0]);
      VisitKeepsSizes(l, memory, visits[0]);
      assert visits[..k][1..] == visits[1..][..k - 1] && visits[..k + 1][1..] == visits[1..][..k];
      assert forall i :: 0 <= i < |visits[1..]| ==> visits[1..][i] == visits[i + 1];
      OneMoreVisit(l', memory', visits[1..], k - 1);
    } else {
      assert visits[..1][1..] == [] && visits[..0] == [];
    }
  }

  lemma VisitKeepsSizes(l: Ledger, memory: seq<Row>, v: Visit)
    requires |l.rows| == |l.refunds| == |memory| && (v.Answered? ==> v.id < |memory|)
    ensures var (l', memory') := Visited(l, memory, v);
      |l'.rows| == |l'.refunds| == |memory'| == |memory|
  {
  }

  ghost predicate BoundedAfter(l: Ledger, memory: seq<Row>, visits: seq<Visit>, k: nat)
    requires |l.rows| == |l.refunds| == |memory| && k <= |visits|
  {
    InBounds(memory, visits[..k]) && RefundedOnce(Through(l, memory, visits[..k]).0)
  }

  ghost predicate HarmlessAt(l: Ledger, memory: seq<Row>, visits: seq<Visit>, k: nat)
    requires |l.rows| == |l.refunds| == |memory| && InBounds(memory, visits) && k < |visits|
  {
    && InBounds(memory, visits[..k])
    && var (l', memory') := Through(l, memory, visits[..k]); !Harmful(l', memory', visits[k])
  }

  lemma TurnKeepsBoundExactlyWhen(l: Ledger, memory: seq<Row>, visits: seq<Visit>, k: nat)
    requires |l.rows| == |l.refunds| == |memory| && InBounds(memory, visits) && k < |visits|
    requires BoundedAfter(l, memory, visits, k)
    ensures BoundedAfter(l, memory, visits, k + 1) <==> HarmlessAt(l, memory, visits, k)
  {
    hide Through, Visited, Harmful, RefundedOnce;
    OneMoreVisit(l, memory, visits, k);
    var (l', memory') := Through(l, memory, visits[..k]);
    VisitKeepsBoundExactlyWhen(l', memory', visits[k]);
  }

  lemma {:induction false} BoundedUpTo(l: Ledger, memory: seq<Row>, visits: seq<Visit>, n: nat)
    requires |l.rows| == |l.refunds| == |memory| && InBounds(memory, visits) && n <= |visits|
    requires BoundedAfter(l, memory, visits, 0)
    requires forall k :: 0 <= k < |visits| ==> HarmlessAt(l, memory, visits, k)
    ensures forall k :: 0 <= k <= n ==> BoundedAfter(l, memory, visits, k)
    decreases n
  {
    hide BoundedAfter, HarmlessAt;
    if n > 0 {
      BoundedUpTo(l, memory, visits, n - 1);
      TurnKeepsBoundExactlyWhen(l, memory, visits, n - 1);
    }
  }

  /** Whatever a cycle's answers are, in whatever number and order, tasks named repeatedly or already finished: the
      bound holds wherever the poller may be stopped exactly when no answer is harmful when its turn comes. */
  lemma {:induction false} CycleBoundedExactlyWhen(l: Ledger, memory: seq<Row>, visits: seq<Visit>)
    requires RefundedOnce(l) && |memory| == |l.rows| && InBounds(memory, visits)
    ensures (forall k :: 0 <= k <= |visits| ==> BoundedAfter(l, memory, visits, k))
       <==> (forall k :: 0 <= k < |visits| ==> HarmlessAt(l, memory, visits, k))
  {
    assert visits[..0] == [] && BoundedAfter(l, memory, visits, 0);
    hide BoundedAfter, HarmlessAt;
    if forall k :: 0 <= k <= |visits| ==> BoundedAfter(l, memory, visits, k) {
      forall k | 0 <= k < |visits| ensures HarmlessAt(l, memory, visits, k) {
        assert BoundedAfter(l, memory, visits, k + 1);
        TurnKeepsBoundExactlyWhen(l, memory, visits, k);
      }
    }
    if forall k :: 0 <= k < |visits| ==> HarmlessAt(l, memory, visits, k) {
      BoundedUpTo(l, memory, visits, |visits|);
    }
  }

  /** Any two answers for one unfinished task in one cycle break the bound exactly when both are stored, the task was
      charged and fails by the first, and the second leaves it unfinished or is a failure that changes something. */
  lemma {:induction false} TwoAnswersBreakBoundExactlyWhen(
    l: Ledger, id: nat, a: Item, nowMs: int, stored: bool, credited: bool,
    b: Item, nowMs': int, stored': bool, credited': bool)
    requires RefundedOnce(l) && id < |l.rows| && l.rows[id].progress != FINISHED
    ensures var row := l.rows[id];
      var first, second := Answered(id, a, nowMs, stored, credited), Answered(id, b, nowMs', stored', credited');
      !RefundedOnce(Cycle(l, l.rows, [first, second])) <==>
      && stored && stored' && row.quota != 0 && FailsItem(Judged(row, a, nowMs))
      && (b.progress != FINISHED || (b.status == FAILED && NeedsUpdate(UpdatedRow(row, a, nowMs), b)))
  {
    var row := l.rows[id];
    var first, second := Answered(id, a, nowMs, stored, credited), Answered(id, b, nowMs', stored', credited');
    var (l1, memory1) := Visited(l, l.rows, first);
    assert [first, second][1..] == [second] && [second][1..] == [];
    assert Through(l1, memory1, [second]) == Visited(l1, memory1, second);
    VisitKeepsBoundExactlyWhen(l, l.rows, first);
    VisitKeepsBoundExactlyWhen(l1, memory1, second);
    assert l1.refunds[id] > 0 <==> stored && row.quota != 0 && FailsItem(Judged(row, a, nowMs));
    if l1.refunds[id] > 0 {
      assert memory1[id].progress == FINISHED && Judged(memory1[id], b, nowMs') == b;
    }
  }

  const BLANK := Item("", "", "", 0, 0, 0, "", "", "", None, None, "", "")

  /** Two different failures of one task, both finished: the second is refunded for its other reason. */
  lemma {:induction false} OtherReasonRefundsAgain(l: Ledger, id: nat, nowMs: int)
    requires RefundedOnce(l) && id < |l.rows| && l.rows[id].progress != FINISHED && l.rows[id].quota > 0
    requires l.refunds[id] == 0 && nowMs - l.rows[id].submitTime <= TIMEOUT_MS
    ensures var a := BLANK.(progress := FINISHED, status := FAILED, failReason := "x");
      var b := a.(failReason := "y");
      Cycle(l, l.rows, [Answered(id, a, nowMs, true, true), Answered(id, b, nowMs, true, true)]).refunds[id] == 2
  {
    var a := BLANK.(progress := FINISHED, status := FAILED, failReason := "x");
    var first, second := Answered(id, a, nowMs, true, true), Answered(id, a.(failReason := "y"), nowMs, true, true);
    var (l1, memory1) := Visited(l, l.rows, first);
    assert "x" != "" && "x"[0] != "y"[0];
    assert [first, second][1..] == [second] && [second][1..] == [];
    assert Through(l1, memory1, [second]) == Visited(l1, memory1, second);
  }

  /** A timed-out task answered twice as unfinished without a reason: refunded once, written back as unfinished, and
      refunded again by one ordinary failure in the next cycle. */
  lemma {:induction false} UnfinishedCopyIsRefundedNextCycle(l: Ledger, id: nat, nowMs: int)
    requires RefundedOnce(l) && id < |l.rows| && l.rows[id].progress != FINISHED && l.rows[id].quota > 0
    requires l.refunds[id] == 0 && nowMs - l.rows[id].submitTime > TIMEOUT_MS
    ensures var copy := Answered(id, BLANK, nowMs, true, true);
      var l' := Cycle(l, l.rows, [copy, copy]);
      && l'.refunds[id] == 1 && l'.rows[id].progress != FINISHED
      && Cycle(l', l'.rows, [Answered(id, BLANK.(failReason := "x"), 0, true, true)]).refunds[id] == 2
  {
    var copy, later := Answered(id, BLANK, nowMs, true, true), Answered(id, BLANK.(failReason := "x"), 0, true, true);
    var (l1, memory1) := Visited(l, l.rows, copy);
    assert [copy, copy][1..] == [copy] && [copy][1..] == [] && [later][1..] == [];
    assert "" != FINISHED && |TIMEOUT_REASON| > 0;
    assert Through(l1, memory1, [copy]) == Visited(l1, memory1, copy);
    var l2 := Visited(l1, memory1, copy).0;
    assert l2.rows[id].progress == "" && l2.refunds[id] == 1;
    assert Through(l2, l2.rows, [later]) == Visited(l2, l2.rows, later);
  }

  ghost predicate AtMostOnce(l: Ledger) {
    forall i :: 0 <= i < |l.refunds| ==> l.refunds[i] <= 1
  }

  /** `RefundedOnce` is exactly what the bound needs: it is the states from which every number of proper cycles
      refunds each task at most once. */
  lemma {:induction false} BoundSurvivesExactlyWhen(l: Ledger)
    requires |l.rows| == |l.refunds|
    requires forall i :: 0 <= i < |l.refunds| && l.refunds[i] > 0 ==> l.rows[i].quota != 0
    ensures RefundedOnce(l) <==> forall cycles :: ProperCycles(l, cycles) ==> AtMostOnce(RunCycles(l, cycles))
  {
    if RefundedOnce(l) {
      forall cycles | ProperCycles(l, cycles) ensures AtMostOnce(RunCycles(l, cycles)) {
        RefundAtMostOnce(l, cycles);
      }
    } else {
      var i :| 0 <= i < |l.refunds| && l.refunds[i] > 0 && !(l.refunds[i] == 1 && l.rows[i].progress == FINISHED);
      hide RefundedOnce, ProperCycles, RunCycles, AtMostOnce;
      if l.refunds[i] > 1 {
        TwiceAlready(l, i);
      } else {
        FailedAgain(l, i);
      }
    }
  }

  lemma {:induction false} TwiceAlready(l: Ledger, i: nat)
    requires |l.rows| == |l.refunds| && i < |l.rows| && l.refunds[i] > 1
    ensures exists cycles :: ProperCycles(l, cycles) && !AtMostOnce(RunCycles(l, cycles))
  {
    assert ProperCycles(l, []) && RunCycles(l, []) == l;
  }

  /** A refunded row that is still unfinished is refunded again when it next fails. */
  lemma {:induction false} FailedAgain(l: Ledger, i: nat)
    requires |l.rows| == |l.refunds| && i < |l.rows|
    requires l.refunds[i] == 1 && l.rows[i].progress != FINISHED && l.rows[i].quota != 0
    ensures exists cycles :: ProperCycles(l, cycles) && !AtMostOnce(RunCycles(l, cycles))
  {
    var visit := Answered(i, BLANK.(failReason := "x"), l.rows[i].submitTime, true, true);
    var (l', memory') := Visited(l, l.rows, visit);
    assert [visit][1..] == [] && Through(l', memory', []) == (l', memory');
    assert Cycle(l, l.rows, [visit]) == l';
    assert l'.refunds[i] == 2;
    assert [[visit]][1..] == [];
    assert ProperCycles(l', []) && RunCycles(l', []) == l';
    assert ProperCycles(l, [[visit]]) && RunCycles(l, [[visit]]) == l';
  }
}
