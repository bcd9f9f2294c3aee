/**
 Billing of asynchronous video tasks. A task is charged in advance; each poll may re-price it by
 tokens (extra charge or partial refund) or refund it when it has failed. Any database write of a
 poll may be refused.
 */
module VideoBilling {
  import opened Balances
  import opened Outcomes

  datatype Status = NotStart | Submitted | Queued | InProgress | Success | Failure | Unrecognised(text: string)

  datatype Row = Row(user: nat, group: string, quota: int, status: Status, progress: string,
                     startTime: int, finishTime: int, failReason: string)

  /** What a poll learned: the adaptor's TaskInfo. An upstream may leave the status empty. */
  datatype TaskInfo = TaskInfo(status: Option<Status>, progress: string, url: string, reason: string, totalTokens: int)

  /** The price list a poll sees: the model named in the response, its configured ratio, the group ratios. */
  datatype Pricing = Pricing(model: string, modelRatio: Option<real>, userGroup: Option<string>,
                             groupRatio: map<string, real>, groupGroupRatio: map<string, real>)

  /** Which of the poll's writes the database accepts: the re-pricing, the row, the failure refund. */
  datatype Writes = Writes(reprice: bool, update: bool, refund: bool)

  /** The stored rows and balances, and how often each row was refunded for failing. */
  datatype Ledger = Ledger(rows: seq<Row>, balances: map<nat, int>, refunds: seq<nat>)

  function GroupOf(own: string, pricing: Pricing): string {
    if own != "" then own else match pricing.userGroup case Some(g) => g case None => ""
  }

  function Product(tokens: int, modelRatio: real, groupRatio: real): real {
    tokens as real * modelRatio * groupRatio
  }

  /** What the task really costs, when it is priced by tokens at all. */
  function ActualQuota(own: string, pricing: Pricing, totalTokens: int): Option<int> {
    var group := GroupOf(own, pricing);
    if totalTokens <= 0 || pricing.model == "" || group == ""
       || pricing.modelRatio == None || pricing.modelRatio.value <= 0.0
    then None
    else
      var ratio := if group in pricing.groupGroupRatio then pricing.groupGroupRatio[group]
                   else if group in pricing.groupRatio then pricing.groupRatio[group] else 1.0;
      Some(Truncate(Product(totalTokens, pricing.modelRatio.value, ratio)))
  }

  // ---------- what one poll does ----------

  function Effective(info: TaskInfo): TaskInfo {
    if info.status == None then TaskInfo(Some(Failure), "", "", "upstream returned empty status", 0) else info
  }

  /** The task's fields after the status switch, before re-pricing. */
  function Switched(row: Row, info: TaskInfo, now: int): Row
    requires info.status.Some?
  {
    var r := row.(status := info.status.value);
    match info.status.value
    case Submitted => r.(progress := "10%")
    case Queued => r.(progress := "20%")
    case InProgress => r.(progress := "30%", startTime := if r.startTime == 0 then now else r.startTime)
    case Success => r.(progress := "100%", finishTime := if r.finishTime == 0 then now else r.finishTime,
                       failReason := if |info.url| > 5 && info.url[..5] == "data:" then r.failReason else info.url)
    case Failure => r.(progress := "100%", finishTime := if r.finishTime == 0 then now else r.finishTime,
                       failReason := info.reason)
    case _ => r
  }

  predicate Handled(status: Status) {
    status.Submitted? || status.Queued? || status.InProgress? || status.Success? || status.Failure?
  }

  /** The quota the row carries after re-pricing; it moves only together with the balance. */
  function RepricedQuota(own: string, quota: int, totalTokens: int, pricing: Pricing, ok: bool): int {
    match ActualQuota(own, pricing, totalTokens)
    case Some(actual) => if ok then actual else quota
    case None => quota
  }

  function FinalProgress(row: Row, info: TaskInfo): string {
    if info.status == Some(Failure) then "100%" else if info.progress != "" then info.progress else row.progress
  }

  /** The task in memory after a poll. */
  function PolledRow(row: Row, given: TaskInfo, now: int, pricing: Pricing, w: Writes): Row {
    var info := Effective(given);
    var r := Switched(row, info, now);
    if !Handled(info.status.value) then r else
      r.(quota := if info.status == Some(Success)
                  then RepricedQuota(row.group, row.quota, info.totalTokens, pricing, w.reprice) else row.quota,
         progress := FinalProgress(r, info))
  }

  /** The refund needs a failure that is new to the task and that was stored. */
  predicate Refunds(row: Row, given: TaskInfo, w: Writes) {
    Effective(given).status == Some(Failure) && row.quota != 0 && row.status != Failure && w.update
  }

  function PolledLedger(l: Ledger, id: nat, row: Row, given: TaskInfo, now: int, pricing: Pricing, w: Writes): Ledger
    requires id < |l.rows| == |l.refunds|
  {
    var r := PolledRow(row, given, now, pricing, w);
    if !Handled(Effective(given).status.value) then l else
      var delta := r.quota - row.quota;
      var repriced := if delta > 0 then Charged(l.balances, row.user, delta, true)
                      else if delta < 0 then Credited(l.balances, row.user, -delta, true) else l.balances;
      Ledger(if w.update then l.rows[id := r] else l.rows,
             if Refunds(row, given, w) then Credited(repriced, row.user, row.quota, w.refund) else repriced,
             if Refunds(row, given, w) then l.refunds[id := l.refunds[id] + 1] else l.refunds)
  }

  // ---------- what a caller sees, field by field ----------

  /** The quota after a poll, over the price list: tokens times ratios without the fraction, or as before. */
  predicate IsRepriced(was: Row, quota: int, given: TaskInfo, pricing: Pricing, ok: bool) {
    var group := if was.group != "" then was.group
                 else if pricing.userGroup.Some? then pricing.userGroup.value else "";
    if ok && given.status == Some(Success) && given.totalTokens > 0
       && pricing.model != "" && pricing.modelRatio.Some? && pricing.modelRatio.value > 0.0 && group != ""
    then
      var g := if group in pricing.groupGroupRatio then pricing.groupGroupRatio[group]
               else if group in pricing.groupRatio then pricing.groupRatio[group] else 1.0;
      IsWholePart(quota, given.totalTokens as real * pricing.modelRatio.value * g)
    else
      quota == was.quota
  }

  /** The other fields of the task after a poll that the source handles. */
  predicate ShowsPoll(was: Row, row: Row, given: TaskInfo, now: int) {
    var status := if given.status.Some? then given.status.value else Failure;
    var ends := status == Success || status == Failure;
    && row.user == was.user && row.group == was.group && row.status == status
    && (status == Failure ==> row.progress == "100%")
    && (status != Failure && given.progress != "" ==> row.progress == given.progress)
    && (given.progress == "" ==>
          && (status == Submitted ==> row.progress == "10%") && (status == Queued ==> row.progress == "20%")
          && (status == InProgress ==> row.progress == "30%") && (status == Success ==> row.progress == "100%"))
    && row.startTime == (if status == InProgress && was.startTime == 0 then now else was.startTime)
    && row.finishTime == (if ends && was.finishTime == 0 then now else was.finishTime)
    && (status == Failure ==>
          row.failReason == if given.status.Some? then given.reason else "upstream returned empty status")
    && (status == Success ==> row.failReason == if "data:" < given.url then was.failReason else given.url)
    && (!ends ==> row.failReason == was.failReason)
  }

  /** A failure that is new to a charged task, and that was stored. */
  predicate NewFailure(was: Row, given: TaskInfo, stored: bool) {
    (given.status == None || given.status == Some(Failure)) && was.quota != 0 && was.status != Failure && stored
  }

  /** Re-pricing moves the balance against the quota, a new failure gives the quota back, nobody else is touched. */
  ghost predicate MovesMoney(before: map<nat, int>, after: map<nat, int>, was: Row, quota: int, given: TaskInfo,
                             w: Writes)
  {
    forall user :: Balance(after, user) == Balance(before, user) +
      if user != was.user then 0
      else was.quota - quota + if NewFailure(was, given, w.update) && w.refund && was.quota >= 0 then was.quota else 0
  }

  /** All that one poll does, on the task (`was`, then `row`) and on the books. */
  ghost predicate IsPolled(l: Ledger, l': Ledger, id: nat, was: Row, row: Row, given: TaskInfo, now: int,
                           pricing: Pricing, w: Writes, ok: bool)
    requires id < |l.rows| == |l.refunds|
  {
    && (ok <==> given.status == None || given.status.value in {Submitted, Queued, InProgress, Success, Failure})
    && (!ok ==> l' == l && row.quota == was.quota)
    && (ok ==>
          && IsRepriced(was, row.quota, given, pricing, w.reprice)
          && ShowsPoll(was, row, given, now)
          && MovesMoney(l.balances, l'.balances, was, row.quota, given, w)
          && l'.rows == (if w.update then l.rows[id := row] else l.rows)
          && l'.refunds == if NewFailure(was, given, w.update) then l.refunds[id := l.refunds[id] + 1] else l.refunds)
  }

  lemma ActualQuotaIsPrice(was: Row, given: TaskInfo, pricing: Pricing)
    requires given.status == Some(Success)
    ensures match ActualQuota(was.group, pricing, given.totalTokens)
      case Some(actual) => IsRepriced(was, actual, given, pricing, true)
      case None => IsRepriced(was, was.quota, given, pricing, true)
  {
    var group := GroupOf(was.group, pricing);
    if pricing.modelRatio.Some? {
      var ratio := if group in pricing.groupGroupRatio then pricing.groupGroupRatio[group]
                   else if group in pricing.groupRatio then pricing.groupRatio[group] else 1.0;
      TruncateIsWholePart(given.totalTokens as real * pricing.modelRatio.value * ratio);
    }
    hide IsWholePart, Truncate;
  }

  lemma RepricedQuotaIsPrice(was: Row, totalTokens: int, pricing: Pricing, ok: bool)
    ensures var info := TaskInfo(Some(Success), "", "", "", totalTokens);
      IsRepriced(was, RepricedQuota(was.group, was.quota, totalTokens, pricing, ok), info, pricing, ok)
  {
    hide IsWholePart, ActualQuota;
    if ok {
      ActualQuotaIsPrice(was, TaskInfo(Some(Success), "", "", "", totalTokens), pricing);
      hide IsRepriced;
    }
  }

  lemma PolledRowIsRepriced(was: Row, given: TaskInfo, now: int, pricing: Pricing, w: Writes)
    requires Handled(Effective(given).status.value)
    ensures IsRepriced(was, PolledRow(was, given, now, pricing, w).quota, given, pricing, w.reprice)
  {
    SwitchKeepsBilling(was, Effective(given), now);
    hide IsWholePart, ActualQuota, Switched, FinalProgress;
    if given.status == Some(Success) && w.reprice {
      ActualQuotaIsPrice(was, given, pricing);
      hide IsRepriced;
    }
  }

  lemma PolledRowShowsPoll(was: Row, given: TaskInfo, now: int, pricing: Pricing, w: Writes)
    requires Handled(Effective(given).status.value)
    ensures ShowsPoll(was, PolledRow(was, given, now, pricing, w), given, now)
  {
    hide RepricedQuota;
    assert "data:" < given.url <==> |given.url| > 5 && given.url[..5] == "data:";
  }

  lemma PolledBooksMoveMoney(l: Ledger, id: nat, was: Row, given: TaskInfo, now: int, pricing: Pricing, w: Writes)
    requires id < |l.rows| == |l.refunds|
    requires Handled(Effective(given).status.value)
    ensures MovesMoney(l.balances, PolledLedger(l, id, was, given, now, pricing, w).balances, was,
                       PolledRow(was, given, now, pricing, w).quota, given, w)
  {
    var r := PolledRow(was, given, now, pricing, w);
    assert given.status != Some(Success) ==> r.quota == was.quota;
    hide PolledRow;
  }

  lemma PollIsSeen(l: Ledger, id: nat, was: Row, given: TaskInfo, now: int, pricing: Pricing, w: Writes)
    requires id < |l.rows| == |l.refunds|
    ensures IsPolled(l, PolledLedger(l, id, was, given, now, pricing, w), id,
                     was, PolledRow(was, given, now, pricing, w), given, now, pricing, w,
                     Handled(Effective(given).status.value))
  {
    if Handled(Effective(given).status.value) {
      PolledRowIsRepriced(was, given, now, pricing, w);
      PolledRowShowsPoll(was, given, now, pricing, w);
      PolledBooksMoveMoney(l, id, was, given, now, pricing, w);
    }
    hide RepricedQuota, FinalProgress, IsRepriced, ShowsPoll, MovesMoney;
  }

  // ---------- the code ----------

  /** The task loaded by the poll cycle; its fields are updated in place. */
  class Task {
    const user: nat
    const group: string
    var quota: int
    var status: Status
    var progress: string
    var startTime: int
    var finishTime: int
    var failReason: string

    constructor (row: Row)
      ensures View() == row
    {
      user, group, quota, status, progress := row.user, row.group, row.quota, row.status, row.progress;
      startTime, finishTime, failReason := row.startTime, row.finishTime, row.failReason;
    }

    function View(): Row
      reads this
    {
      Row(user, group, quota, status, progress, startTime, finishTime, failReason)
    }
  }

  class Database {
    var rows: seq<Row>
    var balances: map<nat, int>
    ghost var refunds: seq<nat>

    ghost function View(): Ledger
      reads this
    {
      Ledger(rows, balances, refunds)
    }

    method Update(id: nat, row: Row, ok: bool) returns (saved: bool)
      requires id < |rows|
      modifies this`rows
      ensures saved == ok && rows == if ok then old(rows)[id := row] else old(rows)
    {
      if ok {
        rows := rows[id := row];
      }
      return ok;
    }

    method IncreaseUserQuota(user: nat, quota: int, ok: bool) returns (done: bool)
      modifies this`balances
      ensures done == (ok && quota >= 0) && balances == Credited(old(balances), user, quota, ok)
    {
      if quota < 0 || !ok {
        return false;
      }
      balances := balances[user := (if user in balances then balances[user] else 0) + quota];
      return true;
    }

    method DecreaseUserQuota(user: nat, quota: int, ok: bool) returns (done: bool)
      modifies this`balances
      ensures done == (ok && quota >= 0) && balances == Charged(old(balances), user, quota, ok)
    {
      if quota < 0 || !ok {
        return false;
      }
      balances := balances[user := (if user in balances then balances[user] else 0) - quota];
      return true;
    }
  }

  method Reprice(task: Task, db: Database, totalTokens: int, pricing: Pricing, ok: bool)
    modifies task`quota, db`balances
    ensures IsRepriced(old(task.View()), task.quota, TaskInfo(Some(Success), "", "", "", totalTokens), pricing, ok)
    ensures task.quota == RepricedQuota(task.group, old(task.quota), totalTokens, pricing, ok)
    ensures var delta := task.quota - old(task.quota);
      db.balances == if delta > 0 then Charged(old(db.balances), task.user, delta, true)
                     else if delta < 0 then Credited(old(db.balances), task.user, -delta, true) else old(db.balances)
  {
    RepricedQuotaIsPrice(task.View(), totalTokens, pricing, ok);
    hide IsRepriced, Truncate, IsWholePart, Product;
    if totalTokens > 0 && pricing.model != "" && pricing.modelRatio.Some? && pricing.modelRatio.value > 0.0 {
      var group := task.group;
      if group == "" && pricing.userGroup.Some? {
        group := pricing.userGroup.value;
      }
      if group != "" {
        var finalGroupRatio := 1.0;
        if group in pricing.groupGroupRatio {
          finalGroupRatio := pricing.groupGroupRatio[group];
        } else if group in pricing.groupRatio {
          finalGroupRatio := pricing.groupRatio[group];
        }
        var actualQuota := Truncate(Product(totalTokens, pricing.modelRatio.value, finalGroupRatio));
        var quotaDelta := actualQuota - task.quota;
        if quotaDelta > 0 {
          var done := db.DecreaseUserQuota(task.user, quotaDelta, ok);
          if done {
            task.quota := actualQuota;
          }
        } else if quotaDelta < 0 {
          var done := db.IncreaseUserQuota(task.user, -quotaDelta, ok);
          if done {
            task.quota := actualQuota;
          }
        }
      }
    }
  }

  /** The status switch, apart from the billing. */
  method SwitchStatus(task: Task, taskResult: TaskInfo, now: int)
    requires taskResult.status.Some?
    modifies task
    ensures task.View() == Switched(old(task.View()), taskResult, now)
  {
    task.status := taskResult.status.value;
    match taskResult.status.value {
      case Submitted => task.progress := "10%";
      case Queued => task.progress := "20%";
      case InProgress =>
        task.progress := "30%";
        if task.startTime == 0 {
          task.startTime := now;
        }
      case Success =>
        task.progress := "100%";
        if task.finishTime == 0 {
          task.finishTime := now;
        }
        if !(|taskResult.url| > 5 && taskResult.url[..5] == "data:") {
          task.failReason := taskResult.url;
        }
      case Failure =>
        task.progress := "100%";
        if task.finishTime == 0 {
          task.finishTime := now;
        }
        task.failReason := taskResult.reason;
      case _ =>
    }
  }

  /** The switch on the status with its billing, and the progress the upstream reports. */
  method ApplyResult(task: Task, db: Database, taskResult: TaskInfo, now: int, pricing: Pricing, w: Writes)
    returns (shouldRefund: bool)
    requires taskResult.status.Some? && Handled(taskResult.status.value)
    modifies task, db`balances
    ensures task.View() == PolledRow(old(task.View()), taskResult, now, pricing, w)
    ensures var delta := task.quota - old(task.quota);
      db.balances == if delta > 0 then Charged(old(db.balances), task.user, delta, true)
                     else if delta < 0 then Credited(old(db.balances), task.user, -delta, true) else old(db.balances)
    ensures shouldRefund <==>
      taskResult.status == Some(Failure) && old(task.quota) != 0 && old(task.status) != Failure
  {
    hide ActualQuota, Truncate, Switched, Charged, Credited;
    var quota, preStatus, progress := task.quota, task.status, taskResult.progress;
    shouldRefund := false;
    SwitchKeepsBilling(task.View(), taskResult, now);
    SwitchStatus(task, taskResult, now);
    if taskResult.status.value == Success {
      Reprice(task, db, taskResult.totalTokens, pricing, w.reprice);
    } else if taskResult.status.value == Failure {
      progress := "100%";
      if quota != 0 && preStatus != Failure {
        shouldRefund := true;
      }
    }
    if progress != "" {
      task.progress := progress;
    }
  }

  method UpdateVideoSingleTask(task: Task, id: nat, db: Database, given: TaskInfo, now: int, pricing: Pricing,
                               w: Writes)
    returns (ok: bool)
    requires id < |db.rows| == |db.refunds|
    modifies task, db
    ensures IsPolled(old(db.View()), db.View(), id, old(task.View()), task.View(), given, now, pricing, w, ok)
    ensures task.View() == PolledRow(old(task.View()), given, now, pricing, w)
    ensures db.View() == PolledLedger(old(db.View()), id, old(task.View()), given, now, pricing, w)
  {
    PollIsSeen(db.View(), id, task.View(), given, now, pricing, w);
    hide RepricedQuota, Switched, FinalProgress, IsPolled;
    var taskResult := given;
    if taskResult.status == None {
      taskResult := TaskInfo(Some(Failure), "", "", "upstream returned empty status", 0);
    }
    var quota := task.quota;
    if !Handled(taskResult.status.value) {
      SwitchStatus(task, taskResult, now);
      return false;
    }
    var shouldRefund := ApplyResult(task, db, taskResult, now, pricing, w);
    StoreAndRefund(task, id, db, quota, shouldRefund, w);
    return true;
  }

  /** The end of a poll: the row is stored, and only then is a new failure refunded. */
  method StoreAndRefund(task: Task, id: nat, db: Database, quota: int, wanted: bool, w: Writes)
    requires id < |db.rows| == |db.refunds|
    modifies db
    ensures db.rows == if w.update then old(db.rows)[id := task.View()] else old(db.rows)
    ensures db.balances ==
      if wanted && w.update then Credited(old(db.balances), task.user, quota, w.refund) else old(db.balances)
    ensures db.refunds ==
      if wanted && w.update then old(db.refunds)[id := old(db.refunds[id]) + 1] else old(db.refunds)
  {
    var shouldRefund := wanted;
    var saved := db.Update(id, task.View(), w.update);
    if !saved {
      shouldRefund := false;
    }
    if shouldRefund {
      var _ := db.IncreaseUserQuota(task.user, quota, w.refund);
      db.refunds := db.refunds[id := db.refunds[id] + 1];
    }
  }

  lemma SwitchKeepsBilling(row: Row, info: TaskInfo, now: int)
    requires info.status.Some?
    ensures var r := Switched(row, info, now);
      r.user == row.user && r.group == row.group && r.quota == row.quota && r.status == info.status.value
  {
  }

  // ---------- conservation ----------

  /** What the tasks of a user still hold of that user's balance. */
  function Held(rows: seq<Row>, user: nat): int {
    if rows == [] then 0 else Held(rows[..|rows| - 1], user) + HeldBy(rows[|rows| - 1], user)
  }

  function HeldBy(row: Row, user: nat): int {
    if row.user == user && row.status != Failure then row.quota else 0
  }

  function Total(l: Ledger, user: nat): int {
    Balance(l.balances, user) + Held(l.rows, user)
  }

  lemma {:induction false} HeldOfUpdate(rows: seq<Row>, id: nat, row: Row, user: nat)
    requires id < |rows|
    ensures Held(rows[id := row], user) == Held(rows, user) - HeldBy(rows[id], user) + HeldBy(row, user)
  {
    var n := |rows| - 1;
    if id == n {
      assert rows[id := row][..n] == rows[..n];
    } else {
      HeldOfUpdate(rows[..n], id, row, user);
      assert rows[id := row][..n] == rows[..n][id := row];
    }
  }

  datatype Poll = Poll(id: nat, given: TaskInfo, now: int, pricing: Pricing, w: Writes)

  /** A poll of a freshly loaded row. */
  function Polled(l: Ledger, p: Poll): Ledger
    requires p.id < |l.rows| == |l.refunds|
  {
    PolledLedger(l, p.id, l.rows[p.id], p.given, p.now, p.pricing, p.w)
  }

  /** Leaving FAILURE frees a quota that was refunded, and failing with a negative quota refunds nothing. */
  predicate Balanced(row: Row, given: TaskInfo) {
    var post := Effective(given).status.value;
    || !Handled(post)
    || (if row.status == Failure then post == Failure || row.quota == 0 else post != Failure || row.quota >= 0)
  }

  /** When the row and the refund are stored, a poll keeps balance plus held quota of every user exactly in the
      balanced cases; a refused re-pricing leaves both where they were. */
  lemma ConservedExactlyWhen(l: Ledger, p: Poll, user: nat)
    requires p.id < |l.rows| == |l.refunds| && p.w.update && p.w.refund
    ensures user != l.rows[p.id].user ==> Total(Polled(l, p), user) == Total(l, user)
    ensures user == l.rows[p.id].user ==>
      (Total(Polled(l, p), user) == Total(l, user) <==> Balanced(l.rows[p.id], p.given))
  {
    hide ActualQuota, Held, RepricedQuota;
    var row := l.rows[p.id];
    var r := PolledRow(row, p.given, p.now, p.pricing, p.w);
    SwitchKeepsBilling(row, Effective(p.given), p.now);
    hide Switched, FinalProgress;
    assert r.user == row.user && r.status == Effective(p.given).status.value;
    HeldOfUpdate(l.rows, p.id, r, user);
  }

  ghost predicate BalancedRun(l: Ledger, polls: seq<Poll>)
    decreases |polls|
  {
    |l.rows| == |l.refunds| &&
    (polls == [] ||
     (&& polls[0].id < |l.rows| && polls[0].w.update && polls[0].w.refund
      && Balanced(l.rows[polls[0].id], polls[0].given)
      && BalancedRun(Polled(l, polls[0]), polls[1..])))
  }

  function RunPolls(l: Ledger, polls: seq<Poll>): Ledger
    requires |l.rows| == |l.refunds| && forall i :: 0 <= i < |polls| ==> polls[i].id < |l.rows|
    decreases |polls|
  {
    if polls == [] then l else RunPolls(Polled(l, polls[0]), polls[1..])
  }

  /** Extra charges, partial refunds, repeated SUCCESS polls and SUCCESS followed by FAILURE all cancel out. */
  lemma {:induction false} RunConserves(l: Ledger, polls: seq<Poll>, user: nat)
    requires BalancedRun(l, polls)
    requires |l.rows| == |l.refunds| && forall i :: 0 <= i < |polls| ==> polls[i].id < |l.rows|
    ensures Total(RunPolls(l, polls), user) == Total(l, user)
    decreases |polls|
  {
    if polls != [] {
      ConservedExactlyWhen(l, polls[0], user);
      RunConserves(Polled(l, polls[0]), polls[1..], user);
    }
  }

  /** Prices are not negative. */
  predicate FairPrices(pricing: Pricing) {
    && (forall g :: g in pricing.groupRatio ==> pricing.groupRatio[g] >= 0.0)
    && (forall g :: g in pricing.groupGroupRatio ==> pricing.groupGroupRatio[g] >= 0.0)
  }

  lemma QuotasStayNonNegative(l: Ledger, p: Poll)
    requires p.id < |l.rows| == |l.refunds| && FairPrices(p.pricing)
    requires forall i :: 0 <= i < |l.rows| ==> l.rows[i].quota >= 0
    ensures forall i :: 0 <= i < |l.rows| ==> Polled(l, p).rows[i].quota >= 0
  {
    var row := l.rows[p.id];
    SwitchKeepsBilling(row, Effective(p.given), p.now);
    match ActualQuota(row.group, p.pricing, Effective(p.given).totalTokens)
    case Some(actual) =>
      var group := GroupOf(row.group, p.pricing);
      var ratio := if group in p.pricing.groupGroupRatio then p.pricing.groupGroupRatio[group]
                   else if group in p.pricing.groupRatio then p.pricing.groupRatio[group] else 1.0;
      NonNegativeProduct(Effective(p.given).totalTokens as real * p.pricing.modelRatio.value, ratio);
    case None =>
  }

  lemma NonNegativeProduct(a: real, b: real)
    requires a >= 0.0 && b >= 0.0
    ensures Truncate(a * b) >= 0
  {
  }

  // ---------- one refund per task ----------

  /** The rows a cycle asks for: GetAllUnFinishSyncTasks. */
  predicate Unfinished(row: Row) {
    row.progress != "100%" && row.status != Failure && row.status != Success
  }

  /** Channel gone: the rows are failed in bulk, without a refund. */
  datatype Visit = One(p: Poll) | FailAll(ids: set<nat>, ok: bool)

  function IdsOf(v: Visit): set<nat> {
    match v case One(p) => {p.id} case FailAll(ids, _) => ids
  }

  /** `memory` holds the tasks loaded by this cycle; a poll works on the task as earlier polls left it. */
  function Visited(l: Ledger, memory: seq<Row>, v: Visit): (Ledger, seq<Row>)
    requires |l.rows| == |l.refunds| == |memory|
    requires v.One? ==> v.p.id < |memory|
  {
    match v
    case One(p) =>
      (PolledLedger(l, p.id, memory[p.id], p.given, p.now, p.pricing, p.w),
       memory[p.id := PolledRow(memory[p.id], p.given, p.now, p.pricing, p.w)])
    case FailAll(ids, ok) =>
      (if ok then l.(rows := seq(|l.rows|, i requires 0 <= i < |l.rows| =>
         if i in ids then l.rows[i].(status := Failure, progress := "100%") else l.rows[i])) else l, memory)
  }

  predicate InBounds(memory: seq<Row>, visits: seq<Visit>) {
    forall i :: 0 <= i < |visits| && visits[i].One? ==> visits[i].p.id < |memory|
  }

  /** The books and the tasks in memory after some visits of a cycle. */
  function Through(l: Ledger, memory: seq<Row>, visits: seq<Visit>): (after: (Ledger, seq<Row>))
    requires |l.rows| == |l.refunds| == |memory| && InBounds(memory, visits)
    ensures |after.0.rows| == |after.0.refunds| == |after.1| == |memory|
    decreases |visits|
  {
    if visits == [] then (l, memory) else
      var (l', memory') := Visited(l, memory, visits[0]);
      Through(l', memory', visits[1..])
  }

  /** One cycle of the poller: rows loaded once, then visited one after the other. */
  function Cycle(l: Ledger, memory: seq<Row>, visits: seq<Visit>): Ledger
    requires |l.rows| == |l.refunds| == |memory| && InBounds(memory, visits)
  {
    Through(l, memory, visits).0
  }

  predicate VisitsUnfinished(memory: seq<Row>, v: Visit) {
    forall id :: id in IdsOf(v) ==> id < |memory| && Unfinished(memory[id])
  }

  predicate AsLoaded(l: Ledger, memory: seq<Row>, v: Visit) {
    forall id :: id in IdsOf(v) ==> id < |l.rows| == |memory| && l.rows[id] == memory[id]
  }

  /** A cycle visits unfinished rows, each of them once. */
  ghost predicate ProperCycle(memory: seq<Row>, visits: seq<Visit>) {
    && (forall i :: 0 <= i < |visits| ==> VisitsUnfinished(memory, visits[i]))
    && (forall i, j :: 0 <= i < j < |visits| ==> IdsOf(visits[i]) !! IdsOf(visits[j]))
  }

  /** A refunded row is stored as failed, and was refunded once. */
  predicate RefundedOnce(l: Ledger) {
    |l.rows| == |l.refunds| &&
    forall i :: 0 <= i < |l.refunds| && l.refunds[i] > 0 ==> l.refunds[i] == 1 && l.rows[i].status == Failure
  }

  /** Rows still to be visited are as they were loaded. */
  ghost predicate Untouched(l: Ledger, memory: seq<Row>, visits: seq<Visit>) {
    |l.rows| == |memory| && forall i :: 0 <= i < |visits| ==> AsLoaded(l, memory, visits[i])
  }

  predicate AgreeOn(memory: seq<Row>, memory': seq<Row>, v: Visit) {
    |memory'| == |memory| && forall id :: id in IdsOf(v) && id < |memory| ==> memory'[id] == memory[id]
  }

  lemma VisitTouchesOnly(l: Ledger, memory: seq<Row>, v: Visit)
    requires |l.rows| == |l.refunds| == |memory| && (v.One? ==> v.p.id < |memory|)
    ensures var (l', memory') := Visited(l, memory, v);
      && |l'.rows| == |l'.refunds| == |memory'| == |memory|
      && forall id :: 0 <= id < |l.rows| && id !in IdsOf(v) ==> l'.rows[id] == l.rows[id] && memory'[id] == memory[id]
  {
  }

  /** The first visit leaves what the later ones need. */
  lemma RestIsUntouched(l: Ledger, memory: seq<Row>, visits: seq<Visit>)
    requires visits != [] && ProperCycle(memory, visits) && Untouched(l, memory, visits)
    requires |l.refunds| == |l.rows| && InBounds(memory, visits)
    ensures var (l', memory') := Visited(l, memory, visits[0]);
      && |l'.rows| == |l'.refunds| == |memory'|
      && ProperCycle(memory', visits[1..]) && Untouched(l', memory', visits[1..]) && InBounds(memory', visits[1..])
      && forall i :: 0 <= i < |visits[1..]| ==> AgreeOn(memory, memory', visits[1..][i])
  {
    var (l', memory') := Visited(l, memory, visits[0]);
    VisitTouchesOnly(l, memory, visits[0]);
    hide Visited, Unfinished;
    forall i | 0 <= i < |visits[1..]|
      ensures VisitsUnfinished(memory', visits[1..][i]) && AsLoaded(l', memory', visits[1..][i])
      ensures AgreeOn(memory, memory', visits[1..][i])
    {
      assert visits[1..][i] == visits[i + 1] && IdsOf(visits[0]) !! IdsOf(visits[i + 1]);
      assert AsLoaded(l, memory, visits[i + 1]) && VisitsUnfinished(memory, visits[i + 1]);
    }
  }

  lemma VisitKeepsRefunds(l: Ledger, memory: seq<Row>, v: Visit)
    requires RefundedOnce(l) && |l.rows| == |memory|
    requires VisitsUnfinished(memory, v) && AsLoaded(l, memory, v)
    requires v.One? ==> v.p.id < |memory|
    ensures RefundedOnce(Visited(l, memory, v).0)
  {
    if v.One? {
      var row, p := memory[v.p.id], v.p;
      assert p.id in IdsOf(v);
      SwitchKeepsBilling(row, Effective(p.given), p.now);
      hide Switched, RepricedQuota;
    }
  }

  /** Whatever writes fail at whatever visit, no task is refunded for failing more than once. */
  lemma {:induction false} CycleRefundsOnce(l: Ledger, memory: seq<Row>, visits: seq<Visit>)
    requires RefundedOnce(l) && ProperCycle(memory, visits) && Untouched(l, memory, visits) && InBounds(memory, visits)
    ensures RefundedOnce(Cycle(l, memory, visits))
    decreases |visits|
  {
    if visits != [] {
      assert AsLoaded(l, memory, visits[0]) && VisitsUnfinished(memory, visits[0]);
      VisitKeepsRefunds(l, memory, visits[0]);
      RestIsUntouched(l, memory, visits);
      hide Visited, RefundedOnce;
      var (l', memory') := Visited(l, memory, visits[0]);
      CycleRefundsOnce(l', memory', visits[1..]);
    }
  }

  // ---------- what bulk failures lose ----------

  /** What the rows in `ids` hold of a user's balance. */
  function HeldIn(rows: seq<Row>, ids: set<nat>, user: nat): int {
    if rows == [] then 0 else
      var n := |rows| - 1;
      HeldIn(rows[..n], ids, user) + if n in ids then HeldBy(rows[n], user) else 0
  }

  /** Failing rows in bulk refunds nothing, so exactly what they held is lost. */
  lemma {:induction false} BulkFailureLoses(rows: seq<Row>, failed: seq<Row>, ids: set<nat>, user: nat)
    requires |failed| == |rows|
    requires forall i :: 0 <= i < |rows| ==>
      failed[i] == if i in ids then rows[i].(status := Failure, progress := "100%") else rows[i]
    ensures Held(failed, user) == Held(rows, user) - HeldIn(rows, ids, user)
  {
    if rows != [] {
      var n := |rows| - 1;
      BulkFailureLoses(rows[..n], failed[..n], ids, user);
    }
  }

  lemma {:induction false} SameRowsHoldTheSame(rows: seq<Row>, loaded: seq<Row>, ids: set<nat>, user: nat)
    requires |rows| == |loaded| && forall i :: 0 <= i < |rows| && i in ids ==> rows[i] == loaded[i]
    ensures HeldIn(rows, ids, user) == HeldIn(loaded, ids, user)
  {
    if rows != [] {
      var n := |rows| - 1;
      SameRowsHoldTheSame(rows[..n], loaded[..n], ids, user);
    }
  }

  /** What one visit takes from the total of a user: nothing, or what the rows failed in bulk held. */
  function LossOf(memory: seq<Row>, v: Visit, user: nat): int {
    match v
    case One(_) => 0
    case FailAll(ids, ok) => if ok then HeldIn(memory, ids, user) else 0
  }

  function TotalLoss(memory: seq<Row>, visits: seq<Visit>, user: nat): int
    decreases |visits|
  {
    if visits == [] then 0 else LossOf(memory, visits[0], user) + TotalLoss(memory, visits[1..], user)
  }

  lemma {:induction false} SameTasksLoseTheSame(memory: seq<Row>, memory': seq<Row>, visits: seq<Visit>, user: nat)
    requires forall i :: 0 <= i < |visits| ==> AgreeOn(memory, memory', visits[i])
    ensures TotalLoss(memory', visits, user) == TotalLoss(memory, visits, user)
    decreases |visits|
  {
    if visits != [] {
      assert forall i :: 0 <= i < |visits[1..]| ==> visits[1..][i] == visits[i + 1];
      SameTasksLoseTheSame(memory, memory', visits[1..], user);
      assert AgreeOn(memory, memory', visits[0]);
      if visits[0].FailAll? {
        SameRowsHoldTheSame(memory', memory, visits[0].ids, user);
      }
    }
  }

  /** The row and the refund are stored, and the loaded quota is not negative; a bulk failure may be refused. */
  predicate StoresPoll(memory: seq<Row>, v: Visit) {
    v.One? ==> v.p.id < |memory| && v.p.w.update && v.p.w.refund && memory[v.p.id].quota >= 0
  }

  lemma VisitLoses(l: Ledger, memory: seq<Row>, v: Visit, user: nat)
    requires |l.rows| == |l.refunds| == |memory|
    requires VisitsUnfinished(memory, v) && AsLoaded(l, memory, v) && StoresPoll(memory, v)
    ensures Total(Visited(l, memory, v).0, user) == Total(l, user) - LossOf(memory, v, user)
  {
    match v
    case One(p) =>
      assert p.id in IdsOf(v);
      ConservedExactlyWhen(l, p, user);
    case FailAll(ids, ok) =>
      if ok {
        assert forall i :: 0 <= i < |l.rows| && i in ids ==> i in IdsOf(v);
        BulkFailureLoses(l.rows, Visited(l, memory, v).0.rows, ids, user);
        SameRowsHoldTheSame(l.rows, memory, ids, user);
      }
  }

  /** The poller's own cycles, with their bulk failures: while rows and refunds are stored, the total of each user
      goes down by exactly what the rows failed in bulk held. */
  lemma {:induction false} CycleLosesBulkFailures(l: Ledger, memory: seq<Row>, visits: seq<Visit>, user: nat)
    requires |l.rows| == |l.refunds| && ProperCycle(memory, visits) && Untouched(l, memory, visits)
    requires InBounds(memory, visits) && forall i :: 0 <= i < |visits| ==> StoresPoll(memory, visits[i])
    ensures Total(Cycle(l, memory, visits), user) == Total(l, user) - TotalLoss(memory, visits, user)
    decreases |visits|
  {
    if visits != [] {
      assert AsLoaded(l, memory, visits[0]) && VisitsUnfinished(memory, visits[0]) && StoresPoll(memory, visits[0]);
      VisitLoses(l, memory, visits[0], user);
      RestIsUntouched(l, memory, visits);
      hide Visited, Total, LossOf;
      var (l', memory') := Visited(l, memory, visits[0]);
      forall i | 0 <= i < |visits[1..]| ensures StoresPoll(memory', visits[1..][i]) {
        assert StoresPoll(memory, visits[i + 1]) && AgreeOn(memory, memory', visits[1..][i]);
        assert visits[i + 1].One? ==> visits[i + 1].p.id in IdsOf(visits[i + 1]);
      }
      SameTasksLoseTheSame(memory, memory', visits[1..], user);
      CycleLosesBulkFailures(l', memory', visits[1..], user);
    }
  }

  /** No stored bulk failure of the cycle takes a charged row of the user. */
  ghost predicate BulkFailsNothingCharged(memory: seq<Row>, visits: seq<Visit>, user: nat) {
    forall i, id :: 0 <= i < |visits| && visits[i].FailAll? && visits[i].ok && id in visits[i].ids && id < |memory| ==>
      HeldBy(memory[id], user) == 0
  }

  predicate NoneNegative(memory: seq<Row>) {
    forall id :: 0 <= id < |memory| ==> memory[id].quota >= 0
  }

  lemma {:induction false} HoldsNothingExactlyWhen(rows: seq<Row>, ids: set<nat>, user: nat)
    requires NoneNegative(rows)
    ensures HeldIn(rows, ids, user) >= 0
    ensures HeldIn(rows, ids, user) == 0 <==> forall id :: id in ids && id < |rows| ==> HeldBy(rows[id], user) == 0
  {
    if rows != [] {
      HoldsNothingExactlyWhen(rows[..|rows| - 1], ids, user);
    }
  }

  lemma {:induction false} NoLossExactlyWhen(memory: seq<Row>, visits: seq<Visit>, user: nat)
    requires NoneNegative(memory)
    ensures TotalLoss(memory, visits, user) >= 0
    ensures TotalLoss(memory, visits, user) == 0 <==> BulkFailsNothingCharged(memory, visits, user)
    decreases |visits|
  {
    if visits != [] {
      NoLossExactlyWhen(memory, visits[1..], user);
      if visits[0].FailAll? {
        HoldsNothingExactlyWhen(memory, visits[0].ids, user);
      }
      hide HeldBy, HeldIn;
      assert forall i :: 0 < i < |visits| ==> visits[i] == visits[1..][i - 1];
    }
  }

  /** A cycle of the poller conserves the total of a user exactly when it fails no charged row of that user in bulk. */
  lemma {:induction false} CycleConservesExactlyWhen(l: Ledger, memory: seq<Row>, visits: seq<Visit>, user: nat)
    requires |l.rows| == |l.refunds| && ProperCycle(memory, visits) && Untouched(l, memory, visits)
    requires InBounds(memory, visits) && forall i :: 0 <= i < |visits| ==> StoresPoll(memory, visits[i])
    requires NoneNegative(memory)
    ensures Total(Cycle(l, memory, visits), user) <= Total(l, user)
    ensures Total(Cycle(l, memory, visits), user) == Total(l, user) <==> BulkFailsNothingCharged(memory, visits, user)
  {
    CycleLosesBulkFailures(l, memory, visits, user);
    NoLossExactlyWhen(memory, visits, user);
  }

  ghost predicate ProperCycles(l: Ledger, cycles: seq<seq<Visit>>)
    decreases |cycles|
  {
    |l.rows| == |l.refunds| &&
    (cycles == [] ||
     (&& ProperCycle(l.rows, cycles[0])
      && InBounds(l.rows, cycles[0])
      && ProperCycles(Cycle(l, l.rows, cycles[0]), cycles[1..])))
  }

  ghost function RunCycles(l: Ledger, cycles: seq<seq<Visit>>): Ledger
    requires ProperCycles(l, cycles)
    decreases |cycles|
  {
    if cycles == [] then l else RunCycles(Cycle(l, l.rows, cycles[0]), cycles[1..])
  }

  lemma {:induction false} RefundAtMostOnce(l: Ledger, cycles: seq<seq<Visit>>)
    requires ProperCycles(l, cycles) && RefundedOnce(l)
    ensures RefundedOnce(RunCycles(l, cycles))
    decreases |cycles|
  {
    if cycles != [] {
      CycleRefundsOnce(l, l.rows, cycles[0]);
      RefundAtMostOnce(Cycle(l, l.rows, cycles[0]), cycles[1..]);
    }
  }

  // ---------- when a task is polled more than once in a cycle ----------

  /** A refunded row was refunded once, and no later cycle loads it. */
  predicate Bounded(l: Ledger) {
    |l.rows| == |l.refunds| &&
    forall i :: 0 <= i < |l.refunds| && l.refunds[i] > 0 ==> l.refunds[i] == 1 && !Unfinished(l.rows[i])
  }

  /** A poll that breaks the bound: the task was refunded before, and the poll, with its row stored, either refunds
      it again or writes the row back as unfinished. */
  predicate Harmful(l: Ledger, memory: seq<Row>, v: Visit)
    requires |l.rows| == |l.refunds| == |memory|
    requires v.One? ==> v.p.id < |memory|
  {
    v.One? &&
    (var p, row := v.p, memory[v.p.id];
     && l.refunds[p.id] > 0 && p.w.update && Handled(Effective(p.given).status.value)
     && (Refunds(row, p.given, p.w) || Unfinished(PolledRow(row, p.given, p.now, p.pricing, p.w))))
  }

  /** Any visit, of any task in any state. */
  lemma VisitKeepsBoundExactlyWhen(l: Ledger, memory: seq<Row>, v: Visit)
    requires Bounded(l) && |memory| == |l.rows|
    requires v.One? ==> v.p.id < |memory|
    ensures Bounded(Visited(l, memory, v).0) <==> !Harmful(l, memory, v)
  {
    if v.One? {
      var p, row, l' := v.p, memory[v.p.id], Visited(l, memory, v).0;
      SwitchKeepsBilling(row, Effective(p.given), p.now);
      hide Switched, RepricedQuota, FinalProgress;
      assert forall i :: 0 <= i < |l.rows| && i != p.id ==> l'.rows[i] == l.rows[i] && l'.refunds[i] == l.refunds[i];
      assert l.refunds[p.id] > 0 ==> l.refunds[p.id] == 1 && !Unfinished(l.rows[p.id]);
    }
  }

  lemma {:induction false} OneMoreVisit(l: Ledger, memory: seq<Row>, visits: seq<Visit>, k: nat)
    requires |l.rows| == |l.refunds| == |memory| && InBounds(memory, visits) && k < |visits|
    ensures InBounds(memory, visits[..k]) && InBounds(memory, visits[..k + 1])
    ensures var (l', memory') := Through(l, memory, visits[..k]);
      Through(l, memory, visits[..k + 1]) == Visited(l', memory', visits[k])
    decreases k
  {
    hide Visited;
    if k > 0 {
      var (l', memory') := Visited(l, memory, visits[0]);
      VisitTouchesOnly(l, memory, visits[0]);
      assert visits[..k][1..] == visits[1..][..k - 1] && visits[..k + 1][1..] == visits[1..][..k];
      assert forall i :: 0 <= i < |visits[1..]| ==> visits[1..][i] == visits[i + 1];
      OneMoreVisit(l', memory', visits[1..], k - 1);
    } else {
      assert visits[..1][1..] == [] && visits[..0] == [];
    }
  }

  ghost predicate BoundedAfter(l: Ledger, memory: seq<Row>, visits: seq<Visit>, k: nat)
    requires |l.rows| == |l.refunds| == |memory| && k <= |visits|
  {
    InBounds(memory, visits[..k]) && Bounded(Through(l, memory, visits[..k]).0)
  }

  ghost predicate HarmlessAt(l: Ledger, memory: seq<Row>, visits: seq<Visit>, k: nat)
    requires |l.rows| == |l.refunds| == |memory| && InBounds(memory, visits) && k < |visits|
  {
    && InBounds(memory, visits[..k])
    && var (l', memory') := Through(l, memory, visits[..k]); !Harmful(l', memory', visits[k])
  }

  lemma TurnKeepsBoundExactlyWhen(l: Ledger, memory: seq<Row>, visits: seq<Visit>, k: nat)
    requires |l.rows| == |l.refunds| == |memory| && InBounds(memory, visits) && k < |visits|
    requires BoundedAfter(l, memory, visits, k)
    ensures BoundedAfter(l, memory, visits, k + 1) <==> HarmlessAt(l, memory, visits, k)
  {
    hide Through, Visited, Harmful, Bounded;
    OneMoreVisit(l, memory, visits, k);
    var (l', memory') := Through(l, memory, visits[..k]);
    VisitKeepsBoundExactlyWhen(l', memory', visits[k]);
  }

  lemma {:induction false} BoundedUpTo(l: Ledger, memory: seq<Row>, visits: seq<Visit>, n: nat)
    requires |l.rows| == |l.refunds| == |memory| && InBounds(memory, visits) && n <= |visits|
    requires BoundedAfter(l, memory, visits, 0)
    requires forall k :: 0 <= k < |visits| ==> HarmlessAt(l, memory, visits, k)
    ensures forall k :: 0 <= k <= n ==> BoundedAfter(l, memory, visits, k)
    decreases n
  {
    hide BoundedAfter, HarmlessAt;
    if n > 0 {
      BoundedUpTo(l, memory, visits, n - 1);
      TurnKeepsBoundExactlyWhen(l, memory, visits, n - 1);
    }
  }

  /** Whatever a cycle polls, in whatever number and order, tasks listed repeatedly or already finished: the bound
      holds wherever the poller may be stopped exactly when no poll is harmful when its turn comes. */
  lemma {:induction false} CycleBoundedExactlyWhen(l: Ledger, memory: seq<Row>, visits: seq<Visit>)
    requires Bounded(l) && |memory| == |l.rows| && InBounds(memory, visits)
    ensures (forall k :: 0 <= k <= |visits| ==> BoundedAfter(l, memory, visits, k))
       <==> (forall k :: 0 <= k < |visits| ==> HarmlessAt(l, memory, visits, k))
  {
    assert visits[..0] == [] && BoundedAfter(l, memory, visits, 0);
    hide BoundedAfter, HarmlessAt;
    if forall k :: 0 <= k <= |visits| ==> BoundedAfter(l, memory, visits, k) {
      forall k | 0 <= k < |visits| ensures HarmlessAt(l, memory, visits, k) {
        assert BoundedAfter(l, memory, visits, k + 1);
        TurnKeepsBoundExactlyWhen(l, memory, visits, k);
      }
    }
    if forall k :: 0 <= k < |visits| ==> HarmlessAt(l, memory, visits, k) {
      BoundedUpTo(l, memory, visits, |visits|);
    }
  }

  /** The upstream calls the task unfinished again. */
  predicate Resumes(given: TaskInfo) {
    && given.status.Some?
    && (given.status.value.Submitted? || given.status.value.Queued? || given.status.value.InProgress?)
    && given.progress != "100%"
  }

  /** A task listed twice in one cycle breaks the bound exactly when it was charged and fails by the first poll, both
      rows are stored, and the second poll calls it unfinished again. A second failure alone does not. */
  lemma {:induction false} TwoPollsBreakBoundExactlyWhen(l: Ledger, p: Poll, q: Poll)
    requires Bounded(l) && p.id == q.id < |l.rows| && Unfinished(l.rows[p.id])
    ensures !Bounded(Cycle(l, l.rows, [One(p), One(q)])) <==>
      && p.w.update && q.w.update && l.rows[p.id].quota != 0
      && Effective(p.given).status == Some(Failure) && Resumes(q.given)
  {
    var row, first, second := l.rows[p.id], One(p), One(q);
    var (l1, memory1) := Visited(l, l.rows, first);
    assert [first, second][1..] == [second] && [second][1..] == [];
    assert Through(l1, memory1, [second]) == Visited(l1, memory1, second);
    VisitKeepsBoundExactlyWhen(l, l.rows, first);
    VisitKeepsBoundExactlyWhen(l1, memory1, second);
    SwitchKeepsBilling(row, Effective(p.given), p.now);
    SwitchKeepsBilling(memory1[p.id], Effective(q.given), q.now);
    hide RepricedQuota;
    assert l1.refunds[p.id] > 0 <==> p.w.update && row.quota != 0 && Effective(p.given).status == Some(Failure);
    assert Effective(p.given).status == Some(Failure) ==> memory1[p.id].status == Failure;
  }

  lemma {:induction false} CycleKeepsBound(l: Ledger, memory: seq<Row>, visits: seq<Visit>)
    requires Bounded(l) && ProperCycle(memory, visits) && Untouched(l, memory, visits) && InBounds(memory, visits)
    ensures Bounded(Cycle(l, memory, visits))
    decreases |visits|
  {
    if visits != [] {
      assert AsLoaded(l, memory, visits[0]) && VisitsUnfinished(memory, visits[0]);
      assert visits[0].One? ==> visits[0].p.id in IdsOf(visits[0]);
      assert !Harmful(l, memory, visits[0]);
      VisitKeepsBoundExactlyWhen(l, memory, visits[0]);
      RestIsUntouched(l, memory, visits);
      hide Visited, Bounded;
      var (l', memory') := Visited(l, memory, visits[0]);
      CycleKeepsBound(l', memory', visits[1..]);
    }
  }

  lemma {:induction false} CyclesKeepBound(l: Ledger, cycles: seq<seq<Visit>>)
    requires ProperCycles(l, cycles) && Bounded(l)
    ensures Bounded(RunCycles(l, cycles))
    decreases |cycles|
  {
    if cycles != [] {
      CycleKeepsBound(l, l.rows, cycles[0]);
      CyclesKeepBound(Cycle(l, l.rows, cycles[0]), cycles[1..]);
    }
  }

  ghost predicate AtMostOnce(l: Ledger) {
    forall i :: 0 <= i < |l.refunds| ==> l.refunds[i] <= 1
  }

  /** `Bounded` is exactly what the refund bound needs: it is the states from which every number of proper cycles
      refunds each task at most once. */
  lemma {:induction false} BoundSurvivesExactlyWhen(l: Ledger)
    requires |l.rows| == |l.refunds|
    requires forall i :: 0 <= i < |l.refunds| && l.refunds[i] > 0 ==> l.rows[i].quota != 0
    ensures Bounded(l) <==> forall cycles :: ProperCycles(l, cycles) ==> AtMostOnce(RunCycles(l, cycles))
  {
    if Bounded(l) {
      forall cycles | ProperCycles(l, cycles) ensures AtMostOnce(RunCycles(l, cycles)) {
        CyclesKeepBound(l, cycles);
      }
    } else {
      var i :| 0 <= i < |l.refunds| && l.refunds[i] > 0 && !(l.refunds[i] == 1 && !Unfinished(l.rows[i]));
      hide Bounded, ProperCycles, RunCycles, AtMostOnce;
      if l.refunds[i] > 1 {
        TwiceAlready(l, i);
      } else {
        FailedAgain(l, i);
      }
    }
  }

  lemma {:induction false} TwiceAlready(l: Ledger, i: nat)
    requires |l.rows| == |l.refunds| && i < |l.rows| && l.refunds[i] > 1
    ensures exists cycles :: ProperCycles(l, cycles) && !AtMostOnce(RunCycles(l, cycles))
  {
    assert ProperCycles(l, []) && RunCycles(l, []) == l;
  }

  /** A refunded row that is still unfinished is refunded again when it next fails. */
  lemma {:induction false} FailedAgain(l: Ledger, i: nat)
    requires |l.rows| == |l.refunds| && i < |l.rows|
    requires l.refunds[i] == 1 && Unfinished(l.rows[i]) && l.rows[i].quota != 0
    ensures exists cycles :: ProperCycles(l, cycles) && !AtMostOnce(RunCycles(l, cycles))
  {
    var pricing := Pricing("", None, None, map[], map[]);
    var visit := One(Poll(i, TaskInfo(Some(Failure), "", "", "", 0), 0, pricing, Writes(true, true, true)));
    var (l', memory') := Visited(l, l.rows, visit);
    assert [visit][1..] == [] && Through(l', memory', []) == (l', memory');
    assert Cycle(l, l.rows, [visit]) == l';
    assert l'.refunds[i] == 2;
    assert [[visit]][1..] == [];
    assert ProperCycles(l', []) && RunCycles(l', []) == l';
    assert ProperCycles(l, [[visit]]) && RunCycles(l, [[visit]]) == l';
  }
}
