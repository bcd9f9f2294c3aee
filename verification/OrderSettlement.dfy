/**
 Settling top-up orders. Payment callbacks and admin completions take a mutex per trade number;
 expiry callbacks take none and write the whole row back. Every step below is one access to shared
 state, so a run is any interleaving of any number of such threads.
 */
module OrderSettlement {
  import opened Balances
  import opened Outcomes

  datatype Status = Pending | Success | Expired
  datatype Row = Row(user: nat, amount: int, money: real, stripe: bool, status: Status)

  /** EpayNotify and AdminCompleteTopUp lock the order; sessionExpired does not. */
  datatype Role = Settler | Completer | Expirer

  datatype Pc =
    // LockOrder
    | LoadLock
    | TakeCreateLock
    | LoadLockAgain
    | StoreLock
    | TakeOrderLock(lock: nat, holdsCreate: bool)
    | DropCreateLock(lock: nat)
    // the work done under the order lock
    | ReadOrder
    | SaveSuccess(topUp: Row)
    | AddQuota(topUp: Row)
    | CompleteInTransaction
    | UnlockOrder
    // the unlocked writer
    | ReadToExpire
    | SaveExpired(topUp: Row)
    | Finished

  datatype Thread = Thread(order: string, role: Role, pc: Pc)

  datatype Credit = Credit(order: string, user: nat, amount: int, role: Role)

  /** The database: order rows, user balances, and the credits given so far. */
  datatype Books = Books(rows: map<string, Row>, balances: map<nat, int>, ledger: seq<Credit>)

  /** Mutexes are numbered in order of creation; `owner` holds the locked ones. */
  datatype State = State(
    locks: map<string, nat>, created: nat, owner: map<nat, nat>, createOwner: Option<nat>,
    threads: seq<Thread>, books: Books)

  /** The quota of an order: a Stripe order completed by hand goes by its money, any other by its amount. */
  function QuotaOf(row: Row, role: Role, quotaPerUnit: real): int {
    if role == Completer && row.stripe then Truncate(row.money * quotaPerUnit)
    else Truncate(row.amount as real * quotaPerUnit)
  }

  function WithRow(b: Books, order: string, row: Row): Books {
    b.(rows := b.rows[order := row])
  }

  function WithCredit(b: Books, order: string, row: Row, role: Role, quotaPerUnit: real): Books {
    var q := QuotaOf(row, role, quotaPerUnit);
    b.(balances := b.balances[row.user := Balance(b.balances, row.user) + q],
       ledger := b.ledger + [Credit(order, row.user, q, role)])
  }

  /** IncreaseUserQuota refuses a negative quota. */
  function AfterAddQuota(b: Books, order: string, topUp: Row, role: Role, ok: bool, quotaPerUnit: real): Books {
    if ok && QuotaOf(topUp, role, quotaPerUnit) >= 0 then WithCredit(b, order, topUp, role, quotaPerUnit) else b
  }

  /** ManualCompleteTopUp: status and balance in one transaction, only for a pending order worth something. */
  function AfterTransaction(b: Books, order: string, role: Role, ok: bool, quotaPerUnit: real): Books {
    if ok && order in b.rows && b.rows[order].status == Pending && QuotaOf(b.rows[order], role, quotaPerUnit) > 0
    then WithRow(WithCredit(b, order, b.rows[order], role, quotaPerUnit), order, b.rows[order].(status := Success))
    else b
  }

  function Goto(s: State, t: nat, pc: Pc): State
    requires t < |s.threads|
  {
    s.(threads := s.threads[t := s.threads[t].(pc := pc)])
  }

  /** One step of thread `t`; `ok` says whether the database accepts the write of this step.
      None when the thread has finished or must wait for a mutex. */
  function Step(s: State, t: nat, ok: bool, quotaPerUnit: real): Option<State>
    requires t < |s.threads|
  {
    var order, role := s.threads[t].order, s.threads[t].role;
    match s.threads[t].pc
    case LoadLock =>
      Some(Goto(s, t, if order in s.locks then TakeOrderLock(s.locks[order], false) else TakeCreateLock))
    case TakeCreateLock =>
      if s.createOwner != None then None else Some(Goto(s, t, LoadLockAgain).(createOwner := Some(t)))
    case LoadLockAgain =>
      Some(Goto(s, t, if order in s.locks then TakeOrderLock(s.locks[order], true) else StoreLock))
    case StoreLock =>
      Some(Goto(s, t, TakeOrderLock(s.created, true)).(locks := s.locks[order := s.created], created := s.created + 1))
    case TakeOrderLock(lock, holdsCreate) =>
      if lock in s.owner then None else
        Some(Goto(s, t, if holdsCreate then DropCreateLock(lock) else FirstWork(role)).(owner := s.owner[lock := t]))
    case DropCreateLock(_) =>
      Some(Goto(s, t, FirstWork(role)).(createOwner := None))
    case ReadOrder =>
      Some(Goto(s, t, if order in s.books.rows && s.books.rows[order].status == Pending
                      then SaveSuccess(s.books.rows[order]) else UnlockOrder))
    case SaveSuccess(topUp) =>
      if ok then Some(Goto(s, t, AddQuota(topUp)).(books := WithRow(s.books, order, topUp.(status := Success))))
      else Some(Goto(s, t, UnlockOrder))
    case AddQuota(topUp) =>
      Some(Goto(s, t, UnlockOrder).(books := AfterAddQuota(s.books, order, topUp, role, ok, quotaPerUnit)))
    case CompleteInTransaction =>
      Some(Goto(s, t, UnlockOrder).(books := AfterTransaction(s.books, order, role, ok, quotaPerUnit)))
    case UnlockOrder =>
      Some(Goto(s, t, Finished).(owner := if order in s.locks then s.owner - {s.locks[order]} else s.owner))
    case ReadToExpire =>
      Some(Goto(s, t, if order in s.books.rows then SaveExpired(s.books.rows[order]) else Finished))
    case SaveExpired(topUp) =>
      Some(Goto(s, t, Finished).(books := if ok then WithRow(s.books, order, topUp.(status := Expired)) else s.books))
    case Finished => None
  }

  function FirstWork(role: Role): Pc {
    if role == Completer then CompleteInTransaction else ReadOrder
  }

  function NewThread(order: string, role: Role): Thread {
    Thread(order, role, if role == Expirer then ReadToExpire else LoadLock)
  }

  datatype Event = Spawn(order: string, role: Role) | Go(thread: nat, ok: bool)

  function Apply(s: State, e: Event, quotaPerUnit: real): Option<State> {
    match e
    case Spawn(order, role) => Some(s.(threads := s.threads + [NewThread(order, role)]))
    case Go(t, ok) => if t < |s.threads| then Step(s, t, ok, quotaPerUnit) else None
  }

  // ---------- the lock protocol ----------

  predicate HoldsOrder(pc: Pc) {
    || pc.DropCreateLock? || pc.ReadOrder? || pc.SaveSuccess? || pc.AddQuota?
    || pc.CompleteInTransaction? || pc.UnlockOrder?
  }

  predicate HoldsCreate(pc: Pc) {
    pc.LoadLockAgain? || pc.StoreLock? || (pc.TakeOrderLock? && pc.holdsCreate) || pc.DropCreateLock?
  }

  /** What holds of one thread: it knows the mutex of its own order, and holds what it thinks it holds. */
  predicate ThreadOk(s: State, t: nat)
    requires t < |s.threads|
  {
    var order, pc := s.threads[t].order, s.threads[t].pc;
    && (HoldsOrder(pc) ==> order in s.locks && s.locks[order] in s.owner && s.owner[s.locks[order]] == t)
    && (HoldsCreate(pc) <==> s.createOwner == Some(t))
    && (pc.TakeOrderLock? || pc.DropCreateLock? ==> order in s.locks && s.locks[order] == pc.lock)
    && (pc.StoreLock? ==> order !in s.locks)
    && (pc.ReadToExpire? || pc.SaveExpired? ==> s.threads[t].role == Expirer)
    && (s.threads[t].role == Expirer ==> pc.ReadToExpire? || pc.SaveExpired? || pc.Finished?)
  }

  predicate OwnerOk(s: State, lock: nat) {
    lock in s.owner ==>
      && s.owner[lock] < |s.threads|
      && HoldsOrder(s.threads[s.owner[lock]].pc)
      && s.threads[s.owner[lock]].order in s.locks
      && s.locks[s.threads[s.owner[lock]].order] == lock
  }

  ghost predicate LockInv(s: State) {
    && (forall o :: o in s.locks ==> s.locks[o] < s.created)
    && (forall o, p :: o in s.locks && p in s.locks && s.locks[o] == s.locks[p] ==> o == p)
    && (forall t :: 0 <= t < |s.threads| ==> ThreadOk(s, t))
    && (forall lock :: lock in s.owner ==> OwnerOk(s, lock))
    && (s.createOwner.Some? ==> s.createOwner.value < |s.threads|)
  }

  /** A mutex in the table is never replaced. */
  predicate LocksGrow(s: State, s': State) {
    forall o :: o in s.locks ==> o in s'.locks && s'.locks[o] == s.locks[o]
  }

  /** What a step may do to the mutexes; the pc of the stepping thread changes to `pc`. */
  ghost predicate Moves(s: State, s': State, t: nat, pc: Pc)
    requires t < |s.threads|
  {
    && s'.threads == s.threads[t := s.threads[t].(pc := pc)]
    && (pc.ReadToExpire? || pc.SaveExpired? ==> s.threads[t].role == Expirer)
    && (s.threads[t].role == Expirer ==> pc.ReadToExpire? || pc.SaveExpired? || pc.Finished?)
    && (pc.TakeOrderLock? || pc.DropCreateLock? ==>
          s.threads[t].order in s'.locks && s'.locks[s.threads[t].order] == pc.lock)
    && (pc.StoreLock? ==> s.threads[t].order !in s'.locks)
  }

  ghost predicate TouchesCreateLock(s: State, s': State, t: nat, pc: Pc)
    requires t < |s.threads|
  {
    && s'.locks == s.locks && s'.created == s.created && s'.owner == s.owner
    && HoldsOrder(pc) == HoldsOrder(s.threads[t].pc)
    && (|| (s'.createOwner == s.createOwner && HoldsCreate(pc) == HoldsCreate(s.threads[t].pc))
        || (s.createOwner == None && s'.createOwner == Some(t) && HoldsCreate(pc))
        || (s.createOwner == Some(t) && s'.createOwner == None && !HoldsCreate(pc)))
  }

  ghost predicate TouchesOrderLock(s: State, s': State, t: nat, pc: Pc)
    requires t < |s.threads|
  {
    var order := s.threads[t].order;
    && s'.locks == s.locks && s'.created == s.created && s'.createOwner == s.createOwner
    && HoldsCreate(pc) == HoldsCreate(s.threads[t].pc)
    && order in s.locks
    && (if s.locks[order] in s.owner
        then s.owner[s.locks[order]] == t && s'.owner == s.owner - {s.locks[order]} && !HoldsOrder(pc)
        else s'.owner == s.owner[s.locks[order] := t] && HoldsOrder(pc))
  }

  ghost predicate CreatesLock(s: State, s': State, t: nat, pc: Pc)
    requires t < |s.threads|
  {
    && s'.locks == s.locks[s.threads[t].order := s.created] && s'.created == s.created + 1
    && s.threads[t].order !in s.locks
    && s'.owner == s.owner && s'.createOwner == s.createOwner
    && s.createOwner == Some(t) && HoldsCreate(pc) && !HoldsOrder(pc) && !HoldsOrder(s.threads[t].pc)
  }

  ghost predicate LockStep(s: State, s': State, t: nat, pc: Pc)
    requires t < |s.threads|
  {
    && Moves(s, s', t, pc)
    && (TouchesCreateLock(s, s', t, pc) || TouchesOrderLock(s, s', t, pc) || CreatesLock(s, s', t, pc))
  }

  lemma EveryStepIsLockStep(s: State, t: nat, ok: bool, quotaPerUnit: real, s': State)
    requires t < |s.threads| && ThreadOk(s, t) && Step(s, t, ok, quotaPerUnit) == Some(s')
    ensures LockStep(s, s', t, s'.threads[t].pc)
  {
    hide AfterAddQuota, AfterTransaction, WithRow;
  }

  lemma OwnThreadStaysOk(s: State, s': State, t: nat, pc: Pc)
    requires LockInv(s) && t < |s.threads| && LockStep(s, s', t, pc)
    ensures |s'.threads| == |s.threads| && ThreadOk(s', t)
  {
    assert ThreadOk(s, t);
  }

  lemma OtherThreadStaysOk(s: State, s': State, t: nat, pc: Pc, u: nat)
    requires LockInv(s) && t < |s.threads| && u < |s.threads| && u != t && LockStep(s, s', t, pc)
    ensures |s'.threads| == |s.threads| && ThreadOk(s', u)
  {
    assert ThreadOk(s, t) && ThreadOk(s, u);
    assert s'.threads[u] == s.threads[u];
  }

  lemma OwnersStayOk(s: State, s': State, t: nat, pc: Pc, lock: nat)
    requires LockInv(s) && t < |s.threads| && LockStep(s, s', t, pc)
    ensures OwnerOk(s', lock)
  {
    assert ThreadOk(s, t);
    assert lock in s.owner ==> OwnerOk(s, lock);
  }

  lemma LockInvStep(s: State, t: nat, ok: bool, quotaPerUnit: real, s': State)
    requires LockInv(s) && t < |s.threads| && Step(s, t, ok, quotaPerUnit) == Some(s')
    ensures LockInv(s') && LocksGrow(s, s')
  {
    hide OwnerOk, Step;
    assert ThreadOk(s, t);
    EveryStepIsLockStep(s, t, ok, quotaPerUnit, s');
    hide ThreadOk;
    var pc := s'.threads[t].pc;
    forall u | 0 <= u < |s'.threads| ensures ThreadOk(s', u) {
      if u == t {
        OwnThreadStaysOk(s, s', t, pc);
      } else {
        OtherThreadStaysOk(s, s', t, pc, u);
      }
    }
    forall lock | lock in s'.owner ensures OwnerOk(s', lock) {
      OwnersStayOk(s, s', t, pc, lock);
    }
  }

  lemma SpawnKeepsLockInv(s: State, order: string, role: Role)
    requires LockInv(s)
    ensures LockInv(s.(threads := s.threads + [NewThread(order, role)]))
  {
    var s' := s.(threads := s.threads + [NewThread(order, role)]);
    forall u | 0 <= u < |s'.threads| ensures ThreadOk(s', u) {
      if u < |s.threads| {
        assert ThreadOk(s, u);
      }
    }
    forall lock | lock in s'.owner ensures OwnerOk(s', lock) {
      assert OwnerOk(s, lock);
    }
  }

  /** Two threads that hold the mutex of one order are one thread. */
  lemma MutualExclusion(s: State, t: nat, u: nat)
    requires LockInv(s) && t < |s.threads| && u < |s.threads|
    requires s.threads[t].order == s.threads[u].order
    requires HoldsOrder(s.threads[t].pc) && HoldsOrder(s.threads[u].pc)
    ensures t == u
  {
    assert ThreadOk(s, t) && ThreadOk(s, u);
  }

  /** UnlockOrder finds the mutex that this thread locked, so it never unlocks an unlocked mutex. */
  lemma UnlockIsLegal(s: State, t: nat)
    requires LockInv(s) && t < |s.threads| && s.threads[t].pc == UnlockOrder
    ensures s.threads[t].order in s.locks && s.locks[s.threads[t].order] in s.owner
    ensures s.owner[s.locks[s.threads[t].order]] == t
  {
    assert ThreadOk(s, t);
  }

  /** The thread can move whatever the database answers and whatever a unit of quota is. */
  ghost predicate Enabled(s: State, t: nat) {
    t < |s.threads| && forall ok, quotaPerUnit :: Step(s, t, ok, quotaPerUnit).Some?
  }

  /** Whether a thread may move depends on the mutexes alone: one outcome for which it may is enough. */
  lemma EnabledForAnyOutcome(s: State, t: nat, ok: bool, quotaPerUnit: real)
    requires t < |s.threads| && Step(s, t, ok, quotaPerUnit).Some?
    ensures Enabled(s, t)
  {
    hide AfterAddQuota, AfterTransaction, WithRow;
  }

  /** Who must move so that `t` can: the owner of the mutex it waits for, or that owner's owner. */
  lemma NoDeadlock(s: State, t: nat) returns (runner: nat)
    requires LockInv(s) && t < |s.threads| && s.threads[t].pc != Finished
    ensures Enabled(s, runner)
  {
    hide AfterAddQuota, AfterTransaction, WithRow, Enabled;
    assert ThreadOk(s, t);
    runner := t;
    if s.threads[runner].pc.TakeCreateLock? && s.createOwner.Some? {
      runner := s.createOwner.value;
      assert ThreadOk(s, runner);
    }
    if s.threads[runner].pc.TakeOrderLock? && s.threads[runner].pc.lock in s.owner {
      assert OwnerOk(s, s.threads[runner].pc.lock);
      runner := s.owner[s.threads[runner].pc.lock];
    }
    EnabledForAnyOutcome(s, runner, true, 0.0);
  }

  function Rank(pc: Pc): nat {
    match pc
    case LoadLock => 10
    case TakeCreateLock => 9
    case LoadLockAgain => 8
    case StoreLock => 7
    case TakeOrderLock(_, _) => 6
    case DropCreateLock(_) => 5
    case ReadOrder => 4
    case SaveSuccess(_) => 3
    case AddQuota(_) => 2
    case CompleteInTransaction => 2
    case UnlockOrder => 1
    case ReadToExpire => 2
    case SaveExpired(_) => 1
    case Finished => 0
  }

  function TotalRank(threads: seq<Thread>): nat {
    if threads == [] then 0 else TotalRank(threads[..|threads| - 1]) + Rank(threads[|threads| - 1].pc)
  }

  lemma {:induction false} RankOfUpdate(threads: seq<Thread>, t: nat, thread: Thread)
    requires t < |threads|
    ensures TotalRank(threads[t := thread]) == TotalRank(threads) - Rank(threads[t].pc) + Rank(thread.pc)
  {
    var n := |threads| - 1;
    if t == n {
      assert threads[t := thread][..n] == threads[..n];
    } else {
      RankOfUpdate(threads[..n], t, thread);
      assert threads[t := thread][..n] == threads[..n][t := thread];
    }
  }

  /** Every step brings its thread closer to the end, so waiting is the only way not to finish. */
  lemma StepsLowerTheRank(s: State, t: nat, ok: bool, quotaPerUnit: real, s': State)
    requires t < |s.threads| && Step(s, t, ok, quotaPerUnit) == Some(s')
    ensures TotalRank(s'.threads) < TotalRank(s.threads)
  {
    hide AfterAddQuota, AfterTransaction, WithRow, TotalRank;
    RankOfUpdate(s.threads, t, s'.threads[t]);
  }

  function Run(s: State, events: seq<Event>, quotaPerUnit: real): Option<State>
    decreases |events|
  {
    if events == [] then Some(s) else
      match Apply(s, events[0], quotaPerUnit)
      case Some(s') => Run(s', events[1..], quotaPerUnit)
      case None => None
  }

  predicate AllFinished(s: State) {
    forall t :: 0 <= t < |s.threads| ==> s.threads[t].pc == Finished
  }

  /** Once no thread is added any more, the run is finite, and if each thread is stuck for some outcome, all
      are done. */
  lemma {:induction false} RunsEndFinished(s: State, events: seq<Event>, quotaPerUnit: real, s': State)
    requires LockInv(s) && forall i :: 0 <= i < |events| ==> events[i].Go?
    requires Run(s, events, quotaPerUnit) == Some(s')
    ensures |events| + TotalRank(s'.threads) <= TotalRank(s.threads)
    ensures AllFinished(s') || exists t :: Enabled(s', t)
    decreases |events|
  {
    if events == [] {
      forall t: nat | t < |s.threads| && s.threads[t].pc != Finished ensures exists u: nat :: Enabled(s, u) {
        var runner := NoDeadlock(s, t);
      }
    } else {
      hide Step, LockInv, Enabled;
      var next := Apply(s, events[0], quotaPerUnit).value;
      LockInvStep(s, events[0].thread, events[0].ok, quotaPerUnit, next);
      StepsLowerTheRank(s, events[0].thread, events[0].ok, quotaPerUnit, next);
      RunsEndFinished(next, events[1..], quotaPerUnit, s');
    }
  }

  // ---------- the books ----------

  predicate SameOrder(a: Row, b: Row) {
    a.(status := Pending) == b.(status := Pending)
  }

  predicate NotCredited(ledger: seq<Credit>, order: string) {
    forall i :: 0 <= i < |ledger| ==> ledger[i].order != order
  }

  predicate CreditOk(b: Books, i: nat, quotaPerUnit: real)
    requires i < |b.ledger|
  {
    var c := b.ledger[i];
    && c.order in b.rows
    && b.rows[c.order].status != Pending
    && c.user == b.rows[c.order].user
    && c.amount == QuotaOf(b.rows[c.order], c.role, quotaPerUnit)
    && NotCredited(b.ledger[..i], c.order)
  }

  function CreditedTo(ledger: seq<Credit>, user: nat): int {
    if ledger == [] then 0 else
      var c := ledger[|ledger| - 1];
      CreditedTo(ledger[..|ledger| - 1], user) + if c.user == user then c.amount else 0
  }

  predicate CopyOk(b: Books, thread: Thread) {
    match thread.pc
    case SaveSuccess(topUp) =>
      thread.order in b.rows && SameOrder(topUp, b.rows[thread.order]) && NotCredited(b.ledger, thread.order)
    case AddQuota(topUp) =>
      && thread.order in b.rows && SameOrder(topUp, b.rows[thread.order]) && NotCredited(b.ledger, thread.order)
      && b.rows[thread.order].status != Pending
    case SaveExpired(topUp) => thread.order in b.rows && SameOrder(topUp, b.rows[thread.order])
    case _ => true
  }

  ghost predicate BooksInv(s: State, start: Books, quotaPerUnit: real) {
    && (forall i :: 0 <= i < |s.books.ledger| ==> CreditOk(s.books, i, quotaPerUnit))
    && (forall t :: 0 <= t < |s.threads| ==> CopyOk(s.books, s.threads[t]))
    && (forall user ::
          Balance(s.books.balances, user) == Balance(start.balances, user) + CreditedTo(s.books.ledger, user))
  }

  /** What no step does to an order: lose it, change anything but its status, or make it pending again. */
  ghost predicate OrdersKept(b: Books, b': Books) {
    && b'.rows.Keys == b.rows.Keys
    && forall o :: o in b.rows ==>
      SameOrder(b'.rows[o], b.rows[o]) && (b.rows[o].status != Pending ==> b'.rows[o].status != Pending)
  }

  /** All that a step may do to the books: rewrite the status of one order, and credit it once. */
  ghost predicate BookStep(b: Books, b': Books, order: string, role: Role, credits: bool, quotaPerUnit: real) {
    && order in b.rows && order in b'.rows
    && b'.rows == b.rows[order := b'.rows[order]]
    && SameOrder(b'.rows[order], b.rows[order])
    && (b'.rows[order] == b.rows[order] || b'.rows[order].status != Pending)
    && (if credits
        then NotCredited(b.ledger, order) && b'.rows[order].status != Pending
             && b' == WithCredit(b, order, b.rows[order], role, quotaPerUnit).(rows := b'.rows)
        else b'.ledger == b.ledger && b'.balances == b.balances)
  }

  ghost predicate StepOnBooks(s: State, s': State, t: nat, credits: bool, quotaPerUnit: real)
    requires t < |s.threads|
  {
    && (credits ==> HoldsOrder(s.threads[t].pc))
    && (|| (s'.books == s.books && !credits)
        || BookStep(s.books, s'.books, s.threads[t].order, s.threads[t].role, credits, quotaPerUnit))
  }

  lemma PendingIsNotCredited(b: Books, order: string, quotaPerUnit: real)
    requires forall i :: 0 <= i < |b.ledger| ==> CreditOk(b, i, quotaPerUnit)
    requires order in b.rows && b.rows[order].status == Pending
    ensures NotCredited(b.ledger, order)
  {
    forall i | 0 <= i < |b.ledger| ensures b.ledger[i].order != order {
      assert CreditOk(b, i, quotaPerUnit);
    }
  }

  lemma SameOrderSameQuota(a: Row, b: Row, role: Role, quotaPerUnit: real)
    requires SameOrder(a, b)
    ensures QuotaOf(a, role, quotaPerUnit) == QuotaOf(b, role, quotaPerUnit) && a.user == b.user
    ensures forall st :: a.(status := st) == b.(status := st)
  {
  }

  lemma StepTouchesBooksLikeThis(s: State, start: Books, t: nat, ok: bool, quotaPerUnit: real, s': State)
    returns (credits: bool)
    requires t < |s.threads| && ThreadOk(s, t) && BooksInv(s, start, quotaPerUnit)
    requires Step(s, t, ok, quotaPerUnit) == Some(s')
    ensures StepOnBooks(s, s', t, credits, quotaPerUnit)
    ensures CopyOk(s.books, s.threads[t])
    ensures s'.threads[t].pc.SaveSuccess? ==> NotCredited(s.books.ledger, s.threads[t].order)
  {
    hide Truncate, QuotaOf;
    var order, role := s.threads[t].order, s.threads[t].role;
    assert CopyOk(s.books, s.threads[t]);
    if order in s.books.rows && s.books.rows[order].status == Pending {
      PendingIsNotCredited(s.books, order, quotaPerUnit);
    }
    if s.threads[t].pc.AddQuota? {
      SameOrderSameQuota(s.threads[t].pc.topUp, s.books.rows[order], role, quotaPerUnit);
    }
    credits := s'.books.ledger != s.books.ledger;
  }

  lemma CreditStaysOk(b: Books, b': Books, order: string, role: Role, credits: bool, quotaPerUnit: real, i: nat)
    requires forall j :: 0 <= j < |b.ledger| ==> CreditOk(b, j, quotaPerUnit)
    requires BookStep(b, b', order, role, credits, quotaPerUnit) && i < |b'.ledger|
    ensures CreditOk(b', i, quotaPerUnit)
  {
    hide Truncate, QuotaOf;
    SameOrderSameQuota(b'.rows[order], b.rows[order], b'.ledger[i].role, quotaPerUnit);
    if i < |b.ledger| {
      assert CreditOk(b, i, quotaPerUnit);
      assert b'.ledger[..i] == b.ledger[..i];
    } else {
      assert b'.ledger[..i] == b.ledger;
    }
  }

  lemma {:induction false} BalancesStayRight(b: Books, b': Books, start: Books, order: string, role: Role,
                                             credits: bool, quotaPerUnit: real, user: nat)
    requires Balance(b.balances, user) == Balance(start.balances, user) + CreditedTo(b.ledger, user)
    requires BookStep(b, b', order, role, credits, quotaPerUnit)
    ensures Balance(b'.balances, user) == Balance(start.balances, user) + CreditedTo(b'.ledger, user)
  {
    hide Truncate, QuotaOf;
    if credits {
      assert b'.ledger[..|b'.ledger| - 1] == b.ledger;
    }
  }

  /** Another thread's copy of its row stays right; the order mutex keeps it from being credited meanwhile. */
  lemma CopyStaysOk(s: State, s': State, t: nat, u: nat, credits: bool, quotaPerUnit: real)
    requires LockInv(s) && t < |s.threads| && u < |s.threads| && u != t
    requires StepOnBooks(s, s', t, credits, quotaPerUnit) && CopyOk(s.books, s.threads[u])
    ensures CopyOk(s'.books, s.threads[u])
  {
    hide Truncate, QuotaOf;
    if s.threads[u].order == s.threads[t].order && HoldsOrder(s.threads[u].pc) && credits {
      MutualExclusion(s, t, u);
    }
  }

  lemma OwnCopyIsOk(s: State, s': State, t: nat, ok: bool, credits: bool, quotaPerUnit: real)
    requires t < |s.threads| && Step(s, t, ok, quotaPerUnit) == Some(s')
    requires StepOnBooks(s, s', t, credits, quotaPerUnit) && CopyOk(s.books, s.threads[t])
    requires s'.threads[t].pc.SaveSuccess? ==> NotCredited(s.books.ledger, s.threads[t].order)
    ensures CopyOk(s'.books, s'.threads[t])
  {
    hide Truncate, QuotaOf;
  }

  lemma BooksInvStep(s: State, start: Books, t: nat, ok: bool, quotaPerUnit: real, s': State)
    requires LockInv(s) && BooksInv(s, start, quotaPerUnit)
    requires t < |s.threads| && Step(s, t, ok, quotaPerUnit) == Some(s')
    ensures BooksInv(s', start, quotaPerUnit) && OrdersKept(s.books, s'.books)
  {
    hide CopyOk, CreditOk, Step, Truncate, QuotaOf;
    assert ThreadOk(s, t);
    var credits := StepTouchesBooksLikeThis(s, start, t, ok, quotaPerUnit, s');
    EveryStepIsLockStep(s, t, ok, quotaPerUnit, s');
    var order, role := s.threads[t].order, s.threads[t].role;
    forall u | 0 <= u < |s'.threads| ensures CopyOk(s'.books, s'.threads[u]) {
      if u == t {
        OwnCopyIsOk(s, s', t, ok, credits, quotaPerUnit);
      } else {
        CopyStaysOk(s, s', t, u, credits, quotaPerUnit);
      }
    }
    if s'.books != s.books {
      forall i | 0 <= i < |s'.books.ledger| ensures CreditOk(s'.books, i, quotaPerUnit) {
        CreditStaysOk(s.books, s'.books, order, role, credits, quotaPerUnit, i);
      }
      forall user
        ensures Balance(s'.books.balances, user) == Balance(start.balances, user) + CreditedTo(s'.books.ledger, user)
      {
        BalancesStayRight(s.books, s'.books, start, order, role, credits, quotaPerUnit, user);
      }
    }
  }

  /** No thread yet, no mutex yet, nothing credited yet; any orders and any balances. */
  predicate Initial(s: State) {
    s.locks == map[] && s.owner == map[] && s.createOwner == None && s.threads == [] && s.books.ledger == []
  }

  predicate IsPending(b: Books, order: string) {
    order in b.rows && b.rows[order].status == Pending
  }

  /** Only an order that was pending at the start is settled. */
  ghost predicate SettlesPending(s: State, start: Books) {
    && (forall t :: 0 <= t < |s.threads| && Settling(s.threads[t]) ==>
          IsPending(start, s.threads[t].order))
    && (forall i :: 0 <= i < |s.books.ledger| ==> IsPending(start, s.books.ledger[i].order))
  }

  predicate Settling(thread: Thread) {
    thread.pc.SaveSuccess? || thread.pc.AddQuota?
  }

  lemma OnlyPendingStartsSettling(s: State, t: nat, ok: bool, quotaPerUnit: real, s': State)
    requires t < |s.threads| && Step(s, t, ok, quotaPerUnit) == Some(s')
    ensures Settling(s'.threads[t]) ==> Settling(s.threads[t]) || IsPending(s.books, s.threads[t].order)
  {
    hide QuotaOf, WithRow, AfterAddQuota, AfterTransaction;
  }

  lemma OnlyPendingIsCredited(s: State, t: nat, ok: bool, quotaPerUnit: real, s': State)
    requires t < |s.threads| && Step(s, t, ok, quotaPerUnit) == Some(s')
    ensures s'.books.ledger != s.books.ledger ==> Settling(s.threads[t]) || IsPending(s.books, s.threads[t].order)
  {
    hide QuotaOf;
  }

  lemma SettlesPendingStep(s: State, start: Books, t: nat, ok: bool, credits: bool, quotaPerUnit: real, s': State)
    requires OrdersKept(start, s.books) && SettlesPending(s, start)
    requires t < |s.threads| && Step(s, t, ok, quotaPerUnit) == Some(s')
    requires LockStep(s, s', t, s'.threads[t].pc) && StepOnBooks(s, s', t, credits, quotaPerUnit)
    ensures SettlesPending(s', start)
  {
    hide Step, QuotaOf;
    OnlyPendingStartsSettling(s, t, ok, quotaPerUnit, s');
    OnlyPendingIsCredited(s, t, ok, quotaPerUnit, s');
    assert IsPending(s.books, s.threads[t].order) ==> IsPending(start, s.threads[t].order);
    hide IsPending, TouchesCreateLock, TouchesOrderLock, CreatesLock;
  }

  ghost predicate Inv(s: State, start: Books, quotaPerUnit: real) {
    LockInv(s) && BooksInv(s, start, quotaPerUnit) && OrdersKept(start, s.books) && SettlesPending(s, start)
  }

  lemma EventKeepsInv(s: State, start: Books, e: Event, quotaPerUnit: real, s': State)
    requires Inv(s, start, quotaPerUnit) && Apply(s, e, quotaPerUnit) == Some(s')
    ensures Inv(s', start, quotaPerUnit) && LocksGrow(s, s') && OrdersKept(s.books, s'.books)
  {
    match e
    case Spawn(order, role) => SpawnKeepsLockInv(s, order, role);
    case Go(t, ok) =>
      LockInvStep(s, t, ok, quotaPerUnit, s');
      assert ThreadOk(s, t);
      hide Step;
      EveryStepIsLockStep(s, t, ok, quotaPerUnit, s');
      var credits := StepTouchesBooksLikeThis(s, start, t, ok, quotaPerUnit, s');
      SettlesPendingStep(s, start, t, ok, credits, quotaPerUnit, s');
      BooksInvStep(s, start, t, ok, quotaPerUnit, s');
  }

  lemma {:induction false} RunKeepsInv(s: State, start: Books, events: seq<Event>, quotaPerUnit: real, s': State)
    requires Inv(s, start, quotaPerUnit) && Run(s, events, quotaPerUnit) == Some(s')
    ensures Inv(s', start, quotaPerUnit) && LocksGrow(s, s') && OrdersKept(s.books, s'.books)
    decreases |events|
  {
    hide Inv, Apply;
    if events != [] {
      var next := Apply(s, events[0], quotaPerUnit).value;
      EventKeepsInv(s, start, events[0], quotaPerUnit, next);
      RunKeepsInv(next, start, events[1..], quotaPerUnit, s');
    }
  }

  /** What an order is sold for: its money when a Stripe order is completed by hand, else its amount. */
  predicate IsPriceOf(amount: int, r: Row, role: Role, quotaPerUnit: real) {
    var units := if role == Completer && r.stripe then r.money else r.amount as real;
    IsWholePart(amount, units * quotaPerUnit)
  }

  lemma QuotaIsPrice(r: Row, role: Role, quotaPerUnit: real)
    ensures IsPriceOf(QuotaOf(r, role, quotaPerUnit), r, role, quotaPerUnit)
  {
    TruncateIsWholePart(r.money * quotaPerUnit);
    TruncateIsWholePart(r.amount as real * quotaPerUnit);
  }

  ghost predicate CreditedOnceAndRightly(b: Books, start: Books, i: nat, quotaPerUnit: real)
    requires i < |b.ledger|
  {
    var c := b.ledger[i];
    && IsPending(start, c.order)
    && c.user == start.rows[c.order].user
    && IsPriceOf(c.amount, start.rows[c.order], c.role, quotaPerUnit)
    && c.amount == QuotaOf(start.rows[c.order], c.role, quotaPerUnit)
    && c.order in b.rows && b.rows[c.order].status != Pending
    && forall j :: 0 <= j < |b.ledger| && j != i ==> b.ledger[j].order != c.order
  }

  // ---------- who credited, and who set the status ----------

  /** Some thread has come for this order in this role. */
  ghost predicate WorksOn(s: State, order: string, role: Role) {
    exists t :: 0 <= t < |s.threads| && s.threads[t].order == order && s.threads[t].role == role
  }

  /** A credit has a thread of its own role behind it, and is never negative; a manual one is positive. */
  ghost predicate CreditFounded(s: State, i: nat)
    requires i < |s.books.ledger|
  {
    var c := s.books.ledger[i];
    c.role != Expirer && WorksOn(s, c.order, c.role) && c.amount >= 0 && (c.role == Completer ==> c.amount > 0)
  }

  /** A status is the one from the start, or was set by a thread of the order: expiry expires, settling succeeds. */
  ghost predicate StatusFounded(s: State, start: Books, order: string)
    requires order in s.books.rows && order in start.rows
  {
    match s.books.rows[order].status
    case Pending => start.rows[order].status == Pending
    case Expired => start.rows[order].status == Expired || WorksOn(s, order, Expirer)
    case Success => start.rows[order].status == Success || WorksOn(s, order, Settler) || WorksOn(s, order, Completer)
  }

  /** Only a callback settles in steps, only an administrator in a transaction. */
  predicate DoesItsWork(thread: Thread) {
    && (thread.pc.ReadOrder? || thread.pc.SaveSuccess? || thread.pc.AddQuota? ==> thread.role == Settler)
    && (thread.pc.CompleteInTransaction? ==> thread.role == Completer)
  }

  ghost predicate Founded(s: State, start: Books) {
    && s.books.rows.Keys == start.rows.Keys
    && (forall t :: 0 <= t < |s.threads| ==> DoesItsWork(s.threads[t]))
    && (forall i :: 0 <= i < |s.books.ledger| ==> CreditFounded(s, i))
    && (forall o :: o in start.rows ==> StatusFounded(s, start, o))
  }

  /** What one step writes, by its thread's role. */
  lemma StepDoesItsWork(s: State, t: nat, ok: bool, quotaPerUnit: real, s': State)
    requires t < |s.threads| && ThreadOk(s, t) && DoesItsWork(s.threads[t]) && Step(s, t, ok, quotaPerUnit) == Some(s')
    ensures DoesItsWork(s'.threads[t])
  {
    hide AfterAddQuota, AfterTransaction, WithRow, QuotaOf;
  }

  lemma StepSetsStatus(s: State, t: nat, ok: bool, quotaPerUnit: real, s': State)
    requires t < |s.threads| && ThreadOk(s, t) && DoesItsWork(s.threads[t]) && Step(s, t, ok, quotaPerUnit) == Some(s')
    ensures var order, role := s.threads[t].order, s.threads[t].role;
      && (forall o :: o in s.books.rows && o in s'.books.rows && o != order ==> s'.books.rows[o] == s.books.rows[o])
      && (order in s.books.rows && order in s'.books.rows ==>
            || s'.books.rows[order].status == s.books.rows[order].status
            || s'.books.rows[order].status == if role == Expirer then Expired else Success)
  {
    hide QuotaOf;
  }

  lemma StepCreditsForItsRole(s: State, t: nat, ok: bool, quotaPerUnit: real, s': State)
    requires t < |s.threads| && DoesItsWork(s.threads[t]) && Step(s, t, ok, quotaPerUnit) == Some(s')
    ensures var order, role := s.threads[t].order, s.threads[t].role;
      || s'.books.ledger == s.books.ledger
      || exists user, amount :: s'.books.ledger == s.books.ledger + [Credit(order, user, amount, role)]
           && role != Expirer && amount >= 0 && (role == Completer ==> amount > 0)
  {
    hide QuotaOf;
    if s'.books.ledger != s.books.ledger {
      var c := s'.books.ledger[|s.books.ledger|];
      assert s'.books.ledger == s.books.ledger + [Credit(c.order, c.user, c.amount, c.role)];
    }
  }

  lemma FoundedStep(s: State, start: Books, t: nat, ok: bool, quotaPerUnit: real, s': State)
    requires Founded(s, start) && s'.books.rows.Keys == s.books.rows.Keys
    requires t < |s.threads| && ThreadOk(s, t) && Step(s, t, ok, quotaPerUnit) == Some(s')
    requires LockStep(s, s', t, s'.threads[t].pc) && OrdersKept(s.books, s'.books)
    ensures Founded(s', start)
  {
    assert DoesItsWork(s.threads[t]);
    StepDoesItsWork(s, t, ok, quotaPerUnit, s');
    StepSetsStatus(s, t, ok, quotaPerUnit, s');
    StepCreditsForItsRole(s, t, ok, quotaPerUnit, s');
    hide Step, DoesItsWork, ThreadOk, TouchesCreateLock, TouchesOrderLock, CreatesLock;
    forall o, role | WorksOn(s, o, role) ensures WorksOn(s', o, role) {
      var u :| 0 <= u < |s.threads| && s.threads[u].order == o && s.threads[u].role == role;
      assert s'.threads[u].order == o && s'.threads[u].role == role;
    }
    assert s'.threads[t].order == s.threads[t].order && s'.threads[t].role == s.threads[t].role;
    assert WorksOn(s', s.threads[t].order, s.threads[t].role);
    hide WorksOn;
    forall i | 0 <= i < |s'.books.ledger| ensures CreditFounded(s', i) {
      if i < |s.books.ledger| {
        assert CreditFounded(s, i) && s'.books.ledger[i] == s.books.ledger[i];
      }
    }
    forall o | o in start.rows ensures StatusFounded(s', start, o) {
      assert StatusFounded(s, start, o);
    }
  }

  lemma SpawnKeepsFounded(s: State, start: Books, order: string, role: Role)
    requires Founded(s, start)
    ensures Founded(s.(threads := s.threads + [NewThread(order, role)]), start)
  {
    var s' := s.(threads := s.threads + [NewThread(order, role)]);
    forall o, r | WorksOn(s, o, r) ensures WorksOn(s', o, r) {
      var u :| 0 <= u < |s.threads| && s.threads[u].order == o && s.threads[u].role == r;
      assert s'.threads[u] == s.threads[u];
    }
    hide WorksOn;
    forall i | 0 <= i < |s'.books.ledger| ensures CreditFounded(s', i) {
      assert CreditFounded(s, i);
    }
    forall o | o in start.rows ensures StatusFounded(s', start, o) {
      assert StatusFounded(s, start, o);
    }
  }

  lemma {:induction false} RunKeepsFounded(s: State, start: Books, events: seq<Event>, quotaPerUnit: real, s': State)
    requires Inv(s, start, quotaPerUnit) && Founded(s, start) && Run(s, events, quotaPerUnit) == Some(s')
    ensures Founded(s', start)
    decreases |events|
  {
    if events != [] {
      var next := Apply(s, events[0], quotaPerUnit).value;
      EventKeepsInv(s, start, events[0], quotaPerUnit, next);
      match events[0] {
        case Spawn(order, role) => SpawnKeepsFounded(s, start, order, role);
        case Go(t, ok) =>
          assert ThreadOk(s, t);
          hide Step, Founded, Inv;
          EveryStepIsLockStep(s, t, ok, quotaPerUnit, next);
          FoundedStep(s, start, t, ok, quotaPerUnit, next);
      }
      hide Inv, Founded, Apply;
      RunKeepsFounded(next, start, events[1..], quotaPerUnit, s');
    }
  }

  /** Every interleaving: an order is credited at most once, by a thread that settles it and at its price, its user's
      balance has grown by exactly the credits, an order that has left `pending` never returns to it, and every other
      status was set by a thread whose business it is. */
  lemma {:induction false} CreditedAtMostOnce(s: State, events: seq<Event>, quotaPerUnit: real, s': State)
    requires Initial(s) && Run(s, events, quotaPerUnit) == Some(s')
    ensures forall i :: 0 <= i < |s'.books.ledger| ==> CreditedOnceAndRightly(s'.books, s.books, i, quotaPerUnit)
    ensures forall user ::
      Balance(s'.books.balances, user) == Balance(s.books.balances, user) + CreditedTo(s'.books.ledger, user)
    ensures OrdersKept(s.books, s'.books)
    ensures Founded(s', s.books)
  {
    RunKeepsInv(s, s.books, events, quotaPerUnit, s');
    RunKeepsFounded(s, s.books, events, quotaPerUnit, s');
    hide Truncate, QuotaOf, IsPriceOf, Founded;
    var ledger := s'.books.ledger;
    forall i | 0 <= i < |ledger| ensures CreditedOnceAndRightly(s'.books, s.books, i, quotaPerUnit) {
      assert CreditOk(s'.books, i, quotaPerUnit);
      forall j | 0 <= j < |ledger| && j != i ensures ledger[j].order != ledger[i].order {
        assert CreditOk(s'.books, j, quotaPerUnit);
        if j < i {
          assert ledger[..i][j] == ledger[j];
        } else {
          assert ledger[..j][i] == ledger[i];
        }
      }
      SameOrderSameQuota(s'.books.rows[ledger[i].order], s.books.rows[ledger[i].order], ledger[i].role, quotaPerUnit);
      QuotaIsPrice(s.books.rows[ledger[i].order], ledger[i].role, quotaPerUnit);
    }
  }

  // ---------- a paid order is credited ----------

  /** Nobody expires the order, and each way of settling it is worth something. */
  ghost predicate Payable(b: Books, order: string, quotaPerUnit: real) {
    && order in b.rows
    && b.rows[order].amount as real * quotaPerUnit >= 1.0
    && (b.rows[order].stripe ==> b.rows[order].money * quotaPerUnit >= 1.0)
  }

  lemma PayableIsWorthSomething(b: Books, order: string, quotaPerUnit: real, role: Role)
    requires Payable(b, order, quotaPerUnit)
    ensures QuotaOf(b.rows[order], role, quotaPerUnit) > 0
  {
  }

  predicate PastSaving(pc: Pc) {
    pc.AddQuota? || pc.UnlockOrder? || pc.Finished?
  }

  /** While the order is pending nobody is past saving it; after that it is credited or about to be. */
  ghost predicate Served(s: State, order: string) {
    && (forall t :: 0 <= t < |s.threads| && s.threads[t].order == order ==> s.threads[t].role != Expirer)
    && (IsPending(s.books, order) ==>
          forall t :: 0 <= t < |s.threads| && s.threads[t].order == order ==> !PastSaving(s.threads[t].pc))
    && (!IsPending(s.books, order) ==>
          || !NotCredited(s.books.ledger, order)
          || exists t :: 0 <= t < |s.threads| && s.threads[t].order == order && s.threads[t].pc.AddQuota?)
  }

  lemma OtherOrderServed(s: State, t: nat, credits: bool, quotaPerUnit: real, s': State, order: string)
    requires t < |s.threads| == |s'.threads| && s.threads[t].order != order && Served(s, order)
    requires LockStep(s, s', t, s'.threads[t].pc) && StepOnBooks(s, s', t, credits, quotaPerUnit)
    ensures Served(s', order)
  {
    hide QuotaOf, TouchesCreateLock, TouchesOrderLock, CreatesLock;
    if !NotCredited(s.books.ledger, order) {
      var i :| 0 <= i < |s.books.ledger| && s.books.ledger[i].order == order;
      assert s'.books.ledger[i].order == order;
    }
    if u: nat :| u < |s.threads| && s.threads[u].order == order && s.threads[u].pc.AddQuota? {
      assert s'.threads[u] == s.threads[u];
    }
  }

  /** The four kinds of step on the order itself. */
  lemma OwnStepServes(s: State, start: Books, t: nat, quotaPerUnit: real, s': State)
    requires t < |s.threads| && Step(s, t, true, quotaPerUnit) == Some(s')
    requires CopyOk(s.books, s.threads[t]) && OrdersKept(start, s.books) && s.threads[t].role != Expirer
    requires ThreadOk(s, t) && Payable(start, s.threads[t].order, quotaPerUnit)
    ensures var order, pc, pc' := s.threads[t].order, s.threads[t].pc, s'.threads[t].pc;
      && (IsPending(s.books, order) && !IsPending(s'.books, order) ==>
            pc'.AddQuota? || !NotCredited(s'.books.ledger, order))
      && (IsPending(s'.books, order) ==> IsPending(s.books, order) && (PastSaving(pc') ==> PastSaving(pc)))
      && (pc.AddQuota? ==> !NotCredited(s'.books.ledger, order))
      && s.books.ledger <= s'.books.ledger
  {
    var order, role := s.threads[t].order, s.threads[t].role;
    SameOrderSameQuota(s.books.rows[order], start.rows[order], role, quotaPerUnit);
    PayableIsWorthSomething(start, order, quotaPerUnit, role);
    if s.threads[t].pc.AddQuota? {
      SameOrderSameQuota(s.threads[t].pc.topUp, s.books.rows[order], role, quotaPerUnit);
    }
    hide Truncate, QuotaOf;
    if s'.books.ledger != s.books.ledger {
      assert s'.books.ledger[|s.books.ledger|].order == order;
    }
  }

  lemma ServedStep(s: State, start: Books, t: nat, quotaPerUnit: real, s': State, order: string)
    requires Inv(s, start, quotaPerUnit) && Payable(start, order, quotaPerUnit) && Served(s, order)
    requires t < |s.threads| && Step(s, t, true, quotaPerUnit) == Some(s')
    ensures Served(s', order)
  {
    hide Step, QuotaOf;
    assert ThreadOk(s, t) && CopyOk(s.books, s.threads[t]);
    EveryStepIsLockStep(s, t, true, quotaPerUnit, s');
    hide CopyOk, TouchesCreateLock, TouchesOrderLock, CreatesLock, LockInv, BooksInv, SettlesPending;
    if s.threads[t].order != order {
      var credits := StepTouchesBooksLikeThis(s, start, t, true, quotaPerUnit, s');
      OtherOrderServed(s, t, credits, quotaPerUnit, s', order);
    } else {
      OwnStepServes(s, start, t, quotaPerUnit, s');
      assert forall u :: 0 <= u < |s.threads| && u != t ==> s'.threads[u] == s.threads[u];
      if s'.threads[t].pc.AddQuota? {
        assert s'.threads[t].order == order;
      }
      if !NotCredited(s.books.ledger, order) {
        var i :| 0 <= i < |s.books.ledger| && s.books.ledger[i].order == order;
        assert s'.books.ledger[i].order == order;
      }
    }
  }

  lemma {:induction false} RunServes(s: State, start: Books, events: seq<Event>, quotaPerUnit: real, s': State,
                                     order: string)
    requires Inv(s, start, quotaPerUnit) && Payable(start, order, quotaPerUnit) && Served(s, order)
    requires IsPending(start, order)
    requires forall i :: 0 <= i < |events| ==> events[i] != Spawn(order, Expirer) && (events[i].Go? ==> events[i].ok)
    requires Run(s, events, quotaPerUnit) == Some(s')
    ensures Served(s', order)
    decreases |events|
  {
    if events != [] {
      var next := Apply(s, events[0], quotaPerUnit).value;
      EventKeepsInv(s, start, events[0], quotaPerUnit, next);
      hide Inv, Step;
      match events[0] {
        case Spawn(o, role) => SpawnServes(s, o, role, order);
        case Go(t, _) => ServedStep(s, start, t, quotaPerUnit, next, order);
      }
      hide Served;
      RunServes(next, start, events[1..], quotaPerUnit, s', order);
    }
  }

  lemma SpawnServes(s: State, o: string, role: Role, order: string)
    requires Served(s, order) && Spawn(o, role) != Spawn(order, Expirer)
    ensures Served(s.(threads := s.threads + [NewThread(o, role)]), order)
  {
    var s' := s.(threads := s.threads + [NewThread(o, role)]);
    if u: nat :| u < |s.threads| && s.threads[u].order == order && s.threads[u].pc.AddQuota? {
      assert s'.threads[u] == s.threads[u];
    }
  }

  /** When the database accepts every write and nobody expires it, a pending order that anyone settles is credited. */
  lemma {:induction false} PendingOrderIsCredited(s: State, events: seq<Event>, quotaPerUnit: real, s': State,
                                                  order: string, t: nat)
    requires Initial(s) && IsPending(s.books, order) && Payable(s.books, order, quotaPerUnit)
    requires forall i :: 0 <= i < |events| ==> events[i] != Spawn(order, Expirer) && (events[i].Go? ==> events[i].ok)
    requires Run(s, events, quotaPerUnit) == Some(s') && AllFinished(s')
    requires t < |s'.threads| && s'.threads[t].order == order
    ensures exists i :: 0 <= i < |s'.books.ledger| && s'.books.ledger[i].order == order
  {
    hide QuotaOf, Run;
    RunServes(s, s.books, events, quotaPerUnit, s', order);
  }
}
