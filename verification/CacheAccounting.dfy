/**
 The global counters of the body cache under concurrency. A storage is created and closed in several
 atomic steps (check the usage, bump the count, bump the bytes; close, drop the count, drop the
 bytes), and any number of storages are at any stage at once.
 */
module CacheAccounting {
  import opened Outcomes

  datatype Kind = Disk | Memory

  datatype Stage =
    | Admitted     // passed IsDiskCacheAvailable, file not yet counted
    | Unbounded    // on its way to a counter without the usage check having seen its size
    | Counted      // count bumped, bytes not yet
    | Open
    | CloseBegun   // `closed` swapped to 1, nothing dropped yet
    | Uncounted    // count dropped, bytes not yet
    | Closed
    | Rejected

  datatype Cell = Cell(kind: Kind, size: nat, stage: Stage)

  datatype Counters = Counters(diskFiles: int, diskBytes: int, memoryBuffers: int, memoryBytes: int)

  datatype State = State(cells: seq<Cell>, counters: Counters)

  datatype Event =
    // CreateBodyStorage up to its decision, and CreateBodyStorageFromReader, whose file may differ in size
    // from the check
    | Create(size: nat, wantsDisk: bool)
    | CreateFromReader(size: nat)
    // the file cannot be written: CreateBodyStorage falls back to memory, the reader variant gives up
    | DiskFails(cell: nat)
    | BumpCount(cell: nat)
    | BumpBytes(cell: nat)
    | BeginClose(cell: nat)
    | DropCount(cell: nat)
    | DropBytes(cell: nat)

  function Plus(a: Counters, b: Counters): Counters {
    Counters(a.diskFiles + b.diskFiles, a.diskBytes + b.diskBytes,
             a.memoryBuffers + b.memoryBuffers, a.memoryBytes + b.memoryBytes)
  }

  /** What atomic additions to the two counters of a kind amount to. */
  function Delta(kind: Kind, count: int, bytes: int): Counters {
    if kind == Disk then Counters(count, bytes, 0, 0) else Counters(0, 0, count, bytes)
  }

  function Moved(s: State, i: nat, stage: Stage, count: int, bytes: int): State
    requires i < |s.cells|
  {
    State(s.cells[i := s.cells[i].(stage := stage)], Plus(s.counters, Delta(s.cells[i].kind, count, bytes)))
  }

  /** One atomic step, or None when it cannot happen. `limit` is the configured maximum in bytes. */
  function Step(s: State, e: Event, limit: int): Option<State> {
    match e
    case Create(size, wantsDisk) =>
      Some(s.(cells := s.cells + [if wantsDisk && s.counters.diskBytes + size <= limit
                                  then Cell(Disk, size, Admitted) else Cell(Memory, size, Unbounded)]))
    case CreateFromReader(size) => Some(s.(cells := s.cells + [Cell(Disk, size, Unbounded)]))
    case DiskFails(i) =>
      if i < |s.cells| && s.cells[i].kind == Disk
         && (s.cells[i].stage == Admitted || s.cells[i].stage == Unbounded) then
        Some(s.(cells := s.cells[i := if s.cells[i].stage == Admitted then Cell(Memory, s.cells[i].size, Unbounded)
                                      else s.cells[i].(stage := Rejected)]))
      else None
    case BumpCount(i) =>
      if i < |s.cells| && (s.cells[i].stage == Admitted || s.cells[i].stage == Unbounded)
      then Some(Moved(s, i, Counted, 1, 0)) else None
    case BumpBytes(i) =>
      if i < |s.cells| && s.cells[i].stage == Counted then Some(Moved(s, i, Open, 0, s.cells[i].size)) else None
    case BeginClose(i) =>
      // a second close loses the compare-and-swap and does nothing
      if i < |s.cells| && s.cells[i].stage == Open then Some(Moved(s, i, CloseBegun, 0, 0))
      else if i < |s.cells| && s.cells[i].stage in {CloseBegun, Uncounted, Closed} then Some(s)
      else None
    case DropCount(i) =>
      if i < |s.cells| && s.cells[i].stage == CloseBegun then Some(Moved(s, i, Uncounted, -1, 0)) else None
    case DropBytes(i) =>
      if i < |s.cells| && s.cells[i].stage == Uncounted then Some(Moved(s, i, Closed, 0, 0 - s.cells[i].size)) else None
  }

  // ---------- what the counters count ----------

  predicate CountedIn(cell: Cell) {
    cell.stage == Counted || cell.stage == Open || cell.stage == CloseBegun
  }

  predicate BytesIn(cell: Cell) {
    cell.stage == Open || cell.stage == CloseBegun || cell.stage == Uncounted
  }

  function Contribution(cell: Cell): Counters {
    Delta(cell.kind, if CountedIn(cell) then 1 else 0, if BytesIn(cell) then cell.size else 0)
  }

  function Sum(cells: seq<Cell>): Counters {
    if cells == [] then Counters(0, 0, 0, 0) else Plus(Sum(cells[..|cells| - 1]), Contribution(cells[|cells| - 1]))
  }

  /** The counters are what the storages at every stage contribute. */
  predicate Right(s: State) {
    s.counters == Sum(s.cells)
  }

  lemma {:induction false} SumOfUpdate(cells: seq<Cell>, i: nat, cell: Cell)
    requires i < |cells|
    ensures Plus(Sum(cells[i := cell]), Contribution(cells[i])) == Plus(Sum(cells), Contribution(cell))
  {
    hide Contribution;
    var n := |cells| - 1;
    if i == n {
      assert cells[i := cell][..n] == cells[..n];
    } else {
      SumOfUpdate(cells[..n], i, cell);
      assert cells[i := cell][..n] == cells[..n][i := cell];
    }
  }

  function TouchedCell(s: State, e: Event): nat {
    match e
    case Create(_, _) => |s.cells|
    case CreateFromReader(_) => |s.cells|
    case DiskFails(i) => i
    case BumpCount(i) => i
    case BumpBytes(i) => i
    case BeginClose(i) => i
    case DropCount(i) => i
    case DropBytes(i) => i
  }

  /** Every step touches one cell, and moves the counters by what that cell's contribution changes. */
  lemma StepMovesOneCell(s: State, e: Event, limit: int, s': State)
    requires Step(s, e, limit) == Some(s')
    ensures var i := TouchedCell(s, e);
      && i < |s'.cells|
      && s'.cells == (if i == |s.cells| then s.cells + [s'.cells[i]] else s.cells[i := s'.cells[i]])
      && Plus(s'.counters, if i == |s.cells| then Counters(0, 0, 0, 0) else Contribution(s.cells[i]))
         == Plus(s.counters, Contribution(s'.cells[i]))
  {
  }

  lemma StepKeepsRight(s: State, e: Event, limit: int, s': State)
    requires Right(s) && Step(s, e, limit) == Some(s')
    ensures Right(s')
  {
    StepMovesOneCell(s, e, limit, s');
    hide Step, Contribution, Sum, Plus, TouchedCell;
    var i := TouchedCell(s, e);
    if i == |s.cells| {
      SumOfAppend(s.cells, s'.cells[i]);
      PlusCancels(s'.counters, Sum(s'.cells), Counters(0, 0, 0, 0));
    } else {
      SumOfUpdate(s.cells, i, s'.cells[i]);
      PlusCancels(s'.counters, Sum(s'.cells), Contribution(s.cells[i]));
    }
  }

  lemma PlusCancels(a: Counters, b: Counters, c: Counters)
    ensures Plus(a, c) == Plus(b, c) <==> a == b
  {
  }

  lemma SumOfAppend(cells: seq<Cell>, cell: Cell)
    ensures Plus(Sum(cells + [cell]), Counters(0, 0, 0, 0)) == Plus(Sum(cells), Contribution(cell))
  {
    hide Contribution;
    assert (cells + [cell])[..|cells|] == cells;
  }

  function Run(s: State, events: seq<Event>, limit: int): Option<State>
    decreases |events|
  {
    if events == [] then Some(s) else
      match Step(s, events[0], limit)
      case Some(s') => Run(s', events[1..], limit)
      case None => None
  }

  lemma {:induction false} RunKeepsRight(s: State, events: seq<Event>, limit: int, s': State)
    requires Right(s) && Run(s, events, limit) == Some(s')
    ensures Right(s')
    decreases |events|
  {
    hide Step;
    if events != [] {
      var next := Step(s, events[0], limit).value;
      StepKeepsRight(s, events[0], limit, next);
      RunKeepsRight(next, events[1..], limit, s');
    }
  }

  predicate Quiet(cells: seq<Cell>) {
    forall i :: 0 <= i < |cells| ==> cells[i].stage == Open || cells[i].stage == Closed || cells[i].stage == Rejected
  }

  function OpenNumber(cells: seq<Cell>, kind: Kind): nat {
    if cells == [] then 0 else
      var cell := cells[|cells| - 1];
      OpenNumber(cells[..|cells| - 1], kind) + if cell.kind == kind && cell.stage == Open then 1 else 0
  }

  function OpenBytes(cells: seq<Cell>, kind: Kind): nat {
    if cells == [] then 0 else
      var cell := cells[|cells| - 1];
      OpenBytes(cells[..|cells| - 1], kind) + if cell.kind == kind && cell.stage == Open then cell.size else 0
  }

  /** The numbers and total sizes of the open storages. */
  function OpenStorages(cells: seq<Cell>): Counters {
    Counters(OpenNumber(cells, Disk), OpenBytes(cells, Disk), OpenNumber(cells, Memory), OpenBytes(cells, Memory))
  }

  lemma {:induction false} QuietSum(cells: seq<Cell>)
    requires Quiet(cells)
    ensures Sum(cells) == OpenStorages(cells)
  {
    if cells != [] {
      var front, last := cells[..|cells| - 1], cells[|cells| - 1];
      QuietSum(front);
      assert Contribution(last) == if last.stage == Open then Delta(last.kind, 1, last.size) else Counters(0, 0, 0, 0);
      assert Sum(cells) == Plus(OpenStorages(front), Contribution(last));
    }
  }

  lemma {:induction false} SumNotNegative(cells: seq<Cell>)
    ensures var c := Sum(cells); c.diskFiles >= 0 && c.diskBytes >= 0 && c.memoryBuffers >= 0 && c.memoryBytes >= 0
  {
    if cells != [] {
      SumNotNegative(cells[..|cells| - 1]);
    }
  }

  const NOTHING := State([], Counters(0, 0, 0, 0))

  /** In every run of creations, fallbacks, failures and repeated or concurrent closes the counters never go negative,
      and whenever no creation or close is under way they are the numbers and total sizes of the open storages. */
  lemma {:induction false} CountersCountOpenStorages(events: seq<Event>, limit: int, s: State)
    requires Run(NOTHING, events, limit) == Some(s)
    ensures var c := s.counters; c.diskFiles >= 0 && c.diskBytes >= 0 && c.memoryBuffers >= 0 && c.memoryBytes >= 0
    ensures Quiet(s.cells) ==> s.counters == OpenStorages(s.cells)
    ensures (forall i :: 0 <= i < |s.cells| ==> s.cells[i].stage == Closed || s.cells[i].stage == Rejected) ==>
      s.counters == Counters(0, 0, 0, 0)
  {
    RunKeepsRight(NOTHING, events, limit, s);
    SumNotNegative(s.cells);
    if Quiet(s.cells) {
      QuietSum(s.cells);
    }
    if forall i :: 0 <= i < |s.cells| ==> s.cells[i].stage == Closed || s.cells[i].stage == Rejected {
      NothingOpen(s.cells);
    }
  }

  lemma {:induction false} NothingOpen(cells: seq<Cell>)
    requires forall i :: 0 <= i < |cells| ==> cells[i].stage == Closed || cells[i].stage == Rejected
    ensures Sum(cells) == Counters(0, 0, 0, 0)
  {
    if cells != [] {
      NothingOpen(cells[..|cells| - 1]);
      assert Contribution(cells[|cells| - 1]) == Counters(0, 0, 0, 0);
    }
  }

  // ---------- the usage limit ----------

  /** An admission that has passed the check but not yet added its bytes. */
  predicate Pending(cell: Cell) {
    cell.kind == Disk && (cell.stage == Admitted || cell.stage == Counted)
  }

  function PendingNumber(cells: seq<Cell>): nat {
    if cells == [] then 0 else PendingNumber(cells[..|cells| - 1]) + if Pending(cells[|cells| - 1]) then 1 else 0
  }

  function PendingBytes(cells: seq<Cell>): nat {
    if cells == [] then 0 else
      PendingBytes(cells[..|cells| - 1]) + if Pending(cells[|cells| - 1]) then cells[|cells| - 1].size else 0
  }

  function Committed(s: State): int {
    s.counters.diskBytes + PendingBytes(s.cells)
  }

  function PendingSize(cell: Cell): nat {
    if Pending(cell) then cell.size else 0
  }

  lemma {:induction false} PendingOfUpdate(cells: seq<Cell>, i: nat, cell: Cell)
    requires i < |cells|
    ensures PendingBytes(cells[i := cell]) + PendingSize(cells[i]) == PendingBytes(cells) + PendingSize(cell)
  {
    var n := |cells| - 1;
    if i == n {
      assert cells[i := cell][..n] == cells[..n];
    } else {
      PendingOfUpdate(cells[..n], i, cell);
      assert cells[i := cell][..n] == cells[..n][i := cell];
    }
  }

  lemma {:induction false} PendingIsBounded(cells: seq<Cell>, largest: nat)
    requires forall i :: 0 <= i < |cells| && Pending(cells[i]) ==> cells[i].size <= largest
    ensures PendingBytes(cells) <= PendingNumber(cells) * largest
  {
    if cells != [] {
      PendingIsBounded(cells[..|cells| - 1], largest);
    }
  }

  /** At most `k` admissions at once, each of at most `largest` bytes, all through CreateBodyStorage. */
  predicate Within(s: State, k: nat, largest: nat) {
    && PendingNumber(s.cells) <= k
    && forall i :: 0 <= i < |s.cells| && s.cells[i].kind == Disk ==>
         s.cells[i].size <= largest && s.cells[i].stage != Unbounded
  }

  lemma OneMoreWithinBound(pending: nat, k: nat, largest: nat)
    requires pending <= k - 1
    ensures pending * largest <= (k - 1) * largest
  {
  }

  lemma AdmissionKeepsBound(s: State, e: Event, limit: int, s': State, k: nat, largest: nat)
    requires Step(s, e, limit) == Some(s') && (e.Create? || e.CreateFromReader?)
    requires k >= 1 && Within(s, k, largest) && Within(s', k, largest)
    requires Committed(s) <= limit + (k - 1) * largest
    ensures Committed(s') <= limit + (k - 1) * largest
  {
    var cell := s'.cells[|s.cells|];
    assert s'.cells[..|s.cells|] == s.cells;
    if Pending(cell) {
      assert PendingNumber(s.cells) + 1 == PendingNumber(s'.cells);
      PendingIsBounded(s.cells, largest);
      OneMoreWithinBound(PendingNumber(s.cells), k, largest);
    }
  }

  lemma OtherStepsDoNotCommit(s: State, e: Event, limit: int, s': State, k: nat, largest: nat)
    requires Step(s, e, limit) == Some(s') && !e.Create? && !e.CreateFromReader?
    requires Within(s, k, largest)
    ensures Committed(s') <= Committed(s)
  {
    var i := TouchedCell(s, e);
    StepMovesOneCell(s, e, limit, s');
    PendingOfUpdate(s.cells, i, s'.cells[i]);
  }

  ghost predicate RunWithin(s: State, events: seq<Event>, limit: int, k: nat, largest: nat)
    decreases |events|
  {
    Within(s, k, largest) &&
    (events == [] ||
     (&& Step(s, events[0], limit).Some?
      && RunWithin(Step(s, events[0], limit).value, events[1..], limit, k, largest)))
  }

  /** Checked and committed bytes together exceed the limit by at most the other admissions that raced with
      the last one. */
  lemma {:induction false} UsageIsBounded(s: State, events: seq<Event>, limit: int, s': State, k: nat, largest: nat)
    requires k >= 1 && RunWithin(s, events, limit, k, largest) && Run(s, events, limit) == Some(s')
    requires Committed(s) <= limit + (k - 1) * largest
    ensures Committed(s') <= limit + (k - 1) * largest
    decreases |events|
  {
    if events != [] {
      var next := Step(s, events[0], limit).value;
      if events[0].Create? || events[0].CreateFromReader? {
        AdmissionKeepsBound(s, events[0], limit, next, k, largest);
      } else {
        OtherStepsDoNotCommit(s, events[0], limit, next, k, largest);
      }
      hide Step, Committed, Within;
      UsageIsBounded(next, events[1..], limit, s', k, largest);
    }
  }

  /** One admission at a time: the usage itself never exceeds the limit. */
  lemma {:induction false} SequentialUsageIsBounded(events: seq<Event>, limit: nat, s: State, largest: nat)
    requires RunWithin(NOTHING, events, limit, 1, largest) && Run(NOTHING, events, limit) == Some(s)
    ensures s.counters.diskBytes <= limit
  {
    UsageIsBounded(NOTHING, events, limit, s, 1, largest);
  }

  function Admitting(s: State, size: nat): State {
    s.(cells := s.cells + [Cell(Disk, size, Admitted)])
  }

  lemma RacerIsAdmitted(s: State, size: nat, most: nat)
    requires s.counters == Counters(0, 0, 0, 0) && Within(s, most, size) && PendingNumber(s.cells) < most
    ensures Step(s, Create(size, true), size) == Some(Admitting(s, size)) && Admitting(s, size).counters == s.counters
    ensures Committed(Admitting(s, size)) == Committed(s) + size
    ensures PendingNumber(Admitting(s, size).cells) == PendingNumber(s.cells) + 1
    ensures Within(Admitting(s, size), most, size)
  {
    assert Admitting(s, size).cells[..|s.cells|] == s.cells;
  }

  /** The bound is reached: `k` racing admissions of the limit's own size all pass the check, in a run that never has
      more than `most` of them pending. */
  lemma {:induction false} RaceAgainst(s: State, k: nat, size: nat, most: nat)
    requires s.counters == Counters(0, 0, 0, 0)
    requires Within(s, most, size) && PendingNumber(s.cells) + k <= most
    ensures var events := seq(k, _ => Create(size, true));
      && RunWithin(s, events, size, most, size)
      && Run(s, events, size).Some?
      && Committed(Run(s, events, size).value) == Committed(s) + k * size
    decreases k
  {
    hide Committed, Step, Within, PendingNumber, Admitting;
    var events := seq(k, _ => Create(size, true));
    if k > 0 {
      RacerIsAdmitted(s, size, most);
      var next := Admitting(s, size);
      RaceAgainst(next, k - 1, size, most);
      assert events[0] == Create(size, true) && events[1..] == seq(k - 1, _ => Create(size, true));
      assert k * size == (k - 1) * size + size;
    }
  }

  /** So the bound of `UsageIsBounded` cannot be lowered: for every `k` and size some run within its conditions, with
      the size as the limit, commits exactly limit + (k - 1) * size. */
  lemma BoundIsReached(k: nat, size: nat)
    requires k >= 1
    ensures var events := seq(k, _ => Create(size, true));
      && RunWithin(NOTHING, events, size, k, size)
      && Run(NOTHING, events, size).Some?
      && Committed(Run(NOTHING, events, size).value) == size + (k - 1) * size
  {
    RaceAgainst(NOTHING, k, size, k);
  }
}
