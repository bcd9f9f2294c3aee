/**
 The worker pool of FetchUpstreamRatios: one goroutine per upstream, a semaphore of eight slots, a
 buffered channel with room for every result, and a wait group. Each step is one channel or wait
 group operation, taken in any order the scheduler likes.
 */
module FetchPool {
  import opened Outcomes

  const MAX_CONCURRENT_FETCHES := 8

  /** Where a goroutine stands; the deferred release of the slot runs before the deferred Done. */
  datatype Worker = Unstarted | AwaitingSlot | Fetching | Sent | Released | Exited

  datatype Main = Spawning(next: nat) | Waiting | Draining | Finished

  /** The fetched ratio table, or why there is none. */
  datatype UpstreamResult = Data(body: string) | Error(message: string)

  datatype Fetched = Fetched(upstream: nat, result: UpstreamResult)

  datatype Pool = Pool(
    workers: seq<Worker>, main: Main, slots: nat, waitGroup: nat,
    buffer: seq<Fetched>, closed: bool, drained: seq<Fetched>)

  datatype Event =
    | Spawn               // wg.Add(1) and go
    | TakeSlot(w: nat)    // sem <- struct{}{}
    | Send(w: nat, result: UpstreamResult)
    | ReleaseSlot(w: nat) // <-sem
    | Done(w: nat)
    | WaitAndClose
    | Receive
    | StopReceiving

  function With(p: Pool, w: nat, at: Worker): Pool
    requires w < |p.workers|
  {
    p.(workers := p.workers[w := at])
  }

  /** One step, or None when the scheduler cannot take it now. */
  function Step(p: Pool, e: Event): Option<Pool> {
    match e
    case Spawn =>
      if p.main.Spawning? then
        if p.main.next < |p.workers|
        then Some(With(p, p.main.next, AwaitingSlot).(main := Spawning(p.main.next + 1), waitGroup := p.waitGroup + 1))
        else Some(p.(main := Waiting))
      else None
    case TakeSlot(w) =>
      if w < |p.workers| && p.workers[w] == AwaitingSlot && p.slots < MAX_CONCURRENT_FETCHES
      then Some(With(p, w, Fetching).(slots := p.slots + 1)) else None
    case Send(w, result) =>
      if w < |p.workers| && p.workers[w] == Fetching && CanSend(p)
      then Some(With(p, w, Sent).(buffer := p.buffer + [Fetched(w, result)])) else None
    case ReleaseSlot(w) =>
      if w < |p.workers| && p.workers[w] == Sent && p.slots > 0
      then Some(With(p, w, Released).(slots := p.slots - 1)) else None
    case Done(w) =>
      if w < |p.workers| && p.workers[w] == Released && p.waitGroup > 0
      then Some(With(p, w, Exited).(waitGroup := p.waitGroup - 1)) else None
    case WaitAndClose =>
      if p.main == Waiting && p.waitGroup == 0 then Some(p.(main := Draining, closed := true)) else None
    case Receive =>
      if p.main == Draining && p.buffer != []
      then Some(p.(buffer := p.buffer[1..], drained := p.drained + [p.buffer[0]])) else None
    case StopReceiving =>
      if p.main == Draining && p.buffer == [] && p.closed then Some(p.(main := Finished)) else None
  }

  /** A send neither blocks (the buffer has room) nor panics (the channel is open). */
  predicate CanSend(p: Pool) {
    |p.buffer| < |p.workers| && !p.closed
  }

  function Initial(n: nat): Pool {
    Pool(seq(n, _ => Unstarted), Spawning(0), 0, 0, [], false, [])
  }

  // ---------- counting workers ----------

  predicate InFetch(w: Worker) { w == Fetching || w == Sent }
  predicate InGroup(w: Worker) { w != Unstarted && w != Exited }
  predicate HasSent(w: Worker) { w == Sent || w == Released || w == Exited }

  function Number(workers: seq<Worker>, counts: Worker -> bool): nat {
    if workers == [] then 0 else
      Number(workers[..|workers| - 1], counts) + if counts(workers[|workers| - 1]) then 1 else 0
  }

  function One(b: bool): nat { if b then 1 else 0 }

  lemma {:induction false} NumberOfUpdate(workers: seq<Worker>, w: nat, at: Worker, counts: Worker -> bool)
    requires w < |workers|
    ensures Number(workers[w := at], counts) + One(counts(workers[w])) == Number(workers, counts) + One(counts(at))
    ensures Number(workers, counts) <= |workers|
    ensures !counts(workers[w]) ==> Number(workers, counts) < |workers|
  {
    var n := |workers| - 1;
    if w == n {
      assert workers[w := at][..n] == workers[..n];
      if n > 0 {
        NumberOfUpdate(workers[..n], 0, at, counts);
      }
    } else {
      NumberOfUpdate(workers[..n], w, at, counts);
      assert workers[w := at][..n] == workers[..n][w := at];
    }
  }

  lemma {:induction false} SomeCounted(workers: seq<Worker>, counts: Worker -> bool) returns (w: nat)
    requires Number(workers, counts) > 0
    ensures w < |workers| && counts(workers[w])
  {
    w := |workers| - 1;
    if !counts(workers[w]) {
      w := SomeCounted(workers[..w], counts);
    }
  }

  lemma {:induction false} AllCounted(workers: seq<Worker>, counts: Worker -> bool)
    requires forall w :: 0 <= w < |workers| ==> counts(workers[w])
    ensures Number(workers, counts) == |workers|
  {
    if workers != [] {
      AllCounted(workers[..|workers| - 1], counts);
    }
  }

  // ---------- the invariant ----------

  function Upstreams(results: seq<Fetched>): (ids: seq<nat>)
    ensures |ids| == |results| && forall i :: 0 <= i < |results| ==> ids[i] == results[i].upstream
  {
    seq(|results|, i requires 0 <= i < |results| => results[i].upstream)
  }

  function Results(p: Pool): seq<Fetched> {
    p.drained + p.buffer
  }

  ghost predicate Started(p: Pool) {
    match p.main
    case Spawning(next) =>
      && next <= |p.workers|
      && forall w :: 0 <= w < |p.workers| ==> (p.workers[w] == Unstarted <==> w >= next)
    case _ => forall w :: 0 <= w < |p.workers| ==> p.workers[w] != Unstarted
  }

  /** Each worker that has sent has exactly one result on its way, and nobody else has. */
  ghost predicate OneResultEach(p: Pool) {
    && |Results(p)| == Number(p.workers, HasSent)
    && (forall i :: 0 <= i < |Results(p)| ==>
          Results(p)[i].upstream < |p.workers| && HasSent(p.workers[Results(p)[i].upstream]))
    && (forall w :: 0 <= w < |p.workers| && HasSent(p.workers[w]) ==> w in Upstreams(Results(p)))
    && (forall i, j :: 0 <= i < j < |Results(p)| ==> Results(p)[i].upstream != Results(p)[j].upstream)
  }

  ghost predicate Inv(p: Pool) {
    && Started(p)
    && p.slots == Number(p.workers, InFetch) <= MAX_CONCURRENT_FETCHES
    && p.waitGroup == Number(p.workers, InGroup)
    && (p.closed <==> p.main == Draining || p.main == Finished)
    && (p.closed ==> forall w :: 0 <= w < |p.workers| ==> p.workers[w] == Exited)
    && (!p.closed ==> p.drained == [])
    && (p.main == Finished ==> p.buffer == [])
    && OneResultEach(p)
  }

  lemma CountsAfter(p: Pool, w: nat, at: Worker)
    requires w < |p.workers|
    ensures var workers, was := p.workers[w := at], p.workers[w];
      && Number(workers, InFetch) + One(InFetch(was)) == Number(p.workers, InFetch) + One(InFetch(at))
      && Number(workers, InGroup) + One(InGroup(was)) == Number(p.workers, InGroup) + One(InGroup(at))
      && Number(workers, HasSent) + One(HasSent(was)) == Number(p.workers, HasSent) + One(HasSent(at))
  {
    NumberOfUpdate(p.workers, w, at, InFetch);
    NumberOfUpdate(p.workers, w, at, InGroup);
    NumberOfUpdate(p.workers, w, at, HasSent);
  }

  lemma WorkerStepKeepsInv(p: Pool, e: Event, p': Pool)
    requires Inv(p) && Step(p, e) == Some(p') && (e.TakeSlot? || e.Send? || e.ReleaseSlot? || e.Done?)
    ensures Inv(p')
  {
    hide Number;
    CountsAfter(p, e.w, p'.workers[e.w]);
    if e.Send? {
      assert Results(p') == Results(p) + [Fetched(e.w, e.result)];
      assert Upstreams(Results(p')) == Upstreams(Results(p)) + [e.w];
    } else {
      assert Results(p') == Results(p);
    }
  }

  lemma SpawnKeepsInv(p: Pool, p': Pool)
    requires Inv(p) && Step(p, Spawn) == Some(p')
    ensures Inv(p')
  {
    hide Number;
    assert Results(p') == Results(p);
    if p.main.next < |p.workers| {
      CountsAfter(p, p.main.next, AwaitingSlot);
    }
  }

  lemma SameResults(p: Pool, p': Pool)
    requires OneResultEach(p) && Results(p') == Results(p) && p'.workers == p.workers
    ensures OneResultEach(p')
  {
  }

  /** When the wait group is at zero, every goroutine has exited. */
  lemma WaitEndsWithAllExited(p: Pool)
    requires Inv(p) && p.main == Waiting && p.waitGroup == 0
    ensures forall w :: 0 <= w < |p.workers| ==> p.workers[w] == Exited
  {
    hide OneResultEach;
    forall w | 0 <= w < |p.workers| ensures p.workers[w] == Exited {
      NumberOfUpdate(p.workers, w, Exited, InGroup);
    }
  }

  lemma MainStepKeepsResults(p: Pool, e: Event, p': Pool)
    requires Step(p, e) == Some(p') && (e.WaitAndClose? || e.Receive? || e.StopReceiving?)
    ensures Results(p') == Results(p)
  {
    if e.Receive? {
      assert p.buffer == [p.buffer[0]] + p.buffer[1..];
    }
  }

  lemma MainStepKeepsInv(p: Pool, e: Event, p': Pool)
    requires Inv(p) && Step(p, e) == Some(p') && (e.WaitAndClose? || e.Receive? || e.StopReceiving?)
    ensures Inv(p')
  {
    hide Number, OneResultEach, Results;
    MainStepKeepsResults(p, e, p');
    SameResults(p, p');
    if e.WaitAndClose? {
      WaitEndsWithAllExited(p);
    }
  }

  lemma StepKeepsWorkers(p: Pool, e: Event, p': Pool)
    requires Step(p, e) == Some(p')
    ensures |p'.workers| == |p.workers|
  {
  }

  lemma StepKeepsInv(p: Pool, e: Event, p': Pool)
    requires Inv(p) && Step(p, e) == Some(p')
    ensures Inv(p') && |p'.workers| == |p.workers|
  {
    hide Step, Inv;
    StepKeepsWorkers(p, e, p');
    match e
    case Spawn => SpawnKeepsInv(p, p');
    case WaitAndClose => MainStepKeepsInv(p, e, p');
    case Receive => MainStepKeepsInv(p, e, p');
    case StopReceiving => MainStepKeepsInv(p, e, p');
    case _ => WorkerStepKeepsInv(p, e, p');
  }

  /** No operation of a goroutine that is due ever blocks for good or panics. */
  lemma DueOperationsGoThrough(p: Pool, w: nat)
    requires Inv(p) && w < |p.workers|
    ensures p.workers[w] == Fetching ==> CanSend(p)
    ensures p.workers[w] == Sent ==> p.slots > 0
    ensures p.workers[w] == Released ==> p.waitGroup > 0
  {
    NumberOfUpdate(p.workers, w, Exited, HasSent);
    NumberOfUpdate(p.workers, w, Exited, InFetch);
    NumberOfUpdate(p.workers, w, Exited, InGroup);
    hide Number;
  }

  lemma NoDeadlock(p: Pool) returns (e: Event)
    requires Inv(p) && p.main != Finished
    ensures Step(p, e).Some?
  {
    match p.main
    case Spawning(_) => e := Spawn;
    case Waiting =>
      if p.waitGroup == 0 {
        e := WaitAndClose;
      } else {
        var w := SomeCounted(p.workers, InGroup);
        if p.workers[w] == AwaitingSlot && p.slots == MAX_CONCURRENT_FETCHES {
          w := SomeCounted(p.workers, InFetch);
        }
        DueOperationsGoThrough(p, w);
        e := match p.workers[w]
          case AwaitingSlot => TakeSlot(w)
          case Fetching => Send(w, Data(""))
          case Sent => ReleaseSlot(w)
          case _ => Done(w);
      }
    case Draining => e := if p.buffer != [] then Receive else StopReceiving;
  }

  function Rank(w: Worker): nat {
    match w
    case Unstarted => 6
    case AwaitingSlot => 5
    case Fetching => 4
    case Sent => 2
    case Released => 1
    case Exited => 0
  }

  function RankSum(workers: seq<Worker>): nat {
    if workers == [] then 0 else RankSum(workers[..|workers| - 1]) + Rank(workers[|workers| - 1])
  }

  function Remaining(p: Pool): nat {
    RankSum(p.workers) + |p.buffer| +
    match p.main { case Spawning(_) => 3 case Waiting => 2 case Draining => 1 case Finished => 0 }
  }

  lemma {:induction false} RankOfUpdate(workers: seq<Worker>, w: nat, at: Worker)
    requires w < |workers|
    ensures RankSum(workers[w := at]) + Rank(workers[w]) == RankSum(workers) + Rank(at)
  {
    var n := |workers| - 1;
    if w == n {
      assert workers[w := at][..n] == workers[..n];
    } else {
      RankOfUpdate(workers[..n], w, at);
      assert workers[w := at][..n] == workers[..n][w := at];
    }
  }

  lemma StepsRunOut(p: Pool, e: Event, p': Pool)
    requires Inv(p) && Step(p, e) == Some(p')
    ensures Remaining(p') < Remaining(p)
  {
    hide OneResultEach, Number;
    match e
    case Spawn =>
      if p.main.next < |p.workers| {
        RankOfUpdate(p.workers, p.main.next, AwaitingSlot);
      }
    case TakeSlot(w) => RankOfUpdate(p.workers, w, Fetching);
    case Send(w, _) => RankOfUpdate(p.workers, w, Sent);
    case ReleaseSlot(w) => RankOfUpdate(p.workers, w, Released);
    case Done(w) => RankOfUpdate(p.workers, w, Exited);
    case _ =>
  }

  function Run(p: Pool, events: seq<Event>): Option<Pool>
    decreases |events|
  {
    if events == [] then Some(p) else
      match Step(p, events[0])
      case Some(p') => Run(p', events[1..])
      case None => None
  }

  lemma {:induction false} RunKeepsInv(p: Pool, events: seq<Event>, p': Pool)
    requires Inv(p) && Run(p, events) == Some(p')
    ensures Inv(p') && |events| + Remaining(p') <= Remaining(p) && |p'.workers| == |p.workers|
    decreases |events|
  {
    if events != [] {
      var next := Step(p, events[0]).value;
      StepKeepsInv(p, events[0], next);
      StepsRunOut(p, events[0], next);
      hide Inv, Remaining, Step;
      RunKeepsInv(next, events[1..], p');
    }
  }

  /** Nothing arrives that no goroutine sent. */
  lemma {:induction false} ResultsWereSent(p: Pool, events: seq<Event>, p': Pool, f: Fetched)
    requires Run(p, events) == Some(p') && f in Results(p')
    ensures f in Results(p) || Send(f.upstream, f.result) in events
    decreases |events|
  {
    if events != [] {
      var next := Step(p, events[0]).value;
      ResultsWereSent(next, events[1..], p', f);
      assert events == [events[0]] + events[1..];
    }
  }

  /** Exactly one result per upstream. */
  ghost predicate OnePerUpstream(results: seq<Fetched>, n: nat) {
    && |results| == n
    && (forall u :: 0 <= u < n ==> u in Upstreams(results))
    && (forall i, j :: 0 <= i < j < n ==> results[i].upstream != results[j].upstream)
  }

  lemma {:induction false} InitialCounts(n: nat)
    ensures var workers := seq(n, _ => Unstarted);
      Number(workers, InFetch) == Number(workers, InGroup) == Number(workers, HasSent) == 0 && RankSum(workers) == 6 * n
  {
    if n > 0 {
      InitialCounts(n - 1);
      assert seq(n, _ => Unstarted)[..n - 1] == seq(n - 1, _ => Unstarted);
    }
  }

  /** For any number of upstreams and any schedule: at most eight fetches at once, the pool stops only when finished,
      after a bounded number of steps, and then the receiver holds exactly one result per upstream. */
  lemma {:induction false} PoolDeliversOneResultEach(n: nat, events: seq<Event>, p: Pool)
    requires Run(Initial(n), events) == Some(p)
    ensures Number(p.workers, InFetch) <= 8
    ensures forall w :: 0 <= w < n ==> w < |p.workers| && (p.workers[w] == Fetching ==> CanSend(p))
    ensures |events| <= 6 * n + 3
    ensures (forall e :: Step(p, e) == None) ==> p.main == Finished
    ensures p.main == Finished ==> OnePerUpstream(p.drained, n)
    ensures forall f :: f in p.drained ==> Send(f.upstream, f.result) in events
  {
    InitialCounts(n);
    RunKeepsInv(Initial(n), events, p);
    forall w: nat | w < n ensures p.workers[w] == Fetching ==> CanSend(p) {
      DueOperationsGoThrough(p, w);
    }
    forall f | f in p.drained ensures Send(f.upstream, f.result) in events {
      ResultsWereSent(Initial(n), events, p, f);
    }
    if p.main == Finished {
      AllCounted(p.workers, HasSent);
      assert Results(p) == p.drained;
    } else {
      var e := NoDeadlock(p);
    }
  }
}
