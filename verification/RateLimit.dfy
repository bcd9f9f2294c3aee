/**
 The in-memory sliding-window limiter. The queue it keeps per key is short and is thrown away by
 a background sweep; the claim is that nobody can tell: every answer is the one that counting the
 whole history of admissions would give. Times are whole seconds on a clock that never goes back.
 */
module RateLimit {

  type Store = map<string, seq<int>>
  type History = map<string, seq<int>>

  /** The fixed limit of each key: `max` admissions in any window of `duration` seconds. */
  datatype Limit = Limit(max: int, duration: int)
  type Limits = map<string, Limit>

  function Queue(store: map<string, seq<int>>, key: string): seq<int> {
    if key in store then store[key] else []
  }

  /** How many admissions lie within the last `duration` seconds. */
  function RecentCount(admitted: seq<int>, now: int, duration: int): nat {
    if admitted == [] then 0 else
      RecentCount(admitted[..|admitted| - 1], now, duration) +
      if now - admitted[|admitted| - 1] < duration then 1 else 0
  }

  // ---------- counting the log ----------

  /** The reference limiter: admit when the history holds fewer than `max` recent admissions. */
  function Counted(log: History, key: string, limit: Limit, now: int): (History, bool) {
    if RecentCount(Queue(log, key), now, limit.duration) < limit.max
    then (log[key := Queue(log, key) + [now]], true) else (log, false)
  }

  predicate Ascending(s: seq<int>) {
    forall i, j :: 0 <= i < j < |s| ==> s[i] <= s[j]
  }

  /** The queue is the tail of the log; what it forgot is expired, unless the queue is full. */
  predicate KeyAgrees(queue: seq<int>, log: seq<int>, max: int, now: int, expiration: int) {
    && Ascending(log)
    && (log != [] ==> log[|log| - 1] <= now)
    && |queue| <= max && |queue| <= |log|
    && (forall i :: 0 <= i < |queue| ==> queue[i] == log[|log| - |queue| + i])
    && (|queue| < max ==> forall i :: 0 <= i < |log| - |queue| ==> now - log[i] > expiration)
  }

  predicate Spaced(log: seq<int>, limit: Limit) {
    limit.max >= 1 && forall i :: 0 <= i < |log| - limit.max ==> log[i + limit.max] - log[i] >= limit.duration
  }

  ghost predicate Agrees(store: Store, log: History, limits: Limits, now: int, expiration: int) {
    forall key :: key in limits ==>
      && KeyAgrees(Queue(store, key), Queue(log, key), limits[key].max, now, expiration)
      && Spaced(Queue(log, key), limits[key])
  }

  predicate LimitsFit(limits: Limits, expiration: int) {
    forall key :: key in limits ==> limits[key].max >= 1 && limits[key].duration <= expiration + 1
  }

  /** Which admissions lie within the last `duration` seconds. */
  function RecentAdmissions(admitted: seq<int>, now: int, duration: int): set<int> {
    set i | 0 <= i < |admitted| && now - admitted[i] < duration
  }

  lemma {:induction false} RecentCountCounts(admitted: seq<int>, now: int, duration: int)
    ensures RecentCount(admitted, now, duration) == |RecentAdmissions(admitted, now, duration)|
  {
    if admitted == [] {
      assert RecentAdmissions(admitted, now, duration) == {};
    } else {
      var n := |admitted| - 1;
      RecentCountCounts(admitted[..n], now, duration);
      var before := RecentAdmissions(admitted[..n], now, duration);
      assert RecentAdmissions(admitted, now, duration) == before + if now - admitted[n] < duration then {n} else {};
    }
  }

  // ---------- the two critical sections ----------

  /** What one call leaves in the store, and its answer. */
  function Requested(store: Store, key: string, limit: Limit, now: int): (Store, bool) {
    if key in store then
      if |store[key]| < limit.max then (store[key := store[key] + [now]], true)
      else if store[key] != [] && now - store[key][0] >= limit.duration
      then (store[key := store[key][1..] + [now]], true)
      else (store, false)
    else (store[key := [now]], true)
  }

  predicate Expired(queue: seq<int>, now: int, expiration: int) {
    queue == [] || now - queue[|queue| - 1] > expiration
  }

  function Swept(store: Store, now: int, expiration: int): Store {
    map key | key in store && !Expired(store[key], now, expiration) :: store[key]
  }

  class InMemoryRateLimiter {
    var store: Store
    const expirationSeconds: int
    ghost var history: History  // every admission since the start

    constructor (expiration: int)
      ensures Valid() && store == map[] && history == map[] && expirationSeconds == expiration
      ensures forall limits, clock :: LimitsFit(limits, expiration) ==> Counts(limits, clock)
    {
      store := map[];
      expirationSeconds := expiration;
      history := map[];
    }

    /** The store answers as the history would, for callers that keep to these limits, from this second on. */
    ghost predicate Counts(limits: Limits, clock: int)
      reads this
    {
      LimitsFit(limits, expirationSeconds) && Agrees(store, history, limits, clock, expirationSeconds)
    }

    /** No queue is stored empty: an absent key is stored with one entry, a full queue is shifted and appended to,
        and a sweep deletes whole keys. So the head of a full queue can be looked at whatever the limit. */
    ghost predicate Valid()
      reads this
    {
      forall key :: key in store ==> store[key] != []
    }

    /** The answer is the one that counting the history gives, for a caller that keeps to its limit. Making the
        queue of a new key panics on a negative limit. */
    method Request(key: string, maxRequestNum: int, duration: int, now: int, ghost limits: Limits, ghost clock: int)
      returns (ok: bool)
      requires Valid() && (key in store || maxRequestNum >= 0)
      modifies this
      ensures Valid()
      ensures old(Counts(limits, clock)) && clock <= now
              && key in limits && limits[key] == Limit(maxRequestNum, duration) ==>
        Counts(limits, now) && (ok <==> |RecentAdmissions(Queue(old(history), key), now, duration)| < maxRequestNum)
      ensures history == if ok then old(history)[key := Queue(old(history), key) + [now]] else old(history)
      ensures (store, ok) == Requested(old(store), key, Limit(maxRequestNum, duration), now)
    {
      ghost var was := store;
      ok := Admit(key, maxRequestNum, duration, now);
      if ok {
        history := history[key := Queue(history, key) + [now]];
      }
      RecentCountCounts(Queue(old(history), key), now, duration);
      hide RecentAdmissions;
      if old(Counts(limits, clock)) && clock <= now && key in limits && limits[key] == Limit(maxRequestNum, duration) {
        RequestAgrees(was, old(history), limits, clock, expirationSeconds, key, now);
        hide RecentCount, Requested, Agrees;
      }
    }

    method Admit(key: string, maxRequestNum: int, duration: int, now: int) returns (ok: bool)
      requires Valid() && (key in store || maxRequestNum >= 0)
      modifies this`store
      ensures Valid()
      ensures (store, ok) == Requested(old(store), key, Limit(maxRequestNum, duration), now)
    {
      if key in store {
        var queue := store[key];
        if |queue| < maxRequestNum {
          queue := queue + [now];
          store := store[key := queue];
          return true;
        } else {
          if now - queue[0] >= duration {
            queue := queue[1..];
            queue := queue + [now];
            store := store[key := queue];
            return true;
          } else {
            return false;
          }
        }
      } else {
        store := store[key := []];
        store := store[key := store[key] + [now]];
        assert [] + [now] == [now] && store == old(store)[key := [now]];
      }
      return true;
    }

    /** A sweep forgets no admission that a later answer could depend on. */
    method ClearExpiredItems(now: int, ghost limits: Limits, ghost clock: int)
      modifies this
      ensures old(Valid()) ==> Valid()
      ensures history == old(history) && store == Swept(old(store), now, expirationSeconds)
      ensures old(Counts(limits, clock)) && clock <= now ==> Counts(limits, now)
    {
      var keys := store.Keys;
      while keys != {}
        invariant keys <= old(store).Keys && history == old(history)
        invariant store == map key |
          key in old(store) && (key in keys || !Expired(old(store)[key], now, expirationSeconds))
          :: old(store)[key]
      {
        var key :| key in keys;
        var queue := store[key];
        var size := |queue|;
        if size == 0 || now - queue[size - 1] > expirationSeconds {
          store := store - {key};
        }
        keys := keys - {key};
      }
      if old(Counts(limits, clock)) && clock <= now {
        SweepAgrees(old(store), history, limits, clock, expirationSeconds, now);
      }
    }
  }

  // ---------- the queue against the log ----------

  lemma {:induction false} CountAtMost(log: seq<int>, k: nat, now: int, duration: int)
    requires k <= |log| && forall i :: 0 <= i < k ==> now - log[i] >= duration
    ensures RecentCount(log, now, duration) <= |log| - k
  {
    if |log| > 0 {
      CountAtMost(log[..|log| - 1], if k == |log| then k - 1 else k, now, duration);
    }
  }

  lemma {:induction false} CountAtLeast(log: seq<int>, k: nat, now: int, duration: int)
    requires k <= |log| && forall i :: k <= i < |log| ==> now - log[i] < duration
    ensures RecentCount(log, now, duration) >= |log| - k
  {
    if |log| > k {
      CountAtLeast(log[..|log| - 1], k, now, duration);
    }
  }

  /** The three ways `Request` decides, against the count. */
  lemma {:induction false} QueueDecidesLikeCount(queue: seq<int>, log: seq<int>, limit: Limit, now: int,
                                                 expiration: int)
    requires limit.max >= 1 && limit.duration <= expiration + 1
    requires KeyAgrees(queue, log, limit.max, now, expiration)
    ensures RecentCount(log, now, limit.duration) < limit.max
       <==> |queue| < limit.max || now - queue[0] >= limit.duration
  {
    var first := |log| - |queue|;
    if |queue| < limit.max {
      CountAtMost(log, first, now, limit.duration);
    } else {
      assert queue[0] == log[first];
      if now - queue[0] >= limit.duration {
        CountAtMost(log, first + 1, now, limit.duration);
      } else {
        CountAtLeast(log, first, now, limit.duration);
      }
    }
  }

  lemma AdmissionKeepsAgreement(queue: seq<int>, log: seq<int>, limit: Limit, now: int, expiration: int)
    requires limit.max >= 1 && limit.duration <= expiration + 1
    requires KeyAgrees(queue, log, limit.max, now, expiration)
    requires |queue| < limit.max || now - queue[0] >= limit.duration
    ensures var kept := if |queue| < limit.max then queue else queue[1..];
      KeyAgrees(kept + [now], log + [now], limit.max, now, expiration)
  {
  }

  lemma AdmissionKeepsSpacing(queue: seq<int>, log: seq<int>, limit: Limit, now: int, expiration: int)
    requires limit.max >= 1 && limit.duration <= expiration + 1
    requires KeyAgrees(queue, log, limit.max, now, expiration) && Spaced(log, limit)
    requires |queue| < limit.max || now - queue[0] >= limit.duration
    ensures Spaced(log + [now], limit)
  {
    var first := |log| - limit.max;
    if first >= 0 && |queue| == limit.max {
      assert queue[0] == log[first];
    }
    forall i | 0 <= i < |log + [now]| - limit.max ensures (log + [now])[i + limit.max] - log[i] >= limit.duration {
    }
  }

  lemma LaterStillAgrees(queue: seq<int>, log: seq<int>, max: int, clock: int, now: int, expiration: int)
    requires KeyAgrees(queue, log, max, clock, expiration) && clock <= now
    ensures KeyAgrees(queue, log, max, now, expiration)
  {
  }

  // ---------- whole runs ----------

  datatype Event =
    | Call(key: string, now: int)
    | Sweep(now: int)

  /** The clock never goes back, and callers use the configured limit of their key. */
  predicate Timely(events: seq<Event>, limits: Limits, clock: int) {
    && (forall i :: 0 <= i < |events| ==> clock <= events[i].now)
    && (forall i, j :: 0 <= i < j < |events| ==> events[i].now <= events[j].now)
    && (forall i :: 0 <= i < |events| && events[i].Call? ==> events[i].key in limits)
  }

  function Answers(store: Store, limits: Limits, expiration: int, events: seq<Event>): seq<bool>
    decreases |events|
  {
    if events == [] then [] else
      match events[0]
      case Call(key, now) =>
        var limit := if key in limits then limits[key] else Limit(0, 0);
        var (store', ok) := Requested(store, key, limit, now);
        [ok] + Answers(store', limits, expiration, events[1..])
      case Sweep(now) => Answers(Swept(store, now, expiration), limits, expiration, events[1..])
  }

  function CountedAnswers(log: History, limits: Limits, events: seq<Event>): seq<bool>
    decreases |events|
  {
    if events == [] then [] else
      match events[0]
      case Call(key, now) =>
        var limit := if key in limits then limits[key] else Limit(0, 0);
        var (log', ok) := Counted(log, key, limit, now);
        [ok] + CountedAnswers(log', limits, events[1..])
      case Sweep(now) => CountedAnswers(log, limits, events[1..])
  }

  lemma KeyRequestAgrees(store: Store, log: History, limit: Limit, expiration: int, key: string, now: int)
    requires limit.max >= 1 && limit.duration <= expiration + 1
    requires KeyAgrees(Queue(store, key), Queue(log, key), limit.max, now, expiration)
    requires Spaced(Queue(log, key), limit)
    ensures var (store', ok) := Requested(store, key, limit, now);
            var (log', ok') := Counted(log, key, limit, now);
            && ok == ok'
            && KeyAgrees(Queue(store', key), Queue(log', key), limit.max, now, expiration)
            && Spaced(Queue(log', key), limit)
  {
    var queue, admitted := Queue(store, key), Queue(log, key);
    QueueBounds(queue, admitted, limit.max, now, expiration);
    QueueDecidesLikeCount(queue, admitted, limit, now, expiration);
    if |queue| < limit.max || now - queue[0] >= limit.duration {
      AdmissionKeepsAgreement(queue, admitted, limit, now, expiration);
      AdmissionKeepsSpacing(queue, admitted, limit, now, expiration);
    }
    hide KeyAgrees, Spaced, RecentCount;
  }

  lemma QueueBounds(queue: seq<int>, log: seq<int>, max: int, now: int, expiration: int)
    requires KeyAgrees(queue, log, max, now, expiration)
    ensures |queue| <= max
  {
  }

  lemma OtherKeysUntouched(store: Store, log: History, limit: Limit, key: string, now: int, other: string)
    requires other != key
    ensures Queue(Requested(store, key, limit, now).0, other) == Queue(store, other)
    ensures Queue(Counted(log, key, limit, now).0, other) == Queue(log, other)
  {
  }

  lemma RequestAgrees(store: Store, log: History, limits: Limits, clock: int, expiration: int, key: string, now: int)
    requires LimitsFit(limits, expiration) && key in limits && clock <= now
    requires Agrees(store, log, limits, clock, expiration)
    ensures var (store', ok) := Requested(store, key, limits[key], now);
            var (log', ok') := Counted(log, key, limits[key], now);
            ok == ok' && Agrees(store', log', limits, now, expiration)
  {
    hide KeyAgrees, Spaced, Requested, Counted, Queue;
    forall k | k in limits
      ensures KeyAgrees(Queue(store, k), Queue(log, k), limits[k].max, now, expiration)
    {
      LaterStillAgrees(Queue(store, k), Queue(log, k), limits[k].max, clock, now, expiration);
    }
    KeyRequestAgrees(store, log, limits[key], expiration, key, now);
    forall k | k in limits && k != key
      ensures Queue(Requested(store, key, limits[key], now).0, k) == Queue(store, k)
      ensures Queue(Counted(log, key, limits[key], now).0, k) == Queue(log, k)
    {
      OtherKeysUntouched(store, log, limits[key], key, now, k);
    }
  }

  lemma ExpiredKeyAgrees(queue: seq<int>, log: seq<int>, max: int, clock: int, now: int, expiration: int)
    requires max >= 1 && clock <= now
    requires KeyAgrees(queue, log, max, clock, expiration) && Expired(queue, now, expiration)
    ensures KeyAgrees([], log, max, now, expiration)
  {
    if queue != [] {
      assert queue[|queue| - 1] == log[|log| - 1];
    }
  }

  lemma SweepAgrees(store: Store, log: History, limits: Limits, clock: int, expiration: int, now: int)
    requires LimitsFit(limits, expiration) && clock <= now
    requires Agrees(store, log, limits, clock, expiration)
    ensures Agrees(Swept(store, now, expiration), log, limits, now, expiration)
  {
    hide KeyAgrees, Spaced;
    forall key | key in limits
      ensures KeyAgrees(Queue(Swept(store, now, expiration), key), Queue(log, key), limits[key].max, now, expiration)
    {
      var queue, admitted, max := Queue(store, key), Queue(log, key), limits[key].max;
      if Expired(queue, now, expiration) {
        ExpiredKeyAgrees(queue, admitted, max, clock, now, expiration);
      } else {
        LaterStillAgrees(queue, admitted, max, clock, now, expiration);
      }
    }
  }

  /** The history itself after a run of the reference limiter. */
  function CountedHistory(log: History, limits: Limits, events: seq<Event>): History
    decreases |events|
  {
    if events == [] then log else
      match events[0]
      case Call(key, now) =>
        var limit := if key in limits then limits[key] else Limit(0, 0);
        CountedHistory(Counted(log, key, limit, now).0, limits, events[1..])
      case Sweep(_) => CountedHistory(log, limits, events[1..])
  }

  /** Every run of calls and sweeps gets the answers that counting the whole history gives, and in the
      history any `max` + 1 consecutive admissions of a key span at least its duration. */
  lemma {:induction false} LimiterCountsTheLog(store: Store, log: History, limits: Limits, expiration: int,
                                               events: seq<Event>, clock: int)
    requires LimitsFit(limits, expiration) && Timely(events, limits, clock)
    requires Agrees(store, log, limits, clock, expiration)
    ensures Answers(store, limits, expiration, events) == CountedAnswers(log, limits, events)
    ensures forall key :: key in limits ==> Spaced(Queue(CountedHistory(log, limits, events), key), limits[key])
    decreases |events|
  {
    if events == [] {
      assert forall key :: key in limits ==> Spaced(Queue(log, key), limits[key]);
    } else {
      var now := events[0].now;
      assert Timely(events[1..], limits, now) && clock <= now && (events[0].Call? ==> events[0].key in limits);
      hide Agrees, Requested, Counted, Swept, Spaced, Queue, LimitsFit, Timely;
      match events[0]
      case Call(key, _) =>
        RequestAgrees(store, log, limits, clock, expiration, key, now);
        var (store', ok) := Requested(store, key, limits[key], now);
        var (log', ok') := Counted(log, key, limits[key], now);
        LimiterCountsTheLog(store', log', limits, expiration, events[1..], now);
      case Sweep(_) =>
        SweepAgrees(store, log, limits, clock, expiration, now);
        LimiterCountsTheLog(Swept(store, now, expiration), log, limits, expiration, events[1..], now);
    }
  }

  /** The limiter as it starts: nothing stored, nothing admitted. */
  lemma {:induction false} FreshLimiterCountsTheLog(limits: Limits, expiration: int, events: seq<Event>, clock: int)
    requires LimitsFit(limits, expiration) && Timely(events, limits, clock)
    ensures Answers(map[], limits, expiration, events) == CountedAnswers(map[], limits, events)
    ensures forall key :: key in limits ==> Spaced(Queue(CountedHistory(map[], limits, events), key), limits[key])
  {
    LimiterCountsTheLog(map[], map[], limits, expiration, events, clock);
  }

  // ---------- the bound on the duration is exact ----------

  /** `max` calls at second 0, a sweep one second after they expire, and one more call. */
  function Forgotten(key: string, calls: nat, expiration: nat): seq<Event> {
    seq(calls, _ => Call(key, 0)) + [Sweep(expiration + 1), Call(key, expiration + 1)]
  }

  lemma {:induction false} ForgottenIsAdmitted(key: string, limit: Limit, expiration: nat, calls: nat, store: Store,
                                               log: History)
    requires limit.max >= 1 && limit.duration > expiration + 1 && calls <= limit.max
    requires Queue(store, key) == Queue(log, key) == seq(limit.max - calls, _ => 0)
    requires calls < limit.max ==> key in store
    ensures Answers(store, map[key := limit], expiration, Forgotten(key, calls, expiration))
         != CountedAnswers(log, map[key := limit], Forgotten(key, calls, expiration))
    decreases calls
  {
    var limits, events, queue := map[key := limit], Forgotten(key, calls, expiration), Queue(log, key);
    if calls == 0 {
      CountAtLeast(queue, 0, expiration + 1, limit.duration);
      assert events[0] == Sweep(expiration + 1);
      assert events[1..] == [Call(key, expiration + 1)] && events[1..][1..] == [];
      assert key !in Swept(store, expiration + 1, expiration);
      assert Answers(store, limits, expiration, events)[0];
      assert !CountedAnswers(log, limits, events)[0];
    } else {
      assert events[1..] == Forgotten(key, calls - 1, expiration);
      CountAtMost(queue, 0, 0, limit.duration);
      assert queue + [0] == seq(limit.max - (calls - 1), _ => 0);
      var store', log' := Requested(store, key, limit, 0).0, Counted(log, key, limit, 0).0;
      assert Requested(store, key, limit, 0).1 && Counted(log, key, limit, 0).1;
      assert events[0] == Call(key, 0);
      assert Answers(store, limits, expiration, events) == [true] + Answers(store', limits, expiration, events[1..]);
      assert CountedAnswers(log, limits, events) == [true] + CountedAnswers(log', limits, events[1..]);
      ForgottenIsAdmitted(key, limit, expiration, calls - 1, store', log');
      assert forall a: seq<bool>, b: seq<bool> :: [true] + a == [true] + b ==> ([true] + a)[1..] == a;
    }
  }

  const NANOS_PER_SECOND := 1_000_000_000

  /** time.Duration.Seconds, cut to whole seconds. */
  function WholeSeconds(nanos: int): int {
    if nanos >= 0 then nanos / NANOS_PER_SECOND else -(-nanos / NANOS_PER_SECOND)
  }

  /** Init starts the sweeper only when there is an expiration. */
  predicate Possible(events: seq<Event>, expirationNanos: int) {
    expirationNanos > 0 || forall i :: 0 <= i < |events| ==> !events[i].Sweep?
  }

  lemma {:induction false} OnlySweepsExpire(store: Store, limits: Limits, e1: int, e2: int, events: seq<Event>)
    requires forall i :: 0 <= i < |events| ==> !events[i].Sweep?
    ensures Answers(store, limits, e1, events) == Answers(store, limits, e2, events)
    decreases |events|
  {
    if events != [] {
      var limit := if events[0].key in limits then limits[events[0].key] else Limit(0, 0);
      OnlySweepsExpire(Requested(store, events[0].key, limit, events[0].now).0, limits, e1, e2, events[1..]);
    }
  }

  /** For one key, any limit and any expiration: every run is answered by counting the whole history exactly when the
      limit lets someone in, and there is no sweeper or the duration is at most one second longer than the expiration.
      With a limit of 0 the first call is let in, and then one per duration, where the count lets in nobody. */
  lemma LimiterCountsExactlyWhen(key: string, limit: Limit, expirationNanos: int)
    ensures var expiration := WholeSeconds(expirationNanos);
      limit.max >= 1 && (expirationNanos > 0 ==> limit.duration <= expiration + 1) <==>
      forall events, clock :: Timely(events, map[key := limit], clock) && Possible(events, expirationNanos) ==>
        Answers(map[], map[key := limit], expiration, events) == CountedAnswers(map[], map[key := limit], events)
  {
    var limits, expiration := map[key := limit], WholeSeconds(expirationNanos);
    if limit.max < 1 {
      var events := [Call(key, 0)];
      assert Timely(events, limits, 0) && Possible(events, expirationNanos);
      assert Answers(map[], limits, expiration, events)[0];
      assert !CountedAnswers(map[], limits, events)[0];
    } else if expirationNanos > 0 && limit.duration > expiration + 1 {
      assert Timely(Forgotten(key, limit.max, expiration), limits, 0);
      ForgottenIsAdmitted(key, limit, expiration, limit.max, map[], map[]);
    } else {
      forall events, clock | Timely(events, limits, clock) && Possible(events, expirationNanos)
        ensures Answers(map[], limits, expiration, events) == CountedAnswers(map[], limits, events)
      {
        if expirationNanos > 0 {
          FreshLimiterCountsTheLog(limits, expiration, events, clock);
        } else {
          FreshLimiterCountsTheLog(limits, limit.duration, events, clock);
          OnlySweepsExpire(map[], limits, expiration, limit.duration, events);
        }
      }
    }
  }
}
