/** The in-process `inFlight` map of one dispatcher with one poll loop.
  *
  * The loop reads the count of a task, awaits the claim transaction, and then writes back the count it
  * read plus one. Executions that settle during that await decrement the map in between, and their
  * decrement is overwritten. Which claims win, and when executions settle, is up to the environment.
  */
module LocalCounter {
  import opened Prelude

  type TaskId = string

  datatype Pending = Pending(task: TaskId, read: int)

  /** `running` counts the executions that have started and not ended; `dropped` the decrements that a
    * later write-back overwrote; `rejected` the executions that ended without a decrement. */
  datatype Counter = Counter(
    inFlight: map<TaskId, int>, pending: Option<Pending>,
    running: map<TaskId, nat>, dropped: map<TaskId, int>, rejected: map<TaskId, nat>)

  datatype Event =
    | Read(task: TaskId)
    | ClaimLost
    | ClaimWon
    | Settle(task: TaskId)
    | Reject(task: TaskId)

  function Get<T>(m: map<TaskId, T>, t: TaskId, absent: T): T {
    if t in m then m[t] else absent
  }

  predicate CanHappen(s: Counter, e: Event) {
    match e
    case Read(_) => s.pending.None?
    case ClaimLost => s.pending.Some?
    case ClaimWon => s.pending.Some?
    case Settle(t) => Get(s.running, t, 0) > 0
    case Reject(t) => Get(s.running, t, 0) > 0
  }

  function Next(limits: map<TaskId, nat>, s: Counter, e: Event): Counter
    requires CanHappen(s, e)
  {
    match e
    case Read(t) =>
      var read := Get(s.inFlight, t, 0);
      if t !in limits || read >= limits[t] then s else s.(pending := Some(Pending(t, read)))
    case ClaimLost => s.(pending := None)
    case ClaimWon =>
      var p := s.pending.value;
      s.(pending := None,
         dropped := s.dropped[p.task := Get(s.dropped, p.task, 0) + p.read - Get(s.inFlight, p.task, 0)],
         inFlight := s.inFlight[p.task := p.read + 1],
         running := s.running[p.task := Get(s.running, p.task, 0) + 1])
    case Settle(t) =>
      s.(inFlight := s.inFlight[t := Get(s.inFlight, t, 1) - 1], running := s.running[t := s.running[t] - 1])
    case Reject(t) =>
      s.(running := s.running[t := s.running[t] - 1], rejected := s.rejected[t := Get(s.rejected, t, 0) + 1])
  }

  const START := Counter(map[], None, map[], map[], map[])

  ghost predicate IsTrace(limits: map<TaskId, nat>, from: Counter, events: seq<Event>, to: Counter)
    decreases |events|
  {
    if events == [] then from == to
    else CanHappen(from, events[0]) && IsTrace(limits, Next(limits, from, events[0]), events[1..], to)
  }

  function Limit(limits: map<TaskId, nat>, t: TaskId): nat { Get(limits, t, 0) }

  /** The books of one task: every unit of the counter is a running execution, an overwritten
    * decrement or a rejected execution, and the counter stays within the limit. */
  ghost predicate Balanced(limits: map<TaskId, nat>, s: Counter, t: TaskId) {
    var n, running, dropped, rejected :=
      Get(s.inFlight, t, 0), Get(s.running, t, 0), Get(s.dropped, t, 0), Get(s.rejected, t, 0);
    && n == running + dropped + rejected
    && 0 <= dropped
    && n <= Limit(limits, t)
    && (dropped > 0 ==> dropped < Limit(limits, t))
    && (running > 0 ==> t in s.inFlight)
    && (s.pending.Some? && s.pending.value.task == t ==> n <= s.pending.value.read < Limit(limits, t))
  }

  ghost predicate Valid(limits: map<TaskId, nat>, s: Counter) {
    forall t :: Balanced(limits, s, t)
  }

  lemma NextKeepsValid(limits: map<TaskId, nat>, s: Counter, e: Event)
    requires Valid(limits, s) && CanHappen(s, e)
    ensures Valid(limits, Next(limits, s, e))
  {
    forall t ensures Balanced(limits, Next(limits, s, e), t) {
      assert Balanced(limits, s, t);
      NextKeepsBalanced(limits, s, e, t);
    }
  }

  lemma NextKeepsBalanced(limits: map<TaskId, nat>, s: Counter, e: Event, t: TaskId)
    requires Balanced(limits, s, t) && CanHappen(s, e)
    ensures Balanced(limits, Next(limits, s, e), t)
  {
  }

  lemma {:induction false} TraceKeepsValid(limits: map<TaskId, nat>, from: Counter, events: seq<Event>, to: Counter)
    requires Valid(limits, from) && IsTrace(limits, from, events, to)
    ensures Valid(limits, to)
    decreases |events|
  {
    if events != [] {
      NextKeepsValid(limits, from, events[0]);
      TraceKeepsValid(limits, Next(limits, from, events[0]), events[1..], to);
    }
  }

  /** The local counter never under-counts, so one process never runs more than `concurrencyLimit`
    * executions of a task at once; and it is exact precisely when no decrement was overwritten and no
    * execution was rejected. */
  lemma CounterIsSafeOverestimate(limits: map<TaskId, nat>, events: seq<Event>, s: Counter, t: TaskId)
    requires IsTrace(limits, START, events, s)
    ensures Get(s.running, t, 0) <= Get(s.inFlight, t, 0) <= Limit(limits, t)
    ensures Get(s.running, t, 0) == Get(s.inFlight, t, 0)
            <==> Get(s.dropped, t, 0) == 0 && Get(s.rejected, t, 0) == 0
  {
    TraceKeepsValid(limits, START, events, s);
    assert Balanced(limits, s, t);
  }

  /** With a limit of one no decrement can be overwritten: without rejections the counter is exact. */
  lemma ExactAtLimitOne(limits: map<TaskId, nat>, events: seq<Event>, s: Counter, t: TaskId)
    requires IsTrace(limits, START, events, s) && Limit(limits, t) == 1
    ensures Get(s.inFlight, t, 0) == Get(s.running, t, 0) + Get(s.rejected, t, 0)
  {
    TraceKeepsValid(limits, START, events, s);
    assert Balanced(limits, s, t);
  }

  /** Overwritten decrements can cost at most `limit - 1` slots: unless executions were rejected, an
    * idle process always passes its own pre-filter again. */
  lemma NeverLockedOut(limits: map<TaskId, nat>, events: seq<Event>, s: Counter, t: TaskId)
    requires IsTrace(limits, START, events, s) && t in limits && limits[t] >= 1
    requires Get(s.running, t, 0) == 0 && Get(s.rejected, t, 0) == 0 && s.pending.None?
    ensures Next(limits, s, Read(t)).pending.Some?
  {
    TraceKeepsValid(limits, START, events, s);
    assert Balanced(limits, s, t);
  }

  /** After this trace the counter is the number of running executions, unless some were rejected. */
  ghost predicate IsExact(limits: map<TaskId, nat>, events: seq<Event>, s: Counter, t: TaskId) {
    IsTrace(limits, START, events, s) && Get(s.rejected, t, 0) == 0 ==> Get(s.inFlight, t, 0) == Get(s.running, t, 0)
  }

  /** Without rejections the counter is exact after every trace, if and only if the limit is at most one. */
  lemma ExactExactly(limits: map<TaskId, nat>, t: TaskId)
    ensures (forall events, s :: IsExact(limits, events, s, t)) <==> Limit(limits, t) <= 1
  {
    if Limit(limits, t) <= 1 {
      forall events, s ensures IsExact(limits, events, s, t) {
        if IsTrace(limits, START, events, s) {
          TraceKeepsValid(limits, START, events, s);
          assert Balanced(limits, s, t);
        }
      }
    } else {
      var events, s := SlotsAreLost(limits, t);
      assert !IsExact(limits, events, s, t);
    }
  }

  // ---------- histories ----------

  /** The `i`-th event leads from the `i`-th counter to the next. */
  ghost predicate IsEventOf(limits: map<TaskId, nat>, counters: seq<Counter>, events: seq<Event>, i: nat)
    requires i < |events| < |counters|
  {
    CanHappen(counters[i], events[i]) && counters[i + 1] == Next(limits, counters[i], events[i])
  }

  /** A trace with the counters in between. */
  ghost predicate IsHistory(limits: map<TaskId, nat>, counters: seq<Counter>, events: seq<Event>) {
    && |counters| == |events| + 1
    && counters[0] == START
    && forall i: nat | i < |events| :: IsEventOf(limits, counters, events, i)
  }

  lemma HistorySnoc(limits: map<TaskId, nat>, counters: seq<Counter>, events: seq<Event>, e: Event)
    requires IsHistory(limits, counters, events) && CanHappen(counters[|events|], e)
    ensures IsHistory(limits, counters + [Next(limits, counters[|events|], e)], events + [e])
  {
    var counters', events' := counters + [Next(limits, counters[|events|], e)], events + [e];
    forall i: nat | i < |events'| ensures IsEventOf(limits, counters', events', i) {
      if i < |events| {
        assert IsEventOf(limits, counters, events, i);
      }
    }
  }

  lemma {:induction false} HistoryIsTrace(limits: map<TaskId, nat>, counters: seq<Counter>, events: seq<Event>, n: nat)
    requires IsHistory(limits, counters, events) && n <= |events|
    ensures IsTrace(limits, START, events[..n], counters[n])
  {
    if n > 0 {
      HistoryIsTrace(limits, counters, events, n - 1);
      assert IsEventOf(limits, counters, events, n - 1);
      var last := [events[n - 1]];
      assert IsTrace(limits, counters[n - 1], last, counters[n]) by { assert last[1..] == []; }
      TraceAppend(limits, START, events[..n - 1], counters[n - 1], last, counters[n]);
      assert events[..n] == events[..n - 1] + last;
    }
  }

  /** How many executions of a task have ended without a decrement. */
  function Rejections(events: seq<Event>, t: TaskId): nat {
    if events == [] then 0 else (if events[0] == Reject(t) then 1 else 0) + Rejections(events[1..], t)
  }

  /** Nothing but a rejected execution is booked as rejected. */
  lemma {:induction false} RejectedExactly(limits: map<TaskId, nat>, from: Counter, events: seq<Event>, to: Counter, t: TaskId)
    requires IsTrace(limits, from, events, to)
    ensures Get(to.rejected, t, 0) == Get(from.rejected, t, 0) + Rejections(events, t)
    decreases |events|
  {
    if events != [] {
      RejectedExactly(limits, Next(limits, from, events[0]), events[1..], to, t);
    }
  }

  // ---------- the bound is reached ----------

  function Filling(t: TaskId, n: nat): (events: seq<Event>)
  {
    if n == 0 then [] else Filling(t, n - 1) + [Read(t), ClaimWon]
  }

  function Settling(t: TaskId, n: nat): seq<Event> {
    seq(n, _ => Settle(t))
  }

  lemma {:induction false} TraceAppend(limits: map<TaskId, nat>, a: Counter, xs: seq<Event>, b: Counter, ys: seq<Event>, c: Counter)
    requires IsTrace(limits, a, xs, b) && IsTrace(limits, b, ys, c)
    ensures IsTrace(limits, a, xs + ys, c)
    decreases |xs|
  {
    if xs == [] {
      assert xs + ys == ys;
    } else {
      TraceAppend(limits, Next(limits, a, xs[0]), xs[1..], b, ys, c);
      assert (xs + ys)[1..] == xs[1..] + ys;
    }
  }

  lemma {:induction false} FillingRuns(limits: map<TaskId, nat>, t: TaskId, n: nat) returns (s: Counter)
    requires n <= Limit(limits, t)
    ensures IsTrace(limits, START, Filling(t, n), s)
    ensures s.pending == None && Get(s.inFlight, t, 0) == n && Get(s.running, t, 0) == n
    ensures Get(s.dropped, t, 0) == 0 && (n > 0 ==> t in s.inFlight)
  {
    if n == 0 {
      s := START;
    } else {
      var before := FillingRuns(limits, t, n - 1);
      var read := Next(limits, before, Read(t));
      s := Next(limits, read, ClaimWon);
      assert IsTrace(limits, s, [], s);
      assert IsTrace(limits, read, [ClaimWon], s) by { assert [ClaimWon][1..] == []; }
      assert IsTrace(limits, before, [Read(t), ClaimWon], s) by { assert [Read(t), ClaimWon][1..] == [ClaimWon]; }
      TraceAppend(limits, START, Filling(t, n - 1), before, [Read(t), ClaimWon], s);
    }
  }

  lemma {:induction false} SettlingRuns(limits: map<TaskId, nat>, s: Counter, t: TaskId, n: nat) returns (s': Counter)
    requires n <= Get(s.running, t, 0) && t in s.inFlight
    ensures IsTrace(limits, s, Settling(t, n), s')
    ensures s'.pending == s.pending && s'.dropped == s.dropped && t in s'.inFlight
    ensures s'.inFlight[t] == s.inFlight[t] - n && Get(s'.running, t, 0) == Get(s.running, t, 0) - n
    decreases n
  {
    if n == 0 {
      s' := s;
    } else {
      s' := SettlingRuns(limits, Next(limits, s, Settle(t)), t, n - 1);
      assert Settling(t, n)[1..] == Settling(t, n - 1);
    }
  }

  /** Where the code is not exact: for every limit of two or more there is a run of one process, without
    * any failure, that loses `limit - 1` slots for good: nothing runs, yet the map still counts them. */
  lemma SlotsAreLost(limits: map<TaskId, nat>, t: TaskId) returns (events: seq<Event>, s: Counter)
    requires Limit(limits, t) >= 2
    ensures IsTrace(limits, START, events, s)
    ensures Get(s.running, t, 0) == 0 && Get(s.rejected, t, 0) == 0
    ensures Get(s.inFlight, t, 0) == Limit(limits, t) - 1
  {
    var n := Limit(limits, t) - 1;
    var full := FillingRuns(limits, t, n);
    var read := Next(limits, full, Read(t));
    var drained := SettlingRuns(limits, read, t, n);
    var won := Next(limits, drained, ClaimWon);
    s := Next(limits, won, Settle(t));
    var tail := [ClaimWon, Settle(t)];
    assert IsTrace(limits, won, [Settle(t)], s) by { assert [Settle(t)][1..] == []; }
    assert IsTrace(limits, drained, tail, s) by { assert tail[1..] == [Settle(t)]; }
    TraceAppend(limits, read, Settling(t, n), drained, tail, s);
    var rest := [Read(t)] + (Settling(t, n) + tail);
    assert IsTrace(limits, full, rest, s) by { assert rest[1..] == Settling(t, n) + tail; }
    events := Filling(t, n) + rest;
    TraceAppend(limits, START, Filling(t, n), full, rest, s);
    TraceKeepsValid(limits, START, events, s);
    assert Balanced(limits, s, t);
  }
}
