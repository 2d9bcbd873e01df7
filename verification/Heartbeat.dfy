/** The timing of a claim's heartbeats against stale-claim recovery, in milliseconds of one clock. */
module Heartbeat {
  import opened QueueModel

  /** How late a heartbeat timer fires, and how long its UPDATE then takes to have effect. */
  datatype Beat = Beat(lateness: nat, latency: nat)

  /** A write of `updated_at`: the value written, and when it has effect. */
  datatype Write = Write(stamp: int, effect: int)

  function Interval(staleClaimMs: int): (ms: int)
    ensures ms >= 1
  {
    if staleClaimMs / 2 > 1 then staleClaimMs / 2 else 1
  }

  /** The writes of one claim: the claiming UPDATE itself, then one renewal per beat. The timer of a
    * renewal starts when the previous write has completed. */
  function Writes(staleClaimMs: int, first: Write, beats: seq<Beat>): (writes: seq<Write>)
    ensures |writes| == |beats| + 1 && writes[0] == first
    decreases |beats|
  {
    if beats == [] then [first]
    else
      var stamp := first.effect + Interval(staleClaimMs) + beats[0].lateness;
      [first] + Writes(staleClaimMs, Write(stamp, stamp + beats[0].latency), beats[1..])
  }

  /** Everything one renewal is late by: the previous write's latency, the timer's and its own. */
  function Slack(first: Write, beats: seq<Beat>, i: nat): int
    requires i < |beats|
  {
    (if i == 0 then first.effect - first.stamp else beats[i - 1].latency) + beats[i].lateness + beats[i].latency
  }

  ghost predicate SlackWithin(first: Write, beats: seq<Beat>, bound: nat) {
    first.stamp <= first.effect && forall i: nat | i < |beats| :: Slack(first, beats, i) <= bound
  }

  /** A recovery statement that read its clock at `readAt` and runs at `at`, after write `i` and no later
    * than the next one, finds the row stale. */
  predicate FoundStale(cfg: Config, row: Row, writes: seq<Write>, i: nat, readAt: int, at: int) {
    && i + 1 < |writes| && readAt <= at && writes[i].effect <= at <= writes[i + 1].effect
    && IsStale(cfg, row.(updatedAt := writes[i].stamp), readAt)
  }

  ghost predicate NeverStale(cfg: Config, row: Row, writes: seq<Write>) {
    forall i, readAt, at :: !FoundStale(cfg, row, writes, i, readAt, at)
  }

  lemma {:induction false} GapOf(staleClaimMs: int, first: Write, beats: seq<Beat>, bound: nat, i: nat)
    requires SlackWithin(first, beats, bound) && i < |beats|
    ensures var w := Writes(staleClaimMs, first, beats);
            w[i].effect <= w[i + 1].effect <= w[i].stamp + Interval(staleClaimMs) + bound
    decreases |beats|
  {
    var stamp := first.effect + Interval(staleClaimMs) + beats[0].lateness;
    var next := Write(stamp, stamp + beats[0].latency);
    assert Writes(staleClaimMs, first, beats) == [first] + Writes(staleClaimMs, next, beats[1..]);
    assert Slack(first, beats, 0) <= bound;
    if i > 0 {
      forall j: nat | j < |beats[1..]| ensures Slack(next, beats[1..], j) <= bound {
        assert Slack(next, beats[1..], j) == Slack(first, beats, j + 1);
      }
      GapOf(staleClaimMs, next, beats[1..], bound, i - 1);
    }
  }

  lemma InTime(cfg: Config, row: Row, first: Write, beats: seq<Beat>, bound: nat)
    requires SlackWithin(first, beats, bound) && Interval(cfg.staleClaimMs) + bound < cfg.staleClaimMs
    ensures NeverStale(cfg, row, Writes(cfg.staleClaimMs, first, beats))
  {
    var writes := Writes(cfg.staleClaimMs, first, beats);
    forall i: nat, readAt: int, at: int | i + 1 < |writes| ensures !FoundStale(cfg, row, writes, i, readAt, at) {
      GapOf(cfg.staleClaimMs, first, beats, bound, i);
    }
  }

  ghost predicate SafeWithin(cfg: Config, row: Row, bound: nat) {
    forall first, beats :: SlackWithin(first, beats, bound) ==> NeverStale(cfg, row, Writes(cfg.staleClaimMs, first, beats))
  }

  /** Recovery never resets the claim of a running worker, on any schedule whose slack per renewal is at
    * most `bound`, exactly when the interval plus that slack is below the stale threshold. */
  lemma LivenessBound(cfg: Config, row: Row, bound: nat)
    requires row.status == Processing
    ensures SafeWithin(cfg, row, bound) <==>
              (if cfg.staleClaimMs >= 4 then cfg.staleClaimMs / 2 else 1) + bound < cfg.staleClaimMs
  {
    if Interval(cfg.staleClaimMs) + bound < cfg.staleClaimMs {
      forall first, beats | SlackWithin(first, beats, bound)
        ensures NeverStale(cfg, row, Writes(cfg.staleClaimMs, first, beats))
      {
        InTime(cfg, row, first, beats, bound);
      }
    } else {
      var first, beats := Write(0, 0), [Beat(bound, 0)];
      var writes := Writes(cfg.staleClaimMs, first, beats);
      assert SlackWithin(first, beats, bound);
      var at := Interval(cfg.staleClaimMs) + bound;
      assert writes[1] == Write(at, at);
      assert FoundStale(cfg, row, writes, 0, at, at);
    }
  }

  /** The constructor's check `staleClaimMs >= 2` is the exact bound for a schedule without slack. */
  lemma MinimumStaleClaim(cfg: Config, row: Row)
    requires row.status == Processing
    ensures SafeWithin(cfg, row, 0) <==> cfg.staleClaimMs >= 2
  {
    LivenessBound(cfg, row, 0);
  }
}
