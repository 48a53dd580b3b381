/** Replaying a GPX track: only the total time matters, not how it is cut into ticks. */
module GpxReplay {
  import opened Prelude

  const EPOCH_MS := 1000.0

  datatype TrackPoint = TrackPoint(latitude: real, longitude: real, timestampMs: Option<int>)

  type Track = seq<TrackPoint>

  /** Where the replay stands: the index of the last point reached, the position shown, and unused progress. */
  datatype Replay = Replay(index: nat, latitude: real, longitude: real, progress: real)

  /** The time from one point to the next; a second when the track does not say or goes back in time. */
  function IntervalMs(from: TrackPoint, to: TrackPoint): (ms: real)
    ensures ms > 0.0
  {
    if from.timestampMs.Some? && to.timestampMs.Some? && to.timestampMs.value > from.timestampMs.value then
      (to.timestampMs.value - from.timestampMs.value) as real
    else EPOCH_MS
  }

  // ----- timestamped replay

  /** Moves on as long as the progress covers the interval to the next point. */
  function CatchUp(track: Track, r: Replay): (out: Replay)
    requires r.index < |track|
    ensures r.index <= out.index < |track|
    decreases |track| - r.index
  {
    if r.index + 1 >= |track| then r
    else
      var to := track[r.index + 1];
      var interval := IntervalMs(track[r.index], to);
      if r.progress < interval then r
      else CatchUp(track, Replay(r.index + 1, to.latitude, to.longitude, r.progress - interval))
  }

  /** One tick of `dt` milliseconds on a track replayed at `speed` times its own pace. */
  function TimedTick(track: Track, speed: real, r: Replay, dt: nat): (out: Replay)
    ensures track != [] && speed > 0.0 ==> out.index < |track|
  {
    if track == [] || speed <= 0.0 then r
    else CatchUp(track, r.(index := Min(r.index, |track| - 1), progress := r.progress + dt as real * speed))
  }

  function TimedTicks(track: Track, speed: real, r: Replay, dts: seq<nat>): Replay {
    if dts == [] then r else TimedTick(track, speed, TimedTicks(track, speed, r, dts[..|dts| - 1]), dts[|dts| - 1])
  }

  function Sum(dts: seq<nat>): nat {
    if dts == [] then 0 else Sum(dts[..|dts| - 1]) + dts[|dts| - 1]
  }

  /** Progress that comes later reaches as far as if it had been there from the start. */
  lemma {:induction false} CatchUpInTwo(track: Track, r: Replay, more: real)
    requires r.index < |track| && more >= 0.0
    ensures
      var first := CatchUp(track, r);
      CatchUp(track, first.(progress := first.progress + more)) == CatchUp(track, r.(progress := r.progress + more))
    decreases |track| - r.index
  {
    if r.index + 1 < |track| {
      var to := track[r.index + 1];
      var interval := IntervalMs(track[r.index], to);
      if r.progress >= interval {
        CatchUpInTwo(track, Replay(r.index + 1, to.latitude, to.longitude, r.progress - interval), more);
      }
    }
  }

  lemma TimedTickTwice(track: Track, speed: real, r: Replay, a: nat, b: nat)
    ensures TimedTick(track, speed, TimedTick(track, speed, r, a), b) == TimedTick(track, speed, r, a + b)
  {
    hide CatchUp;
    if track == [] || speed <= 0.0 {
      return;
    }
    var start := r.(index := Min(r.index, |track| - 1), progress := r.progress + a as real * speed);
    var more := b as real * speed;
    assert r.progress + (a + b) as real * speed == start.progress + more;
    CatchUpInTwo(track, start, more);
  }

  /** MAIN: index, position and leftover progress after any ticks are those after one tick of their sum. */
  lemma {:induction false} TimedReplayDependsOnTotal(track: Track, speed: real, r: Replay, dts: seq<nat>)
    requires dts != []
    ensures TimedTicks(track, speed, r, dts) == TimedTick(track, speed, r, Sum(dts))
  {
    var before, last := dts[..|dts| - 1], dts[|dts| - 1];
    if before == [] {
      assert Sum(dts) == last;
    } else {
      TimedReplayDependsOnTotal(track, speed, r, before);
      TimedTickTwice(track, speed, r, Sum(before), last);
    }
  }

  /** The time the track takes from point `i` to point `j`. */
  function Elapsed(track: Track, i: nat, j: nat): (ms: real)
    requires i <= j < |track|
    ensures ms >= 0.0
    decreases j
  {
    if i == j then 0.0 else Elapsed(track, i, j - 1) + IntervalMs(track[j - 1], track[j])
  }

  lemma {:induction false} ElapsedFromFirst(track: Track, i: nat, j: nat)
    requires i < j < |track|
    ensures Elapsed(track, i, j) == IntervalMs(track[i], track[i + 1]) + Elapsed(track, i + 1, j)
    decreases j
  {
    if i + 1 < j {
      ElapsedFromFirst(track, i, j - 1);
    }
  }

  /**
   MAIN: a tick stops at the last point whose time has come. The time to the point reached has been used
   up, the rest is left over, and it would not reach the next point.
   */
  lemma {:induction false} CatchUpStopsInTime(track: Track, r: Replay)
    requires r.index < |track| && r.progress >= 0.0
    ensures
      var out := CatchUp(track, r);
      && out.progress == r.progress - Elapsed(track, r.index, out.index) >= 0.0
      && (out.index + 1 < |track| ==> out.progress < IntervalMs(track[out.index], track[out.index + 1]))
      && (out.index > r.index ==>
            out.latitude == track[out.index].latitude && out.longitude == track[out.index].longitude)
      && (out.index == r.index ==> out == r)
    decreases |track| - r.index
  {
    if r.index + 1 < |track| && r.progress >= IntervalMs(track[r.index], track[r.index + 1]) {
      var to := track[r.index + 1];
      var interval := IntervalMs(track[r.index], to);
      CatchUpStopsInTime(track, Replay(r.index + 1, to.latitude, to.longitude, r.progress - interval));
      ElapsedFromFirst(track, r.index, CatchUp(track, r).index);
    }
  }

  /** Every point has a time, later than that of the one before. */
  predicate Rising(track: Track) {
    && (forall i :: 0 <= i < |track| ==> track[i].timestampMs.Some?)
    && (forall i, j :: 0 <= i < j < |track| ==> track[i].timestampMs.value < track[j].timestampMs.value)
  }

  /** Without two rising times an interval is a second. */
  lemma DefaultInterval(from: TrackPoint, to: TrackPoint)
    requires from.timestampMs.Some? && to.timestampMs.Some? ==> to.timestampMs.value <= from.timestampMs.value
    ensures IntervalMs(from, to) == 1000.0
  {}

  lemma {:induction false} ElapsedByTimes(track: Track, i: nat, j: nat)
    requires i <= j < |track| && Rising(track)
    ensures Elapsed(track, i, j) == (track[j].timestampMs.value - track[i].timestampMs.value) as real
    decreases j
  {
    if i < j {
      ElapsedByTimes(track, i, j - 1);
    }
  }

  lemma {:induction false} ElapsedBySeconds(track: Track, i: nat, j: nat)
    requires i <= j < |track| && forall k :: 0 <= k < |track| ==> track[k].timestampMs.None?
    ensures Elapsed(track, i, j) == 1000.0 * (j - i) as real
    decreases j
  {
    if i < j {
      ElapsedBySeconds(track, i, j - 1);
      DefaultInterval(track[j - 1], track[j]);
    }
  }

  lemma {:induction false} ElapsedGrows(track: Track, i: nat, j: nat, k: nat)
    requires i <= j <= k < |track|
    ensures Elapsed(track, i, j) <= Elapsed(track, i, k)
    ensures j < k ==> Elapsed(track, i, j + 1) <= Elapsed(track, i, k)
    decreases k
  {
    if j < k {
      ElapsedGrows(track, i, j, k - 1);
    }
  }

  lemma CaughtUp(track: Track, r: Replay, j: nat)
    requires r.progress >= 0.0 && r.index <= j < |track|
    ensures j <= CatchUp(track, r).index <==> Elapsed(track, r.index, j) <= r.progress
  {
    hide CatchUp, IntervalMs;
    var out := CatchUp(track, r);
    CatchUpStopsInTime(track, r);
    if j <= out.index {
      ElapsedGrows(track, r.index, j, out.index);
    } else {
      ElapsedGrows(track, r.index, out.index, j);
    }
  }

  /** Exactly the points whose time has come have been passed or reached. */
  lemma ReachedInTime(track: Track, speed: real, r: Replay, dts: seq<nat>, j: nat)
    requires speed > 0.0 && r.progress == 0.0 && dts != [] && r.index <= j < |track|
    ensures
      var out, total := TimedTicks(track, speed, r, dts), Sum(dts) as real * speed;
      && r.index <= out.index < |track|
      && (j <= out.index <==> Elapsed(track, r.index, j) <= total)
      && out.progress == total - Elapsed(track, r.index, out.index)
      && (out.index > r.index ==>
            out.latitude == track[out.index].latitude && out.longitude == track[out.index].longitude)
  {
    hide CatchUp, Sum, IntervalMs, TimedTicks, Elapsed;
    TimedReplayDependsOnTotal(track, speed, r, dts);
    var start := r.(progress := Sum(dts) as real * speed);
    StartsAt(track, speed, r, Sum(dts));
    CatchUpStopsInTime(track, start);
    CaughtUp(track, start, j);
  }

  lemma StartsAt(track: Track, speed: real, r: Replay, dt: nat)
    requires speed > 0.0 && r.progress == 0.0 && r.index < |track|
    ensures dt as real * speed >= 0.0
    ensures TimedTick(track, speed, r, dt) == CatchUp(track, r.(progress := dt as real * speed))
  {
    hide CatchUp;
  }

  /**
   MAIN: on a track with rising times, replayed from one of its points, the point shown after any ticks is the last
   one whose time lies at most the ticked time, multiplied by the speed, after that of the first; the rest is left.
   */
  lemma TimedReplayFollowsTimes(track: Track, speed: real, r: Replay, dts: seq<nat>, j: nat)
    requires Rising(track) && speed > 0.0 && r.progress == 0.0 && dts != [] && r.index <= j < |track|
    ensures
      var out, total := TimedTicks(track, speed, r, dts), Sum(dts) as real * speed;
      var first := track[r.index].timestampMs.value;
      && r.index <= out.index < |track|
      && (j <= out.index <==> (track[j].timestampMs.value - first) as real <= total)
      && out.progress == total - (track[out.index].timestampMs.value - first) as real
  {
    hide TimedTicks, Sum, Elapsed;
    ReachedInTime(track, speed, r, dts, j);
    ElapsedByTimes(track, r.index, j);
    ElapsedByTimes(track, r.index, TimedTicks(track, speed, r, dts).index);
  }

  /** On a track without times, each point takes a second of ticked time multiplied by the speed. */
  lemma UntimedReplayTakesSeconds(track: Track, speed: real, r: Replay, dts: seq<nat>, j: nat)
    requires forall k :: 0 <= k < |track| ==> track[k].timestampMs.None?
    requires speed > 0.0 && r.progress == 0.0 && dts != [] && r.index <= j < |track|
    ensures
      var out, total := TimedTicks(track, speed, r, dts), Sum(dts) as real * speed;
      j <= out.index <==> 1000.0 * (j - r.index) as real <= total
  {
    hide TimedTicks, Sum, Elapsed;
    ReachedInTime(track, speed, r, dts, j);
    ElapsedBySeconds(track, r.index, j);
  }

  // ----- plain replay: a fixed number of points per second

  function Floor(x: real): nat
    requires x >= 0.0
  {
    x.Floor
  }

  /** The points a tick of `dt` milliseconds is worth at `speed` points per second. */
  function Progress(speed: real, dt: nat): (points: real)
    ensures speed > 0.0 ==> points >= 0.0
  {
    dt as real / 1000.0 * speed
  }

  lemma ProgressAdds(speed: real, a: nat, b: nat)
    ensures Progress(speed, a + b) == Progress(speed, a) + Progress(speed, b)
  {}

  function PlainTick(track: Track, speed: real, r: Replay, dt: nat): Replay
    requires r.progress >= 0.0
  {
    if track == [] || speed <= 0.0 then r
    else
      var progress := r.progress + Progress(speed, dt);
      var steps := Floor(progress);
      if steps == 0 then r.(progress := progress)
      else
        var index := Min(Min(r.index, |track| - 1) + steps, |track| - 1);
        Replay(index, track[index].latitude, track[index].longitude, progress - steps as real)
  }

  function PlainTicks(track: Track, speed: real, r: Replay, dts: seq<nat>): (out: Replay)
    requires r.progress >= 0.0
    ensures out.progress >= 0.0
  {
    if dts == [] then r else PlainTick(track, speed, PlainTicks(track, speed, r, dts[..|dts| - 1]), dts[|dts| - 1])
  }

  /** The replay shows the point it has reached; `set_movement` starts it there. */
  predicate AtPoint(track: Track, r: Replay) {
    && r.index < |track| && 0.0 <= r.progress < 1.0
    && r.latitude == track[r.index].latitude && r.longitude == track[r.index].longitude
  }

  /** What a plain tick does, once the progress it adds is known. */
  function PlainAdvance(track: Track, r: Replay, more: real): (out: Replay)
    requires AtPoint(track, r) && more >= 0.0
    ensures AtPoint(track, out)
  {
    var steps := Floor(r.progress + more);
    var index := Min(r.index + steps, |track| - 1);
    Replay(index, track[index].latitude, track[index].longitude, r.progress + more - steps as real)
  }

  lemma PlainTickAdvances(track: Track, speed: real, r: Replay, dt: nat)
    requires AtPoint(track, r) && speed > 0.0
    ensures PlainTick(track, speed, r, dt) == PlainAdvance(track, r, Progress(speed, dt))
  {
    hide Progress;
  }

  lemma FloorOfSum(p: real, q: real)
    requires p >= 0.0 && q >= 0.0
    ensures Floor(p + q) == Floor(p) + Floor(p - Floor(p) as real + q)
  {}

  lemma AdvanceTwice(track: Track, r: Replay, p: real, q: real)
    requires AtPoint(track, r) && p >= 0.0 && q >= 0.0
    ensures PlainAdvance(track, PlainAdvance(track, r, p), q) == PlainAdvance(track, r, p + q)
  {
    hide Floor;
    FloorOfSum(r.progress + p, q);
    assert r.progress + (p + q) == r.progress + p + q;
  }

  lemma PlainTickTwice(track: Track, speed: real, r: Replay, a: nat, b: nat)
    requires AtPoint(track, r) && speed > 0.0
    ensures PlainTick(track, speed, PlainTick(track, speed, r, a), b) == PlainTick(track, speed, r, a + b)
    ensures AtPoint(track, PlainTick(track, speed, r, a))
  {
    hide PlainTick, PlainAdvance, Progress;
    PlainTickAdvances(track, speed, r, a);
    PlainTickAdvances(track, speed, PlainTick(track, speed, r, a), b);
    PlainTickAdvances(track, speed, r, a + b);
    ProgressAdds(speed, a, b);
    AdvanceTwice(track, r, Progress(speed, a), Progress(speed, b));
  }

  /** Without a track, or without a forward speed, nothing moves. */
  lemma PlainTickIdle(track: Track, speed: real, r: Replay, dt: nat)
    requires r.progress >= 0.0 && (track == [] || speed <= 0.0)
    ensures PlainTick(track, speed, r, dt) == r == TimedTick(track, speed, r, dt)
  {}

  /** MAIN: the same for plain replay, from any point of the track it can stand at. */
  lemma {:induction false} PlainReplayDependsOnTotal(track: Track, speed: real, r: Replay, dts: seq<nat>)
    requires (track != [] ==> AtPoint(track, r)) && r.progress >= 0.0 && dts != []
    ensures PlainTicks(track, speed, r, dts) == PlainTick(track, speed, r, Sum(dts))
  {
    hide PlainTick;
    var before, last := dts[..|dts| - 1], dts[|dts| - 1];
    if before == [] {
      assert Sum(dts) == last;
    } else {
      PlainReplayDependsOnTotal(track, speed, r, before);
      if track == [] || speed <= 0.0 {
        PlainTickIdle(track, speed, r, Sum(before));
        PlainTickIdle(track, speed, r, last);
        PlainTickIdle(track, speed, r, Sum(dts));
      } else {
        PlainTickTwice(track, speed, r, Sum(before), last);
      }
    }
  }

  /**
   MAIN: plain replay from one of its points has reached, after any ticks, exactly the points whose number lies at
   most the ticked seconds, multiplied by the speed, after the first; the fraction of a point is left.
   */
  lemma PlainReplayFollowsSpeed(track: Track, speed: real, r: Replay, dts: seq<nat>, j: nat, total: real)
    requires AtPoint(track, r) && r.progress == 0.0 && speed > 0.0 && dts != [] && r.index <= j < |track|
    requires total == Sum(dts) as real / 1000.0 * speed
    ensures
      var out := PlainTicks(track, speed, r, dts);
      && AtPoint(track, out)
      && (j <= out.index <==> (j - r.index) as real <= total)
      && out.progress == total - total.Floor as real
  {
    hide PlainTicks, Sum, AtPoint, Progress;
    ProgressIs(speed, Sum(dts));
    PlainReplayReaches(track, speed, r, dts, j, total);
  }

  lemma PlainReplayReaches(track: Track, speed: real, r: Replay, dts: seq<nat>, j: nat, total: real)
    requires AtPoint(track, r) && r.progress == 0.0 && speed > 0.0 && dts != [] && r.index <= j < |track|
    requires total == Progress(speed, Sum(dts))
    ensures
      var out := PlainTicks(track, speed, r, dts);
      && AtPoint(track, out)
      && (j <= out.index <==> (j - r.index) as real <= total)
      && out.progress == total - total.Floor as real
  {
    hide PlainTicks, PlainTick, PlainAdvance, Sum, Progress;
    PlainReplayDependsOnTotal(track, speed, r, dts);
    PlainTickAdvances(track, speed, r, Sum(dts));
    AdvanceFromPoint(track, r, total);
  }

  lemma AdvanceFromPoint(track: Track, r: Replay, more: real)
    requires AtPoint(track, r) && r.progress == 0.0 && more >= 0.0
    ensures PlainAdvance(track, r, more).index == Min(r.index + more.Floor, |track| - 1)
    ensures PlainAdvance(track, r, more).progress == more - more.Floor as real
  {
    assert r.progress + more == more;
  }

  lemma ProgressIs(speed: real, dt: nat)
    ensures Progress(speed, dt) == dt as real / 1000.0 * speed
  {}

  // ----- the manager

  datatype Movement =
    | Plain(track: Track, speed: real)
    | Timed(track: Track, speed: real)

  class GpsManager {
    const movement: Movement
    var currentIdx: nat
    var latitude: real
    var longitude: real
    var replayProgress: real

    function State(): Replay
      reads this
    {
      Replay(currentIdx, latitude, longitude, replayProgress)
    }

    /** `set_movement`: the replay starts at the configured point, pulled back onto the track if there is one. */
    constructor (movement: Movement, startIdx: nat, latitude: real, longitude: real)
      ensures this.movement == movement && replayProgress == 0.0
      ensures movement.track != [] ==>
                AtPoint(movement.track, State()) && currentIdx == Min(startIdx, |movement.track| - 1)
      ensures movement.track == [] ==> State() == Replay(startIdx, latitude, longitude, 0.0)
    {
      this.movement := movement;
      replayProgress := 0.0;
      if movement.track == [] {
        currentIdx, this.latitude, this.longitude := startIdx, latitude, longitude;
      } else {
        var idx := Min(startIdx, |movement.track| - 1);
        currentIdx := idx;
        this.latitude, this.longitude := movement.track[idx].latitude, movement.track[idx].longitude;
      }
    }

    method Tick(dtMs: nat)
      requires replayProgress >= 0.0
      modifies this
      ensures movement.Timed? ==> State() == TimedTick(movement.track, movement.speed, old(State()), dtMs)
      ensures movement.Plain? ==> State() == PlainTick(movement.track, movement.speed, old(State()), dtMs)
    {
      hide TimedTick, Progress;
      if movement.Timed? {
        AdvanceTimestampedReplay(dtMs);
      } else if movement.track != [] && movement.speed > 0.0 {
        replayProgress := replayProgress + Progress(movement.speed, dtMs);
        var requestedSteps := Floor(replayProgress);
        if requestedSteps > 0 {
          replayProgress := replayProgress - requestedSteps as real;
          var oldIdx := Min(currentIdx, |movement.track| - 1);
          currentIdx := Min(oldIdx + requestedSteps, |movement.track| - 1);
          latitude := movement.track[currentIdx].latitude;
          longitude := movement.track[currentIdx].longitude;
        }
      }
    }

    method AdvanceTimestampedReplay(dtMs: nat)
      requires movement.Timed?
      modifies this
      ensures State() == TimedTick(movement.track, movement.speed, old(State()), dtMs)
    {
      if movement.track == [] || movement.speed <= 0.0 {
        return;
      }
      var points := movement.track;
      currentIdx := Min(currentIdx, |points| - 1);
      replayProgress := replayProgress + dtMs as real * movement.speed;
      ghost var start := State();
      while currentIdx + 1 < |points|
        invariant currentIdx < |points|
        invariant CatchUp(points, State()) == CatchUp(points, start)
        decreases |points| - currentIdx
      {
        var nextIdx := currentIdx + 1;
        var intervalMs := IntervalMs(points[currentIdx], points[nextIdx]);
        if replayProgress < intervalMs {
          break;
        }
        replayProgress := replayProgress - intervalMs;
        latitude := points[nextIdx].latitude;
        longitude := points[nextIdx].longitude;
        currentIdx := nextIdx;
      }
    }
  }
}
