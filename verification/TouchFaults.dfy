/** The fault injector fails an exact share of status reads, and the bus watchdog needs a rate of 88. */
module TouchFaults {
  import opened Prelude
  import opened TouchSpec

  /** How many status reads a run makes. */
  function Reads(ops: seq<TouchOp>): nat {
    if ops == [] then 0
    else Reads(ops[..|ops| - 1]) + if ops[|ops| - 1].StatusRead? then 1 else 0
  }

  /** How many of them fail. */
  function Failures(s: Touch, ops: seq<TouchOp>): nat {
    if ops == [] then 0
    else
      var before := ops[..|ops| - 1];
      Failures(s, before) + if ops[|ops| - 1].StatusRead? && ReadFails(TouchRun(s, before)) then 1 else 0
  }

  predicate NoNewRate(ops: seq<TouchOp>) {
    forall i :: 0 <= i < |ops| ==> !ops[i].SetFailureRate?
  }

  /** The state right after the rate has been configured. */
  predicate Configured(s: Touch, p: Byte) {
    p <= 100 && s.injector == Injector(p, 0, 0, false)
  }

  lemma ConfiguredBySet(s: Touch, pct: Byte)
    ensures Configured(TouchStep(s, SetFailureRate(pct)), Min(pct, 100))
  {}

  /** Calls other than status reads and rate changes leave the injector alone. */
  lemma InjectorUntouched(s: Touch, op: TouchOp)
    requires !op.SetFailureRate? && !op.StatusRead?
    ensures TouchStep(s, op).injector == s.injector
  {
    hide IsPressed, PrimaryOf, FrameIsStalled;
  }

  lemma OneMoreRead(n: nat, p: nat)
    ensures (n + 1) * p == n * p + p
  {}

  lemma {:induction false} AccumulatorKeepsCount(s: Touch, ops: seq<TouchOp>, p: Byte)
    requires Configured(s, p) && NoNewRate(ops)
    ensures
      var i := TouchRun(s, ops).injector;
      i.rate == p && i.accumulator < 100 && Reads(ops) * p == 100 * Failures(s, ops) + i.accumulator
  {
    hide TouchStep;
    if ops != [] {
      var before, op := ops[..|ops| - 1], ops[|ops| - 1];
      AccumulatorKeepsCount(s, before, p);
      OneMoreRead(Reads(before), p);
      ReadStep(TouchRun(s, before), op);
    }
  }

  lemma ReadStep(s: Touch, op: TouchOp)
    requires !op.SetFailureRate?
    ensures TouchStep(s, op).injector == if op.StatusRead? then NextInjector(s.injector, IsPressed(s)) else s.injector
  {
    if !op.StatusRead? {
      InjectorUntouched(s, op);
    }
  }

  /** MAIN: after n status reads at rate p exactly floor(n * p / 100) have failed, whatever else happened in between. */
  lemma FailuresAreExact(s: Touch, ops: seq<TouchOp>, p: Byte)
    requires Configured(s, p) && NoNewRate(ops)
    ensures Failures(s, ops) == Reads(ops) * p / 100
  {
    AccumulatorKeepsCount(s, ops, p);
  }

  lemma {:induction false} RunSplits(s: Touch, ops: seq<TouchOp>, more: seq<TouchOp>)
    ensures TouchRun(s, ops + more) == TouchRun(TouchRun(s, ops), more)
    ensures Failures(s, ops + more) == Failures(s, ops) + Failures(TouchRun(s, ops), more)
    ensures Reads(ops + more) == Reads(ops) + Reads(more)
  {
    hide TouchStep;
    if more == [] {
      assert ops + more == ops;
    } else {
      var before := more[..|more| - 1];
      RunSplits(s, ops, before);
      assert (ops + more)[..|ops + more| - 1] == ops + before;
    }
  }

  /** MAIN: any stretch of a run that makes 100 status reads has exactly p of them fail. */
  lemma ExactPercentage(s: Touch, ops: seq<TouchOp>, stretch: seq<TouchOp>, p: Byte)
    requires Configured(s, p) && NoNewRate(ops + stretch) && Reads(stretch) == 100
    ensures Failures(TouchRun(s, ops), stretch) == p
  {
    RunSplits(s, ops, stretch);
    FailuresAreExact(s, ops + stretch, p);
    forall i | 0 <= i < |ops| ensures !ops[i].SetFailureRate? {
      assert (ops + stretch)[i] == ops[i];
    }
    FailuresAreExact(s, ops, p);
    var a := Reads(ops) * p;
    assert (Reads(ops) + 100) * p == a + 100 * p;
    assert (a + 100 * p) / 100 == a / 100 + p;
  }

  // ----- the bus watchdog

  /** Each failure in a row costs 100 - p of an accumulator that starts below 100. */
  predicate Bounded(i: Injector) {
    i.rate <= 87 && !i.fired && i.accumulator + i.consecutive * (100 - i.rate) <= 99
  }

  lemma AtMostSeven(inARow: nat, cost: nat)
    requires cost >= 13 && inARow * cost <= 99
    ensures inARow <= 7
  {
    var spare := cost - 13;
    assert inARow * cost == inARow * 13 + inARow * spare;
    assert inARow * spare >= 0;
  }

  lemma OneMoreInARow(inARow: nat, cost: nat)
    ensures (inARow + 1) * cost == inARow * cost + cost
  {}

  lemma NextBounded(i: Injector, pressed: bool)
    requires Bounded(i)
    ensures Bounded(NextInjector(i, pressed))
  {
    var cost := 100 - i.rate;
    AtMostSeven(i.consecutive, cost);
    OneMoreInARow(i.consecutive, cost);
    var next := NextInjector(i, pressed);
    assert next.consecutive == 0 || (next.consecutive == i.consecutive + 1 && next.accumulator == i.accumulator - cost);
  }

  /** MAIN: at a rate of 87 or less the bus watchdog never fires, in any run. */
  lemma {:induction false} WatchdogNeverFires(s: Touch, ops: seq<TouchOp>, p: Byte)
    requires Configured(s, p) && p <= 87 && NoNewRate(ops)
    ensures Bounded(TouchRun(s, ops).injector) && !TouchRun(s, ops).injector.fired
  {
    hide TouchStep, NextInjector;
    if ops != [] {
      var before, op := ops[..|ops| - 1], ops[|ops| - 1];
      WatchdogNeverFires(s, before, p);
      ReadStep(TouchRun(s, before), op);
      NextBounded(TouchRun(s, before).injector, IsPressed(TouchRun(s, before)));
    }
  }

  /** Every status read of the run finds a contact held. */
  predicate HeldAtReads(s: Touch, ops: seq<TouchOp>) {
    ops == [] ||
    (HeldAtReads(s, ops[..|ops| - 1]) && (ops[|ops| - 1].StatusRead? ==> IsPressed(TouchRun(s, ops[..|ops| - 1]))))
  }

  /**
   Until the watchdog fires, every success has at most seven failures after it; at rates below 100 the
   first read succeeds, at 100 none does.
   */
  predicate SevenPerSuccess(i: Injector, asked: nat, failures: nat) {
    && failures <= asked
    && (!i.fired ==>
         && i.consecutive <= 7
         && (i.rate < 100 && asked > 0 ==> failures < asked && failures <= 7 * (asked - failures - 1) + i.consecutive)
         && (i.rate == 100 ==> failures == asked == i.consecutive))
  }

  lemma {:induction false} FailuresCluster(s: Touch, ops: seq<TouchOp>, p: Byte)
    requires Configured(s, p) && NoNewRate(ops) && HeldAtReads(s, ops)
    ensures SevenPerSuccess(TouchRun(s, ops).injector, Reads(ops), Failures(s, ops))
  {
    hide TouchStep;
    if ops != [] {
      var before, op := ops[..|ops| - 1], ops[|ops| - 1];
      FailuresCluster(s, before, p);
      AccumulatorKeepsCount(s, before, p);
      ReadStep(TouchRun(s, before), op);
      NextCluster(TouchRun(s, before).injector, Reads(before), Failures(s, before));
    }
  }

  lemma NextCluster(i: Injector, asked: nat, failures: nat)
    requires SevenPerSuccess(i, asked, failures) && i.rate <= 100 && i.accumulator < 100
    requires asked * i.rate == 100 * failures + i.accumulator
    ensures
      var failures' := if i.accumulator + i.rate >= 100 then failures + 1 else failures;
      SevenPerSuccess(NextInjector(i, true), asked + 1, failures')
  {
    if asked == 0 {
      assert i.accumulator == 0;
    }
    if i.rate == 100 {
      assert i.accumulator == 0;
    }
  }

  /** 25 reads at rate 88 or more have at least 22 failures, too many for three successes. */
  lemma TwentyFive(i: Injector, failures: nat)
    requires SevenPerSuccess(i, 25, failures) && 88 <= i.rate <= 100 && i.accumulator < 100
    requires 25 * i.rate == 100 * failures + i.accumulator
    ensures i.fired
  {}

  /** MAIN: at a rate of 88 or more, 25 status reads with a contact held fire the watchdog, and it stays fired. */
  lemma {:induction false} WatchdogFires(s: Touch, ops: seq<TouchOp>, p: Byte)
    requires Configured(s, p) && p >= 88 && NoNewRate(ops) && HeldAtReads(s, ops) && Reads(ops) >= 25
    ensures TouchRun(s, ops).injector.fired
  {
    hide TouchStep;
    var before, op := ops[..|ops| - 1], ops[|ops| - 1];
    if Reads(before) >= 25 {
      WatchdogFires(s, before, p);
      ReadStep(TouchRun(s, before), op);
    } else {
      FailuresCluster(s, ops, p);
      AccumulatorKeepsCount(s, ops, p);
      TwentyFive(TouchRun(s, ops).injector, Failures(s, ops));
    }
  }

  /** MAIN: with a contact held for 25 status reads or more, the watchdog has fired exactly for rates from 88. */
  lemma WatchdogThreshold(s: Touch, ops: seq<TouchOp>, p: Byte)
    requires Configured(s, p) && NoNewRate(ops) && HeldAtReads(s, ops) && Reads(ops) >= 25
    ensures TouchRun(s, ops).injector.fired <==> p >= 88
  {
    if p >= 88 {
      WatchdogFires(s, ops, p);
    } else {
      WatchdogNeverFires(s, ops, p);
    }
  }
}
