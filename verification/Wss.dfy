/** The working-set-size meter, wca/wss.py: a state machine that calls the referenced memory stable after a number
    of quiet cycles. Numbers are exact. */
module Wss {
  import opened Dicts
  import opened Numbers

  datatype Config = Config(membwThreshold: Option<real>, stableCycles: int, resetCycles: Option<int>)

  /** What one cycle measures: referenced bytes, and the bandwidth counter if it is available. */
  datatype Sample = Sample(referenced: int, membw: Option<real>)

  datatype State = State(cycle: nat, prevReferenced: Option<int>, prevMembw: Option<real>, stableCounter: int,
                         firstStable: Option<int>, lastStableWss: Option<real>, firstWss: bool)

  const INITIAL: State := State(0, None, None, 0, None, None, true)

  // ----- Specification -----

  /** The cycles to stay stable for; zero when the meter is off. */
  function Needed(c: Config): nat { if c.membwThreshold.None? then 0 else Magnitude(c.stableCycles) }

  /** Referenced memory did not shrink by two percent or more, and grew by less than the share of the traffic. */
  predicate IsStable(c: Config, s: State, x: Sample)
    requires c.membwThreshold.Some? && s.prevReferenced.Some? && s.prevMembw.Some? && x.membw.Some?
  {
    var grown := x.referenced - s.prevReferenced.value;
    && (grown >= 0 || Magnitude(grown) as real < x.referenced as real / 50.0)
    && (if grown < 0 then 0.0 else grown as real) < (x.membw.value - s.prevMembw.value) * c.membwThreshold.value
  }

  function Counted(s: State, x: Sample, stable: bool): State {
    if !stable then s.(stableCounter := 0)
    else
      s.(stableCounter := s.stableCounter + 1,
         firstStable := if s.stableCounter == 0 then Some(x.referenced) else s.firstStable)
  }

  /** The stability check, where there is something to compare with and the counter is not past the limit. */
  function Checked(c: Config, s: State, x: Sample): State
    requires c.membwThreshold.Some? && x.membw.Some?
  {
    var after :=
      if s.prevReferenced.Some? && s.prevMembw.Some? && s.stableCounter < Magnitude(c.stableCycles)
      then Counted(s, x, IsStable(c, s, x)) else s;
    after.(prevReferenced := Some(x.referenced), prevMembw := x.membw)
  }

  /** A stable event: the first one is only remembered, later ones give the mean of first and last. */
  function Caught(s: State, x: Sample): State {
    var after :=
      if s.firstWss then s.(firstWss := false)
      else s.(lastStableWss :=
        Some(((if s.firstStable.Some? then s.firstStable.value else 0) + x.referenced) as real / 2.0));
    after.(stableCounter := s.stableCounter + 1)
  }

  function Restarted(s: State): State { s.(stableCounter := 0, prevReferenced := None) }

  predicate CyclicReset(c: Config, cycle: nat) {
    c.resetCycles.Some? && c.resetCycles.value > 0 && cycle % c.resetCycles.value == 0
  }

  predicate ResetsWhenStable(c: Config) { c.resetCycles == Some(0) && c.stableCycles > 0 }

  /** The new state, the metric reported if any, and whether the call met a stable event. */
  datatype Reading = Reading(state: State, wss: Option<real>, event: bool)

  function Step(c: Config, s: State, x: Sample): Reading {
    var next := s.(cycle := s.cycle + 1);
    if c.membwThreshold.Some? && c.stableCycles != 0 then
      if x.membw.None? then Reading(next, None, false)
      else
        var checked := Checked(c, next, x);
        var event := checked.stableCounter == Magnitude(c.stableCycles);
        var caught := if event then Caught(checked, x) else checked;
        Reading(if (event && ResetsWhenStable(c)) || CyclicReset(c, next.cycle) then Restarted(caught) else caught,
                caught.lastStableWss, event)
    else
      Reading(if CyclicReset(c, next.cycle) then Restarted(next) else next, None, false)
  }

  // ----- The class -----

  class WSS {
    const config: Config
    var cycle: nat
    var prevReferenced: Option<int>
    var prevMembw: Option<real>
    var stableCounter: int
    var firstStable: Option<int>
    var lastStableWss: Option<real>
    var firstWss: bool

    function Current(): State
      reads this
    {
      State(cycle, prevReferenced, prevMembw, stableCounter, firstStable, lastStableWss, firstWss)
    }

    ghost predicate Valid()
      reads this
    {
      Holds(config, Current())
    }

    constructor (config: Config)
      ensures this.config == config && Current() == INITIAL && Valid()
    {
      this.config := config;
      cycle, prevReferenced, prevMembw, stableCounter := 0, None, None, 0;
      firstStable, lastStableWss, firstWss := None, None, true;
    }

    /** `_check_stability`. */
    method CheckStability(membw: real, referenced: int)
      requires config.membwThreshold.Some? && prevReferenced.Some? && prevMembw.Some?
      modifies this`stableCounter, this`firstStable
      ensures Current() == Counted(old(Current()), Sample(referenced, Some(membw)),
                                   IsStable(config, old(Current()), Sample(referenced, Some(membw))))
    {
      var threshold := (membw - prevMembw.value) * config.membwThreshold.value;
      var grown := referenced - prevReferenced.value;
      if grown >= 0 || Magnitude(grown) as real < referenced as real / 50.0 {
        if grown < 0 {
          grown := 0;
        }
        if grown as real < threshold {
          if stableCounter == 0 {
            firstStable := Some(referenced);
          }
          stableCounter := stableCounter + 1;
        } else {
          stableCounter := 0;
        }
      } else {
        stableCounter := 0;
      }
    }

    /** The bandwidth-driven part of a measurement. */
    method Observe(x: Sample) returns (event: bool, shouldReset: bool)
      requires Valid() && config.membwThreshold.Some? && config.stableCycles != 0 && x.membw.Some?
      modifies this
      ensures var checked := Checked(config, old(Current()), x);
        && event == (checked.stableCounter == Magnitude(config.stableCycles))
        && Current() == if event then Caught(checked, x) else checked
      ensures shouldReset == (event && ResetsWhenStable(config))
    {
      if prevReferenced.Some? && prevMembw.Some? && stableCounter < Magnitude(config.stableCycles) {
        CheckStability(x.membw.value, x.referenced);
      }
      prevReferenced := Some(x.referenced);
      prevMembw := x.membw;
      shouldReset, event := false, stableCounter == Magnitude(config.stableCycles);
      if event {
        if firstWss {
          firstWss := false;
        } else {
          lastStableWss := Some((firstStable.value + x.referenced) as real / 2.0);
        }
        shouldReset := config.resetCycles == Some(0) && config.stableCycles > 0;
        stableCounter := stableCounter + 1;
      }
    }

    /** `get_measurements`, after the pages were counted. */
    method GetMeasurements(x: Sample) returns (wss: Option<real>, ghost event: bool)
      requires Valid()
      modifies this
      ensures Valid()
      ensures Reading(Current(), wss, event) == Step(config, old(Current()), x)
    {
      ghost var before := Current();
      cycle := cycle + 1;
      wss, event := None, false;
      var shouldReset := false;
      var skip := false;
      if config.membwThreshold.Some? && config.stableCycles != 0 {
        if x.membw.None? {
          skip := true;
        } else {
          event, shouldReset := Observe(x);
          wss := lastStableWss;
        }
      }
      if !skip && CyclicReset(config, cycle) {
        shouldReset := true;
      }
      if shouldReset {
        stableCounter := 0;
        prevReferenced := None;
      }
      StepHolds(config, before, x);
    }
  }

  // ----- Invariants over every run -----

  /** Between two calls the counter is below the limit or one past it, never at it; while it counts, the first
      stable value is known and there is a previous value to compare with. */
  ghost predicate Holds(c: Config, s: State) {
    var n := Needed(c);
    && 0 <= s.stableCounter
    && (n > 0 ==> s.stableCounter < n || s.stableCounter == n + 1)
    && (n == 0 ==> s.stableCounter == 0)
    && (s.stableCounter > 0 ==> s.firstStable.Some? && s.prevReferenced.Some?)
    && (s.lastStableWss.Some? ==> !s.firstWss)
  }

  lemma StepHolds(c: Config, s: State, x: Sample)
    requires Holds(c, s)
    ensures Holds(c, Step(c, s, x).state)
    ensures Step(c, s, x).event ==> Needed(c) > 0 && Checked(c, s.(cycle := s.cycle + 1), x).firstStable.Some?
  {
    hide IsStable;
  }

  /** The state after the first `k` samples, and how many stable events there were. */
  datatype History = History(state: State, events: nat)

  ghost function Run(c: Config, samples: seq<Sample>, k: nat): History
    requires k <= |samples|
  {
    if k == 0 then History(INITIAL, 0)
    else
      var before := Run(c, samples, k - 1);
      var r := Step(c, before.state, samples[k - 1]);
      History(r.state, before.events + if r.event then 1 else 0)
  }

  lemma {:induction false} RunHolds(c: Config, samples: seq<Sample>, k: nat)
    requires k <= |samples|
    ensures Holds(c, Run(c, samples, k).state)
  {
    hide Step;
    if k > 0 {
      RunHolds(c, samples, k - 1);
      StepHolds(c, Run(c, samples, k - 1).state, samples[k - 1]);
    }
  }

  /** Calls already spent on the next stable event. */
  function Progress(c: Config, s: State): nat {
    if s.stableCounter > Needed(c) || s.stableCounter < 0 then 0
    else s.stableCounter + if s.prevReferenced.Some? then 1 else 0
  }

  /** A call adds at most one to the progress, and an event uses up as many as it takes cycles and one more. */
  lemma StepProgress(c: Config, s: State, x: Sample)
    requires Needed(c) > 0 && Holds(c, s)
    ensures var r := Step(c, s, x);
      Progress(c, r.state) + (if r.event then Needed(c) + 1 else 0) <= Progress(c, s) + 1
  {
    hide IsStable;
    hide CyclicReset;
  }

  lemma {:induction false} EventsTakeTime(c: Config, samples: seq<Sample>, k: nat)
    requires k <= |samples| && Needed(c) > 0
    ensures var h := Run(c, samples, k); h.events * (Needed(c) + 1) + Progress(c, h.state) <= k
  {
    hide Step;
    hide Progress;
    if k > 0 {
      EventsTakeTime(c, samples, k - 1);
      RunHolds(c, samples, k - 1);
      var before := Run(c, samples, k - 1);
      StepProgress(c, before.state, samples[k - 1]);
      assert (before.events + 1) * (Needed(c) + 1) == before.events * (Needed(c) + 1) + (Needed(c) + 1);
    } else {
      assert Progress(c, INITIAL) == 0 by { NoProgress(c); }
    }
  }

  lemma NoProgress(c: Config)
    ensures Progress(c, INITIAL) == 0
  {
  }

  lemma DivideBy(e: nat, n: nat, p: nat, k: nat)
    requires n > 0 && e * n + p <= k
    ensures e <= k / n
  {
    MultiplesOrder(e, k / n + 1, n);
    QuotientCovers(k, n);
  }

  lemma MultiplesOrder(a: nat, b: nat, n: nat)
    ensures a >= b ==> a * n >= b * n
  {
    if a >= b {
      assert a * n == (a - b) * n + b * n;
      NotNegative(a - b, n);
    }
  }

  lemma NotNegative(a: nat, b: nat)
    ensures a * b >= 0
  {
  }

  lemma QuotientCovers(k: nat, n: nat)
    requires n > 0
    ensures k < (k / n + 1) * n
  {
  }

  /** There are never more stable events than the calls divided by one more than the cycles needed. */
  lemma EventsAreRare(c: Config, samples: seq<Sample>, k: nat)
    requires k <= |samples| && Needed(c) > 0
    ensures Run(c, samples, k).events <= k / (Needed(c) + 1)
  {
    EventsTakeTime(c, samples, k);
    DivideBy(Run(c, samples, k).events, Needed(c) + 1, Progress(c, Run(c, samples, k).state), k);
  }

  lemma StepCounts(c: Config, s: State, x: Sample)
    ensures var r := Step(c, s, x);
      && (r.wss.Some? ==> Needed(c) > 0)
      && (r.wss.Some? ==> r.state.lastStableWss.Some?)
      && (r.state.lastStableWss.Some? && s.lastStableWss.None? ==> r.event && !s.firstWss)
      && (s.firstWss && !r.state.firstWss ==> r.event && r.state.lastStableWss == s.lastStableWss)
      && (!s.firstWss ==> !r.state.firstWss)
  {
    hide IsStable;
  }

  lemma {:induction false} MetricNeedsTwoEvents(c: Config, samples: seq<Sample>, k: nat)
    requires k <= |samples|
    ensures var h := Run(c, samples, k);
      && (!h.state.firstWss ==> h.events >= 1)
      && (h.state.lastStableWss.Some? ==> h.events >= 2)
  {
    hide Step;
    if k > 0 {
      MetricNeedsTwoEvents(c, samples, k - 1);
      RunHolds(c, samples, k - 1);
      StepCounts(c, Run(c, samples, k - 1).state, samples[k - 1]);
    }
  }

  /** The working-set metric is never reported before call 2(N+1), where N cycles are needed, and never at all
      while the meter is off. */
  lemma MetricIsLate(c: Config, samples: seq<Sample>, k: nat)
    requires 0 < k <= |samples|
    requires Step(c, Run(c, samples, k - 1).state, samples[k - 1]).wss.Some?
    ensures Needed(c) > 0 && k >= 2 * (Needed(c) + 1)
  {
    hide Step;
    hide Progress;
    hide Needed;
    StepCounts(c, Run(c, samples, k - 1).state, samples[k - 1]);
    MetricNeedsTwoEvents(c, samples, k);
    EventsTakeTime(c, samples, k);
    MultiplesOrder(Run(c, samples, k).events, 2, Needed(c) + 1);
  }

  // ----- What is reported -----

  /** Measured in one of the first `k` calls. */
  ghost predicate Measured(samples: seq<Sample>, k: nat, referenced: int)
    requires k <= |samples|
  {
    exists i :: 0 <= i < k && samples[i].referenced == referenced
  }

  ghost predicate IsMean(samples: seq<Sample>, k: nat, wss: real)
    requires k <= |samples|
  {
    exists first, last :: Measured(samples, k, first) && Measured(samples, k, last) && wss == (first + last) as real / 2.0
  }

  ghost predicate Remembers(samples: seq<Sample>, k: nat, s: State)
    requires k <= |samples|
  {
    && (s.firstStable.Some? ==> Measured(samples, k, s.firstStable.value))
    && (s.lastStableWss.Some? ==> IsMean(samples, k, s.lastStableWss.value))
  }

  lemma StillMeasured(samples: seq<Sample>, k: nat, referenced: int)
    requires k < |samples|
    ensures Measured(samples, k, referenced) ==> Measured(samples, k + 1, referenced)
    ensures Measured(samples, k + 1, samples[k].referenced)
  {
  }

  lemma StillMean(samples: seq<Sample>, k: nat, wss: real)
    requires k < |samples|
    ensures IsMean(samples, k, wss) ==> IsMean(samples, k + 1, wss)
  {
    hide Measured;
    if IsMean(samples, k, wss) {
      var first, last :| Measured(samples, k, first) && Measured(samples, k, last) && wss == (first + last) as real / 2.0;
      StillMeasured(samples, k, first);
      StillMeasured(samples, k, last);
    }
  }

  /** A call remembers what it measures, what was remembered, or the mean of the two. */
  lemma StepRemembers(c: Config, s: State, x: Sample)
    requires Holds(c, s)
    ensures var r := Step(c, s, x).state;
      && (r.firstStable == s.firstStable || r.firstStable == Some(x.referenced))
      && (r.lastStableWss == s.lastStableWss ||
          (r.firstStable.Some? && r.lastStableWss == Some((r.firstStable.value + x.referenced) as real / 2.0)))
  {
    hide IsStable;
  }

  lemma {:induction false} RunRemembers(c: Config, samples: seq<Sample>, k: nat)
    requires k <= |samples|
    ensures Remembers(samples, k, Run(c, samples, k).state)
  {
    hide Step;
    hide Measured;
    hide Holds;
    if k > 0 {
      var s, x := Run(c, samples, k - 1).state, samples[k - 1];
      RunRemembers(c, samples, k - 1);
      RunHolds(c, samples, k - 1);
      StepRemembers(c, s, x);
      StillMeasured(samples, k - 1, if s.firstStable.Some? then s.firstStable.value else 0);
      StillMeasured(samples, k - 1, x.referenced);
      StillMean(samples, k - 1, if s.lastStableWss.Some? then s.lastStableWss.value else 0.0);
    }
  }

  /** The metric is always the mean of two amounts that were measured. */
  lemma MetricIsAMean(c: Config, samples: seq<Sample>, k: nat)
    requires 0 < k <= |samples|
    ensures var wss := Step(c, Run(c, samples, k - 1).state, samples[k - 1]).wss;
      wss.Some? ==> IsMean(samples, k, wss.value)
  {
    hide Step;
    hide IsMean;
    RunRemembers(c, samples, k);
    ReportsWhatItKeeps(c, Run(c, samples, k - 1).state, samples[k - 1]);
  }

  lemma ReportsWhatItKeeps(c: Config, s: State, x: Sample)
    ensures var r := Step(c, s, x); r.wss.Some? ==> r.wss == r.state.lastStableWss
  {
    hide IsStable;
  }

  // ----- The bound is reached -----

  /** Referenced memory that stays put while the traffic goes on. */
  ghost predicate Quiet(samples: seq<Sample>, referenced: nat) {
    forall i :: 0 <= i < |samples| ==> samples[i] == Sample(referenced, Some(i as real))
  }

  /** The state after `e` events and `r` more calls. */
  ghost predicate Rhythm(c: Config, h: History, samples: seq<Sample>, k: nat, e: nat, r: nat) {
    && k == e * (Needed(c) + 1) + r && r <= Needed(c)
    && h.events == e
    && h.state.stableCounter == (if r == 0 then 0 else r - 1)
    && h.state.prevReferenced.Some? == (r > 0)
    && (k > 0 && k <= |samples| ==> h.state.prevMembw == samples[k - 1].membw)
    && (r > 0 && k <= |samples| ==> h.state.prevReferenced == Some(samples[k - 1].referenced))
  }

  lemma QuietStep(c: Config, samples: seq<Sample>, referenced: nat, k: nat, e: nat, r: nat)
    requires c.membwThreshold.Some? && c.membwThreshold.value > 0.0 && ResetsWhenStable(c)
    requires Quiet(samples, referenced) && k < |samples| && Rhythm(c, Run(c, samples, k), samples, k, e, r)
    ensures if r == Needed(c) then Rhythm(c, Run(c, samples, k + 1), samples, k + 1, e + 1, 0)
      else Rhythm(c, Run(c, samples, k + 1), samples, k + 1, e, r + 1)
  {
    assert (e + 1) * (Needed(c) + 1) == e * (Needed(c) + 1) + Needed(c) + 1;
    var s := Run(c, samples, k).state.(cycle := Run(c, samples, k).state.cycle + 1);
    if r > 0 {
      assert samples[k] == Sample(referenced, Some(k as real)) && samples[k - 1] == Sample(referenced, Some((k - 1) as real));
      assert (k as real - (k - 1) as real) * c.membwThreshold.value == c.membwThreshold.value;
      assert IsStable(c, s, samples[k]);
    }
  }

  /** With resetting on stability, quiet samples give exactly as many events as the bound allows. */
  lemma {:induction false} QuietRunReachesTheBound(c: Config, samples: seq<Sample>, referenced: nat, k: nat)
    returns (e: nat, r: nat)
    requires c.membwThreshold.Some? && c.membwThreshold.value > 0.0 && ResetsWhenStable(c)
    requires Quiet(samples, referenced) && k <= |samples|
    ensures Rhythm(c, Run(c, samples, k), samples, k, e, r)
    ensures Run(c, samples, k).events == e && k == e * (Needed(c) + 1) + r && r <= Needed(c)
  {
    hide Step;
    if k == 0 {
      return 0, 0;
    }
    e, r := QuietRunReachesTheBound(c, samples, referenced, k - 1);
    QuietStep(c, samples, referenced, k - 1, e, r);
    if r == Needed(c) {
      e, r := e + 1, 0;
    } else {
      r := r + 1;
    }
  }
}
