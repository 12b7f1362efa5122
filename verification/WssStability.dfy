/** When the working-set-size meter calls memory stable, in terms of what was measured: wca/wss.py. */
module WssStability {
  import opened Dicts
  import opened Numbers
  import opened Wss

  // ----- Steady cycles -----

  /** The latest of the first `k` calls that had a bandwidth counter. */
  function LastMeasured(samples: seq<Sample>, k: nat): (r: Option<nat>)
    requires k <= |samples|
    ensures r.Some? ==> r.value < k && samples[r.value].membw.Some?
  {
    if k == 0 then None
    else if samples[k - 1].membw.Some? then Some(k - 1)
    else LastMeasured(samples, k - 1)
  }

  /** From one measured call to the next, memory grew by less than the given share of the traffic between them, which is
      positive, and did not shrink by two percent of what is left. */
  ghost predicate Steady(share: real, a: Sample, b: Sample)
    requires a.membw.Some? && b.membw.Some?
  {
    && (b.referenced - a.referenced) as real < share * (b.membw.value - a.membw.value)
    && 0.0 < share * (b.membw.value - a.membw.value)
    && (b.referenced < a.referenced ==> 50 * (a.referenced - b.referenced) < b.referenced)
  }

  /** Call `i` and the measured ones before it were steady `n` times in a row. */
  ghost predicate SteadyFor(share: real, samples: seq<Sample>, i: nat, n: nat)
    requires i < |samples|
    decreases n
  {
    n == 0 ||
    (samples[i].membw.Some? && LastMeasured(samples, i).Some?
     && Steady(share, samples[LastMeasured(samples, i).value], samples[i])
     && SteadyFor(share, samples, LastMeasured(samples, i).value, n - 1))
  }

  /** The first of `n` steady calls that end with `i`. */
  function StretchStart(samples: seq<Sample>, i: nat, n: nat): (r: nat)
    requires i < |samples|
    ensures r <= i
    decreases n
  {
    if n <= 1 || LastMeasured(samples, i).None? then i
    else StretchStart(samples, LastMeasured(samples, i).value, n - 1)
  }

  lemma SteadyIff(c: Config, s: State, a: Sample, b: Sample)
    requires c.membwThreshold.Some? && a.membw.Some? && b.membw.Some?
    requires s.prevReferenced == Some(a.referenced) && s.prevMembw == a.membw
    ensures IsStable(c, s, b) <==> Steady(c.membwThreshold.value, a, b)
  {
    var traffic := c.membwThreshold.value * (b.membw.value - a.membw.value);
    assert traffic == (b.membw.value - a.membw.value) * c.membwThreshold.value;
    var grown := b.referenced - a.referenced;
    if grown < 0 {
      assert Magnitude(grown) == -grown;
      assert (-grown) as real < b.referenced as real / 50.0 <==> 50 * -grown < b.referenced by {
        Scaled(-grown, b.referenced);
      }
    }
  }

  lemma Scaled(a: int, b: int)
    ensures a as real < b as real / 50.0 <==> 50 * a < b
  {
    assert (50 * a) as real == 50.0 * a as real;
  }

  // ----- What the state remembers -----

  /** The latest measured call is what the next one is compared with, and the counter is the number of steady calls up to
      it, the first of which is remembered. */
  ghost predicate Tracks(c: Config, samples: seq<Sample>, k: nat, s: State)
    requires k <= |samples|
  {
    var last := LastMeasured(samples, k);
    && s.prevMembw == (if last.Some? then samples[last.value].membw else None)
    && (s.prevReferenced.Some? ==> last.Some? && s.prevReferenced == Some(samples[last.value].referenced))
    && (0 < s.stableCounter <= Needed(c) ==> last.Some? && Counts(c, samples, last.value, s))
  }

  ghost predicate Counts(c: Config, samples: seq<Sample>, i: nat, s: State)
    requires i < |samples|
  {
    && s.stableCounter > 0 && c.membwThreshold.Some?
    && SteadyFor(c.membwThreshold.value, samples, i, s.stableCounter)
    && s.firstStable == Some(samples[StretchStart(samples, i, s.stableCounter)].referenced)
  }

  lemma CheckedCounts(c: Config, samples: seq<Sample>, k: nat, s: State)
    requires 0 < k <= |samples| && Needed(c) > 0 && samples[k - 1].membw.Some?
    requires Tracks(c, samples, k - 1, s) && Holds(c, s)
    ensures var after := Checked(c, s, samples[k - 1]);
      0 < after.stableCounter <= Needed(c) ==> Counts(c, samples, k - 1, after)
  {
    hide IsStable;
    hide Steady;
    var x := samples[k - 1];
    if s.prevReferenced.Some? && s.stableCounter < Needed(c) {
      var last := LastMeasured(samples, k - 1).value;
      SteadyIff(c, s, samples[last], x);
      assert SteadyFor(c.membwThreshold.value, samples, last, 0);
      assert Steady(c.membwThreshold.value, samples[last], x) ==>
        SteadyFor(c.membwThreshold.value, samples, k - 1, s.stableCounter + 1);
    }
  }

  lemma StepTracks(c: Config, samples: seq<Sample>, k: nat, s: State)
    requires 0 < k <= |samples| && Needed(c) > 0 && Tracks(c, samples, k - 1, s) && Holds(c, s)
    ensures Tracks(c, samples, k, Step(c, s, samples[k - 1]).state)
  {
    hide IsStable;
    hide CyclicReset;
    hide SteadyFor;
    hide StretchStart;
    var next := s.(cycle := s.cycle + 1);
    if samples[k - 1].membw.Some? {
      CheckedCounts(c, samples, k, next);
    }
  }

  lemma {:induction false} RunTracks(c: Config, samples: seq<Sample>, k: nat)
    requires k <= |samples| && Needed(c) > 0
    ensures Tracks(c, samples, k, Run(c, samples, k).state)
    ensures Run(c, samples, k).state.cycle == k
  {
    hide Step;
    hide Tracks;
    if k > 0 {
      RunTracks(c, samples, k - 1);
      RunHolds(c, samples, k - 1);
      StepTracks(c, samples, k, Run(c, samples, k - 1).state);
      StepCountsCycles(c, Run(c, samples, k - 1).state, samples[k - 1]);
    } else {
      assert Tracks(c, samples, 0, INITIAL) by { NothingTracked(c, samples); }
    }
  }

  lemma NothingTracked(c: Config, samples: seq<Sample>)
    ensures Tracks(c, samples, 0, INITIAL)
  {
  }

  lemma StepCountsCycles(c: Config, s: State, x: Sample)
    ensures Step(c, s, x).state.cycle == s.cycle + 1
  {
    hide IsStable;
  }

  // ----- Stable events -----

  /** Call `k - 1` meets a stable event. */
  ghost predicate EventAt(c: Config, samples: seq<Sample>, k: nat)
    requires 0 < k <= |samples|
  {
    Run(c, samples, k).events == Run(c, samples, k - 1).events + 1
  }

  /** One call: it meets a stable event exactly when it is measured, the counter is one short, there is something to compare
      with, and the call is steady. */
  lemma EventIff(c: Config, samples: seq<Sample>, k: nat)
    requires 0 < k <= |samples| && Needed(c) > 0
    ensures var s := Run(c, samples, k - 1).state;
      EventAt(c, samples, k) <==>
        (samples[k - 1].membw.Some? && s.stableCounter == Needed(c) - 1 && s.prevReferenced.Some?
         && LastMeasured(samples, k - 1).Some?
         && Steady(c.membwThreshold.value, samples[LastMeasured(samples, k - 1).value], samples[k - 1]))
  {
    hide IsStable;
    hide Steady;
    hide CyclicReset;
    RunTracks(c, samples, k - 1);
    RunHolds(c, samples, k - 1);
    var s := Run(c, samples, k - 1).state.(cycle := Run(c, samples, k - 1).state.cycle + 1);
    if s.prevReferenced.Some? && samples[k - 1].membw.Some? {
      SteadyIff(c, s, samples[LastMeasured(samples, k - 1).value], samples[k - 1]);
    }
  }

  /** Every stable event comes after as many steady calls in a row as are needed, itself the last. */
  lemma EventIsEarned(c: Config, samples: seq<Sample>, k: nat)
    requires 0 < k <= |samples| && EventAt(c, samples, k)
    ensures Needed(c) > 0 && SteadyFor(c.membwThreshold.value, samples, k - 1, Needed(c))
  {
    hide IsStable;
    hide Steady;
    if Needed(c) > 0 {
      EventIff(c, samples, k);
      RunTracks(c, samples, k - 1);
    }
  }

  /** There is none while the bandwidth counter does not advance. */
  lemma NoEventWithoutTraffic(c: Config, samples: seq<Sample>, k: nat)
    requires 0 < k <= |samples| && EventAt(c, samples, k)
    ensures samples[k - 1].membw.Some? && LastMeasured(samples, k - 1).Some?
    ensures c.membwThreshold.Some?
    ensures var traffic := samples[k - 1].membw.value - samples[LastMeasured(samples, k - 1).value].membw.value;
      c.membwThreshold.value > 0.0 ==> traffic > 0.0
  {
    EventIsEarned(c, samples, k);
    var traffic := samples[k - 1].membw.value - samples[LastMeasured(samples, k - 1).value].membw.value;
    PositiveFactor(c.membwThreshold.value, traffic);
  }

  lemma PositiveFactor(a: real, b: real)
    ensures a > 0.0 && a * b > 0.0 ==> b > 0.0
  {
  }

  // ----- Steady cycles give an event -----

  ghost predicate SteadyAt(c: Config, samples: seq<Sample>, i: nat)
    requires i < |samples| && samples[i].membw.Some?
  {
    && c.membwThreshold.Some? && LastMeasured(samples, i).Some?
    && Steady(c.membwThreshold.value, samples[LastMeasured(samples, i).value], samples[i])
  }

  /** Calls from `k` up to `e` that had a bandwidth counter. */
  function MeasuredFrom(samples: seq<Sample>, k: nat, e: nat): nat
    requires k <= e <= |samples|
    decreases e
  {
    if e == k then 0 else MeasuredFrom(samples, k, e - 1) + if samples[e - 1].membw.Some? then 1 else 0
  }

  /** Every measured call from `k` up to `e` is steady, and none is at the end of a reset interval. */
  ghost predicate SteadyFrom(c: Config, samples: seq<Sample>, k: nat, e: nat)
    requires k <= e <= |samples|
  {
    forall i :: k <= i < e && samples[i].membw.Some? ==>
      SteadyAt(c, samples, i) && !(c.resetCycles.Some? && c.resetCycles.value > 0 && (i + 1) % c.resetCycles.value == 0)
  }

  lemma SteadyStep(c: Config, samples: seq<Sample>, k: nat)
    requires 0 < k <= |samples| && Needed(c) > 0
    requires samples[k - 1].membw.Some? ==> SteadyAt(c, samples, k - 1)
    requires samples[k - 1].membw.Some? ==> !(c.resetCycles.Some? && c.resetCycles.value > 0 && k % c.resetCycles.value == 0)
    requires var s := Run(c, samples, k - 1).state;
      s.prevReferenced.Some? && s.stableCounter + (if samples[k - 1].membw.Some? then 1 else 0) < Needed(c)
    ensures var s, t := Run(c, samples, k - 1).state, Run(c, samples, k).state;
      && t.prevReferenced.Some?
      && t.stableCounter == s.stableCounter + if samples[k - 1].membw.Some? then 1 else 0
    ensures Run(c, samples, k).events == Run(c, samples, k - 1).events
  {
    hide IsStable;
    hide Steady;
    RunTracks(c, samples, k - 1);
    RunHolds(c, samples, k - 1);
    var s := Run(c, samples, k - 1).state.(cycle := Run(c, samples, k - 1).state.cycle + 1);
    if samples[k - 1].membw.Some? {
      SteadyIff(c, s, samples[LastMeasured(samples, k - 1).value], samples[k - 1]);
    }
  }

  lemma {:induction false} SteadyCounts(c: Config, samples: seq<Sample>, k: nat, e: nat)
    requires k <= e <= |samples| && Needed(c) > 0 && SteadyFrom(c, samples, k, e)
    requires Run(c, samples, k).state.stableCounter == 0 && Run(c, samples, k).state.prevReferenced.Some?
    requires MeasuredFrom(samples, k, e) < Needed(c)
    ensures Run(c, samples, e).state.stableCounter == MeasuredFrom(samples, k, e)
    ensures Run(c, samples, e).state.prevReferenced.Some? && Run(c, samples, e).events == Run(c, samples, k).events
    decreases e
  {
    hide Run;
    hide SteadyAt;
    if e > k {
      SteadyCounts(c, samples, k, e - 1);
      SteadyStep(c, samples, e);
    }
  }

  /** With the counter at zero and something to compare with, exactly as many steady calls as are needed give a stable event
      at the last of them, unless a reset interval ends before it. */
  lemma SteadyGivesEvent(c: Config, samples: seq<Sample>, k: nat, e: nat)
    requires k < e <= |samples| && Needed(c) > 0 && SteadyFrom(c, samples, k, e - 1)
    requires Run(c, samples, k).state.stableCounter == 0 && Run(c, samples, k).state.prevReferenced.Some?
    requires samples[e - 1].membw.Some? && SteadyAt(c, samples, e - 1) && MeasuredFrom(samples, k, e) == Needed(c)
    ensures EventAt(c, samples, e) && Run(c, samples, e).events == Run(c, samples, k).events + 1
  {
    hide Run;
    hide Steady;
    SteadyCounts(c, samples, k, e - 1);
    EventIff(c, samples, e);
    assert EventAt(c, samples, e);
  }

  // ----- What is reported and what is reset -----

  /** One measured call: what it reports, by whether it meets an event and whether that is the very first. */
  lemma StepReports(c: Config, s: State, x: Sample)
    requires Needed(c) > 0 && x.membw.Some? && Holds(c, s)
    ensures var r := Step(c, s, x);
      var checked := Checked(c, s.(cycle := s.cycle + 1), x);
      && r.wss == r.state.lastStableWss
      && (r.event <==> checked.stableCounter == Needed(c))
      && (if !r.event || s.firstWss then r.wss == s.lastStableWss
          else checked.firstStable.Some? && r.wss == Some((checked.firstStable.value + x.referenced) as real / 2.0))
  {
    hide IsStable;
    hide CyclicReset;
  }

  /** An event reports the mean of what the first and the last of its steady calls measured, the very first event nothing; all
      other calls report what was reported before. */
  lemma MetricIsMeanOfStretch(c: Config, samples: seq<Sample>, k: nat)
    requires 0 < k <= |samples| && Needed(c) > 0 && samples[k - 1].membw.Some?
    ensures var before := Run(c, samples, k - 1);
      var wss := Step(c, before.state, samples[k - 1]).wss;
      if !EventAt(c, samples, k) || before.events == 0 then wss == before.state.lastStableWss
      else
        var first := samples[StretchStart(samples, k - 1, Needed(c))].referenced;
        wss == Some((first + samples[k - 1].referenced) as real / 2.0)
    ensures Run(c, samples, k).state.lastStableWss == Step(c, Run(c, samples, k - 1).state, samples[k - 1]).wss
  {
    hide SteadyFor;
    hide StretchStart;
    var before := Run(c, samples, k - 1);
    RunTracks(c, samples, k - 1);
    RunHolds(c, samples, k - 1);
    FirstEventIsRemembered(c, samples, k - 1);
    TracksNext(c, samples, k - 1, before.state);
    CheckedCounts(c, samples, k, before.state.(cycle := before.state.cycle + 1));
    StepReports(c, before.state, samples[k - 1]);
    hide Step;
    hide Checked;
    hide Holds;
    hide Tracks;
  }

  lemma TracksNext(c: Config, samples: seq<Sample>, k: nat, s: State)
    requires k <= |samples| && Tracks(c, samples, k, s) && Holds(c, s)
    ensures Tracks(c, samples, k, s.(cycle := s.cycle + 1)) && Holds(c, s.(cycle := s.cycle + 1))
  {
    hide SteadyFor;
    hide StretchStart;
  }

  lemma {:induction false} FirstEventIsRemembered(c: Config, samples: seq<Sample>, k: nat)
    requires k <= |samples|
    ensures Run(c, samples, k).state.firstWss <==> Run(c, samples, k).events == 0
  {
    hide Step;
    if k > 0 {
      FirstEventIsRemembered(c, samples, k - 1);
      EventIsRemembered(c, Run(c, samples, k - 1).state, samples[k - 1]);
    }
  }

  lemma EventIsRemembered(c: Config, s: State, x: Sample)
    ensures Step(c, s, x).state.firstWss <==> s.firstWss && !Step(c, s, x).event
  {
    hide IsStable;
    hide CyclicReset;
  }

  /** After a measured call the comparison starts afresh exactly when a reset interval ends with it, or when it met an event and
      resetting waits for stability. */
  lemma RestartsIff(c: Config, samples: seq<Sample>, k: nat)
    requires 0 < k <= |samples| && Needed(c) > 0 && samples[k - 1].membw.Some?
    ensures var s := Run(c, samples, k).state;
      && (s.prevReferenced.None? <==>
            ((c.resetCycles.Some? && c.resetCycles.value > 0 && k % c.resetCycles.value == 0) ||
             (EventAt(c, samples, k) && c.resetCycles == Some(0) && c.stableCycles > 0)))
      && (s.prevReferenced.None? ==> s.stableCounter == 0)
  {
    hide IsStable;
    RunTracks(c, samples, k - 1);
    RunHolds(c, samples, k - 1);
  }
}
