/** Allocation rounds one after the other, each request merged into what the one before left: wca/allocations.py
    over whole runs. What is applied is read back unchanged. */
module AllocationRuns {
  import opened Dicts
  import opened AllocationValues
  import opened Allocations


  /** The allocations after the first `k` requests; a failed merge ends the run. */
  ghost function After(initial: Value, requests: seq<Value>, k: nat): Result<Value>
    requires k <= |requests|
  {
    if k == 0 then Ok(initial)
    else
      match After(initial, requests, k - 1)
      case Failed(e) => Failed(e)
      case Ok(current) =>
        match ValueChange(requests[k - 1], current)
        case Failed(e) => Failed(e)
        case Ok(c) => Ok(c.target)
  }

  ghost predicate AllSane(requests: seq<Value>) { forall i :: 0 <= i < |requests| ==> Sane(requests[i]) }

  lemma {:induction false} RunIsSane(initial: Value, requests: seq<Value>, k: nat)
    requires k <= |requests| && Sane(initial) && AllSane(requests) && After(initial, requests, k).Ok?
    ensures Sane(After(initial, requests, k).value)
  {
    hide ValueChange;
    hide Sane;
    if k > 0 {
      RunIsSane(initial, requests, k - 1);
      TargetIsSane(requests[k - 1], After(initial, requests, k - 1).value);
    }
  }

  /** One round, seen from one path. */
  lemma RoundAtPath(initial: Value, requests: seq<Value>, k: nat, path: Path)
    requires 0 < k <= |requests| && Sane(initial) && AllSane(requests) && After(initial, requests, k).Ok?
    ensures After(initial, requests, k - 1).Ok?
    ensures TargetLeaf(At(After(initial, requests, k).value, path), At(requests[k - 1], path),
                       At(After(initial, requests, k - 1).value, path))
  {
    hide ValueChange;
    hide Sane;
    hide TargetLeaf;
    RunIsSane(initial, requests, k - 1);
    MergedAtPath(requests[k - 1], After(initial, requests, k - 1).value, path);
  }

  // ----- Convergence -----

  /** Holds a number within the tolerance of the requested one. */
  ghost predicate HoldsCloseTo(v: Option<AllocationValue>, wanted: AllocationValue)
    requires wanted.Number?
  {
    && v.Some? && v.value.Number?
    && (wanted.value == v.value.value || !FarApart(wanted.value, v.value.value, wanted.sensitivity))
  }

  lemma CloseAfterMerge(target: Option<AllocationValue>, wanted: AllocationValue, current: Option<AllocationValue>)
    requires wanted.Number? && TargetLeaf(target, Some(wanted), current)
    ensures HoldsCloseTo(target, wanted)
  {
    hide IsClose;
    hide FarApart;
    CloseToItself(wanted.value, wanted.sensitivity);
    CloseIffNotFar(wanted.value, target.value.value, wanted.sensitivity);
  }

  /** A number stays within the tolerance of the latest request that names it, however many rounds went before:
      deviations do not add up. */
  lemma {:induction false} StaysCloseToLatest(initial: Value, requests: seq<Value>, j: nat, k: nat, path: Path)
    requires j < k <= |requests| && Sane(initial) && AllSane(requests) && After(initial, requests, k).Ok?
    requires At(requests[j], path).Some? && At(requests[j], path).value.Number?
    requires forall i :: j < i < k ==> At(requests[i], path).None?
    ensures HoldsCloseTo(At(After(initial, requests, k).value, path), At(requests[j], path).value)
    decreases k
  {
    hide After;
    hide At;
    hide HoldsCloseTo;
    RoundAtPath(initial, requests, k, path);
    if k == j + 1 {
      CloseAfterMerge(At(After(initial, requests, k).value, path), At(requests[j], path).value,
                      At(After(initial, requests, k - 1).value, path));
    } else {
      StaysCloseToLatest(initial, requests, j, k - 1, path);
    }
  }

  /** The leaf was there from the start or one of the first `k` requests asked for it. */
  ghost predicate WasAskedFor(leaf: AllocationValue, initial: Value, requests: seq<Value>, k: nat, path: Path)
    requires k <= |requests|
  {
    At(initial, path) == Some(leaf) || exists j :: 0 <= j < k && At(requests[j], path) == Some(leaf)
  }

  lemma PlainTarget(target: Option<AllocationValue>, wanted: Option<AllocationValue>, current: Option<AllocationValue>)
    requires TargetLeaf(target, wanted, current) && target.Some? && !target.value.Rdt?
    ensures target == wanted || target == current
  {
    hide LeafChange;
    if wanted.Some? && current.Some? {
      KindIsKept(wanted.value, current.value);
      PlainChange(wanted.value, current.value);
    }
  }

  lemma KindIsKept(wanted: AllocationValue, current: AllocationValue)
    requires LeafChange(wanted, current).Ok?
    ensures LeafChange(wanted, current).value.target.Rdt? <==> wanted.Rdt?
  {
  }

  /** No round invents a number or a list: each is the initial one or was asked for. */
  lemma {:induction false} NothingIsInvented(initial: Value, requests: seq<Value>, k: nat, path: Path)
    requires k <= |requests| && Sane(initial) && AllSane(requests) && After(initial, requests, k).Ok?
    ensures var leaf := At(After(initial, requests, k).value, path);
      leaf.Some? && !leaf.value.Rdt? ==> WasAskedFor(leaf.value, initial, requests, k, path)
  {
    hide After;
    hide At;
    if k > 0 {
      RoundAtPath(initial, requests, k, path);
      var leaf := At(After(initial, requests, k).value, path);
      if leaf.Some? && !leaf.value.Rdt? {
        PlainTarget(leaf, At(requests[k - 1], path), At(After(initial, requests, k - 1).value, path));
        NothingIsInvented(initial, requests, k - 1, path);
        assert k - 1 < k;
      }
    } else {
      assert After(initial, requests, 0) == Ok(initial) by { NothingRun(initial, requests); }
    }
  }

  lemma NothingRun(initial: Value, requests: seq<Value>)
    ensures After(initial, requests, 0) == Ok(initial)
  {
  }
}
