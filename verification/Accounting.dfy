/** The simulator's accounting (wca/scheduler/cluster_simulator.py) and its agreement with the
    scheduler's (wca/scheduler/algorithms/base.py). */
module Accounting {
  import opened Dicts
  import opened ResourceVectors

  /** What one subtraction takes from dimension `d`: reads and writes consume each other, and a
      bandwidth view without its partner is skipped by the simulator. */
  function Charge(y: Vector, ratio: real, d: ResourceType): real
    requires d in y && ratio != 0.0
  {
    if d != MEMBW_READ && d != MEMBW_WRITE then y[d]
    else if MEMBW_READ !in y || MEMBW_WRITE !in y then 0.0
    else if d == MEMBW_READ then y[MEMBW_READ] + y[MEMBW_WRITE] * ratio
    else y[MEMBW_WRITE] + y[MEMBW_READ] / ratio
  }

  function SubtractAep(x: Vector, y: Vector, ratio: real): (r: Vector)
    requires x.Keys == y.Keys && ratio != 0.0
  {
    map d | d in x :: x[d] - Charge(y, ratio, d)
  }

  /** The wrapper class over a resource dictionary; its arithmetic updates `data` in place. */
  class Resources {
    var data: Vector

    constructor (resources: Vector)
      ensures data == resources
    {
      data := resources;
    }

    method SubtractAepAware(b: Vector, ratio: real)
      requires data.Keys == b.Keys && ratio != 0.0
      modifies this
      ensures data == SubtractAep(old(data), b, ratio)
    {
      ghost var before := data;
      SubtractUncoupled(b);
      if MEMBW_READ in data && MEMBW_WRITE in data {
        data := data[MEMBW_READ := data[MEMBW_READ] - b[MEMBW_READ] - b[MEMBW_WRITE] * ratio];
        data := data[MEMBW_WRITE := data[MEMBW_WRITE] - b[MEMBW_WRITE] - b[MEMBW_READ] / ratio];
      }
      assert forall d :: d in before ==> data[d] == before[d] - Charge(b, ratio, d);
    }

    /** The loop of `subtract_aep_aware`, which leaves the memory bandwidth alone. */
    method SubtractUncoupled(b: Vector)
      requires data.Keys == b.Keys
      modifies this
      ensures data.Keys == b.Keys
      ensures forall d :: d in b ==>
        data[d] == if d != MEMBW_READ && d != MEMBW_WRITE then old(data)[d] - b[d] else old(data)[d]
    {
      ghost var before := data;
      var todo := data.Keys;
      while todo != {}
        invariant todo <= data.Keys == before.Keys
        invariant forall d :: d in before ==>
          data[d] == if d !in todo && d != MEMBW_READ && d != MEMBW_WRITE then before[d] - b[d] else before[d]
      {
        var d :| d in todo;
        todo := todo - {d};
        if d == MEMBW_READ || d == MEMBW_WRITE { continue; }
        data := data[d := data[d] - b[d]];
      }
    }

    /** `bool(resources)`: every dimension is positive, or zero up to 0.0001. */
    predicate AsBool()
      reads this
    {
      Acceptable(data)
    }
  }

  const TOLERANCE := 0.0001

  predicate Acceptable(v: Vector) {
    forall d :: d in v ==> v[d] > 0.0 || (-TOLERANCE < v[d] < TOLERANCE)
  }

  lemma AcceptableMeans(v: Vector)
    ensures Acceptable(v) <==> forall d :: d in v ==> v[d] > -TOLERANCE
  {
  }

  datatype Node = Node(name: string, initial: Vector)

  function NodeRatio(node: Node): (r: real)
    requires Capacity(node.initial)
    ensures r > 0.0
  {
    if MEMBW_READ in node.initial && MEMBW_WRITE in node.initial
    then node.initial[MEMBW_READ] / node.initial[MEMBW_WRITE] else 1.0
  }

  /** Subtracting a list of requests one after the other. */
  function SubtractAll(x: Vector, requests: seq<Vector>, ratio: real): (r: Vector)
    requires ratio != 0.0 && forall i :: 0 <= i < |requests| ==> requests[i].Keys == x.Keys
    ensures r.Keys == x.Keys
  {
    if requests == [] then x
    else SubtractAep(SubtractAll(x, requests[..|requests| - 1], ratio), requests[|requests| - 1], ratio)
  }

  lemma SubtractAllNext(x: Vector, requests: seq<Vector>, q: Vector, ratio: real)
    requires ratio != 0.0 && q.Keys == x.Keys && forall i :: 0 <= i < |requests| ==> requests[i].Keys == x.Keys
    ensures SubtractAll(x, requests + [q], ratio) == SubtractAep(SubtractAll(x, requests, ratio), q, ratio)
  {
    assert (requests + [q])[..|requests|] == requests;
  }

  function TotalCharge(requests: seq<Vector>, ratio: real, d: ResourceType): real
    requires ratio != 0.0 && forall i :: 0 <= i < |requests| ==> d in requests[i]
  {
    if requests == [] then 0.0
    else TotalCharge(requests[..|requests| - 1], ratio, d) + Charge(requests[|requests| - 1], ratio, d)
  }

  lemma {:induction false} SubtractAllIsTotal(x: Vector, requests: seq<Vector>, ratio: real, d: ResourceType)
    requires ratio != 0.0 && d in x && forall i :: 0 <= i < |requests| ==> requests[i].Keys == x.Keys
    ensures SubtractAll(x, requests, ratio)[d] == x[d] - TotalCharge(requests, ratio, d)
  {
    if requests != [] {
      SubtractAllIsTotal(x, requests[..|requests| - 1], ratio, d);
    }
  }

  function Requests(apps: seq<AppName>, spec: map<AppName, Vector>): (r: seq<Vector>)
    requires forall i :: 0 <= i < |apps| ==> apps[i] in spec
    ensures |r| == |apps| && forall i :: 0 <= i < |r| ==> r[i] == spec[apps[i]]
  {
    seq(|apps|, i requires 0 <= i < |apps| => spec[apps[i]])
  }

  /** Reads consumed by `r` reads and `w` writes; writes are the same with `1 / ratio`. */
  function Coupling(r: real, w: real, ratio: real): real { r + w * ratio }

  lemma CouplingIsAdditive(r: real, w: real, r': real, w': real, ratio: real)
    ensures Coupling(r, w, ratio) + Coupling(r', w', ratio) == Coupling(r + r', w + w', ratio)
  {
    assert (w + w') * ratio == w * ratio + w' * ratio;
  }

  lemma ChargeIsCoupling(y: Vector, ratio: real)
    requires ratio != 0.0 && MEMBW_READ in y && MEMBW_WRITE in y
    ensures Charge(y, ratio, MEMBW_READ) == Coupling(y[MEMBW_READ], y[MEMBW_WRITE], ratio)
    ensures Charge(y, ratio, MEMBW_WRITE) == Coupling(y[MEMBW_WRITE], y[MEMBW_READ], 1.0 / ratio)
  {
  }

  lemma {:induction false} TotalChargeOfApps(dims: set<ResourceType>, apps: seq<AppName>, spec: map<AppName, Vector>, ratio: real)
    requires ratio != 0.0 && SpecifiedApps(dims, apps, spec) && MEMBW_READ in dims && MEMBW_WRITE in dims
    ensures TotalCharge(Requests(apps, spec), ratio, MEMBW_READ)
         == Coupling(SumIn(apps, spec, MEMBW_READ), SumIn(apps, spec, MEMBW_WRITE), ratio)
    ensures TotalCharge(Requests(apps, spec), ratio, MEMBW_WRITE)
         == Coupling(SumIn(apps, spec, MEMBW_WRITE), SumIn(apps, spec, MEMBW_READ), 1.0 / ratio)
  {
    if apps != [] {
      var init, last := apps[..|apps| - 1], spec[apps[|apps| - 1]];
      TotalChargeOfApps(dims, init, spec, ratio);
      assert Requests(apps, spec)[..|apps| - 1] == Requests(init, spec);
      ChargeIsCoupling(last, ratio);
      var r, w := SumIn(init, spec, MEMBW_READ), SumIn(init, spec, MEMBW_WRITE);
      CouplingIsAdditive(r, w, last[MEMBW_READ], last[MEMBW_WRITE], ratio);
      CouplingIsAdditive(w, r, last[MEMBW_WRITE], last[MEMBW_READ], 1.0 / ratio);
    }
  }

  lemma {:induction false} TotalChargeWithoutBandwidth(dims: set<ResourceType>, apps: seq<AppName>, spec: map<AppName, Vector>,
                                                       ratio: real, d: ResourceType)
    requires ratio != 0.0 && SpecifiedApps(dims, apps, spec) && d in dims && d != MEMBW_READ && d != MEMBW_WRITE
    ensures TotalCharge(Requests(apps, spec), ratio, d) == SumIn(apps, spec, d)
  {
    if apps != [] {
      TotalChargeWithoutBandwidth(dims, apps[..|apps| - 1], spec, ratio, d);
      assert Requests(apps, spec)[..|apps| - 1] == Requests(apps[..|apps| - 1], spec);
    }
  }

  /** Charging the tasks one by one amounts to charging their summed usage. */
  lemma TotalChargeIsChargeOfSum(ratio: real, apps: seq<AppName>, spec: map<AppName, Vector>, used: Vector, d: ResourceType)
    requires ratio != 0.0 && Coupled(used) && d in used && SpecifiedApps(used.Keys, apps, spec)
    requires forall d' :: d' in used ==> used[d'] == SumIn(apps, spec, d')
    ensures TotalCharge(Requests(apps, spec), ratio, d) == Charge(used, ratio, d)
  {
    if d == MEMBW_READ || d == MEMBW_WRITE {
      ChargeIsCoupling(used, ratio);
      TotalChargeOfApps(used.Keys, apps, spec, ratio);
    } else {
      TotalChargeWithoutBandwidth(used.Keys, apps, spec, ratio, d);
    }
  }

  lemma RemainingIsCharged(x: Vector, used: Vector, ratio: real, d: ResourceType)
    requires ratio > 0.0 && Coupled(x) && d in x && used.Keys == x.Keys
    ensures Remaining(x, used, if MEMBW_READ in x then Some(ratio) else None, d) == x[d] - Charge(used, ratio, d)
  {
  }

  lemma AccountingsAgreeIn(x: Vector, ratio: real, apps: seq<AppName>, spec: map<AppName, Vector>, used: Vector, d: ResourceType)
    requires ratio > 0.0 && Coupled(x) && used.Keys == x.Keys && d in x && SpecifiedApps(x.Keys, apps, spec)
    requires forall d' :: d' in used ==> used[d'] == SumIn(apps, spec, d')
    ensures SubtractAll(x, Requests(apps, spec), ratio)[d]
         == Remaining(x, used, if MEMBW_READ in x then Some(ratio) else None, d)
  {
    SubtractAllIsTotal(x, Requests(apps, spec), ratio, d);
    TotalChargeIsChargeOfSum(ratio, apps, spec, used, d);
    RemainingIsCharged(x, used, ratio, d);
  }

  /** The simulator subtracts tasks one by one, the scheduler multiplies per-application counts:
      on every list of running applications, in any order, both see the same free resources. */
  lemma AccountingsAgree(node: Node, apps: seq<AppName>, spec: map<AppName, Vector>)
    requires Capacity(node.initial) && SpecifiedApps(node.initial.Keys, apps, spec)
    ensures SubtractAll(node.initial, Requests(apps, spec), NodeRatio(node))
         == Subtracted(node.initial, Used(node.initial.Keys, CountApps(apps), spec), ReadWriteRatio(node.initial))
  {
    var x, ratio := node.initial, NodeRatio(node);
    var used := Used(x.Keys, CountApps(apps), spec);
    UsedIsSummed(x.Keys, apps, spec);
    forall d | d in x
      ensures SubtractAll(x, Requests(apps, spec), ratio)[d] == Remaining(x, used, ReadWriteRatio(x), d)
    {
      AccountingsAgreeIn(x, ratio, apps, spec, used, d);
    }
  }

  lemma UsedIsSummed(dims: set<ResourceType>, apps: seq<AppName>, spec: map<AppName, Vector>)
    ensures forall d :: d in dims ==> Used(dims, CountApps(apps), spec)[d] == SumIn(apps, spec, d)
  {
    forall d | d in dims ensures Used(dims, CountApps(apps), spec)[d] == SumIn(apps, spec, d) {
      CountedIsSummed(apps, spec, d);
    }
  }

  /** With a lone write view the two accountings agree on a request exactly when it writes nothing:
      the simulator skips the view, the scheduler, which then has no ratio, subtracts it. */
  lemma LoneWriteViewAgreesIffUnused(x: Vector, y: Vector)
    requires x.Keys == y.Keys && MEMBW_WRITE in x && MEMBW_READ !in x
    ensures SubtractAep(x, y, 1.0) == Subtracted(x, y, None) <==> y[MEMBW_WRITE] == 0.0
  {
    assert SubtractAep(x, y, 1.0)[MEMBW_WRITE] == x[MEMBW_WRITE];
    assert Subtracted(x, y, None)[MEMBW_WRITE] == x[MEMBW_WRITE] - y[MEMBW_WRITE];
    if y[MEMBW_WRITE] == 0.0 {
      assert forall d :: d in x ==> SubtractAep(x, y, 1.0)[d] == Subtracted(x, y, None)[d];
    }
  }
}
