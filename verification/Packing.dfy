/** The greedy loop of the Score rescheduler (wca/scheduler/algorithms/score.py) over any check of what
    a node can hold. The loop charges a task on every node where it fits, although the task will run on
    one of them only; the packing behind it places each task on the first node where it fits. */
module Packing {
  import opened Dicts
  import opened ResourceVectors

  type NodeName = string
  type TaskName = string
  type Usage = map<NodeName, Vector>

  datatype Item = Item(app: AppName, task: TaskName)

  datatype Problem = Problem(
    base: Usage,                          // usage before anything is packed
    order: seq<NodeName>,                 // the nodes in the order they are tried
    spec: map<AppName, Vector>,
    dims: set<ResourceType>,
    fits: (NodeName, Vector) -> bool)     // a node can hold a usage

  ghost predicate WellFormed(p: Problem) {
    && (forall i :: 0 <= i < |p.order| ==> p.order[i] in p.base)
    && (forall n :: n in p.base ==> p.base[n].Keys == p.dims && n in p.order)
    && NonNegativeSpec(p)
  }

  ghost predicate NonNegativeSpec(p: Problem) {
    forall a :: a in p.spec ==> NonNegative(p.spec[a])
  }

  ghost predicate AtMost(less: Vector, more: Vector) {
    less.Keys == more.Keys && forall d :: d in less ==> less[d] <= more[d]
  }

  /** A node that can hold a usage can hold every smaller one. */
  ghost predicate Monotone(p: Problem) {
    forall n, less, more :: p.fits(n, more) && AtMost(less, more) ==> p.fits(n, less)
  }

  predicate FitsOn(p: Problem, used: Usage, app: AppName, n: NodeName) {
    n in used && app in p.spec && used[n].Keys == p.spec[app].Keys && p.fits(n, SumResources(used[n], p.spec[app]))
  }

  /** Usage after one task was charged on every node where it fits. */
  function Charged(p: Problem, used: Usage, app: AppName): Usage {
    map n | n in used :: if FitsOn(p, used, app, n) then SumResources(used[n], p.spec[app]) else used[n]
  }

  function UsageAfter(p: Problem, items: seq<Item>, k: nat): Usage
    requires k <= |items|
  {
    if k == 0 then p.base else Charged(p, UsageAfter(p, items, k - 1), items[k - 1].app)
  }

  function FirstFit(p: Problem, used: Usage, app: AppName, order: seq<NodeName>): (r: Option<NodeName>)
    ensures r.Some? ==> r.value in order && FitsOn(p, used, app, r.value)
    ensures r.None? ==> forall n :: n in order ==> !FitsOn(p, used, app, n)
  {
    if order == [] then None
    else if FitsOn(p, used, app, order[0]) then Some(order[0])
    else FirstFit(p, used, app, order[1..])
  }

  /** The tasks the loop reports: one copy of a task for every node that was charged. */
  function Reports(p: Problem, used: Usage, item: Item, order: seq<NodeName>): seq<TaskName> {
    if order == [] then []
    else Reports(p, used, item, order[..|order| - 1])
         + if FitsOn(p, used, item.app, order[|order| - 1]) then [item.task] else []
  }

  function AllReports(p: Problem, items: seq<Item>, k: nat): seq<TaskName>
    requires k <= |items|
  {
    if k == 0 then [] else AllReports(p, items, k - 1) + Reports(p, UsageAfter(p, items, k - 1), items[k - 1], p.order)
  }

  /** Usage after a task was tried on the first `k` nodes. */
  function ChargedFirst(p: Problem, used: Usage, app: AppName, k: nat): (r: Usage)
    requires k <= |p.order|
  {
    if k == 0 then used
    else
      var n := p.order[k - 1];
      if FitsOn(p, used, app, n) then ChargedFirst(p, used, app, k - 1)[n := SumResources(used[n], p.spec[app])]
      else ChargedFirst(p, used, app, k - 1)
  }

  lemma {:induction false} ChargedFirstAt(p: Problem, used: Usage, app: AppName, k: nat, i: nat)
    requires NoDup(p.order) && k <= |p.order| && i < |p.order| && p.order[i] in used
    ensures p.order[i] in ChargedFirst(p, used, app, k)
    ensures ChargedFirst(p, used, app, k)[p.order[i]] == if i < k then Charged(p, used, app)[p.order[i]] else used[p.order[i]]
  {
    if k > 0 {
      ChargedFirstAt(p, used, app, k - 1, i);
    }
  }

  lemma {:induction false} ChargedFirstKeys(p: Problem, used: Usage, app: AppName, k: nat)
    requires k <= |p.order|
    ensures ChargedFirst(p, used, app, k).Keys == used.Keys
  {
    if k > 0 {
      ChargedFirstKeys(p, used, app, k - 1);
    }
  }

  lemma ChargedFirstAll(p: Problem, used: Usage, app: AppName)
    requires NoDup(p.order) && forall n :: n in used ==> n in p.order
    ensures ChargedFirst(p, used, app, |p.order|) == Charged(p, used, app)
  {
    ChargedFirstKeys(p, used, app, |p.order|);
    forall n | n in used ensures ChargedFirst(p, used, app, |p.order|)[n] == Charged(p, used, app)[n] {
      var i :| 0 <= i < |p.order| && p.order[i] == n;
      ChargedFirstAt(p, used, app, |p.order|, i);
    }
  }

  /** Where the `k`-th item goes in the packing. */
  function PlacedOn(p: Problem, items: seq<Item>, k: nat): Option<NodeName>
    requires k < |items|
  {
    FirstFit(p, UsageAfter(p, items, k), items[k].app, p.order)
  }

  function PlacedBy(p: Problem, items: seq<Item>, k: nat, n: NodeName, d: ResourceType): real
    requires k < |items|
  {
    if PlacedOn(p, items, k) == Some(n) then Need(p.spec, items[k].app, d) else 0.0
  }

  /** What the first `k` items placed on `n` need together. */
  function PlacedLoad(p: Problem, items: seq<Item>, k: nat, n: NodeName, d: ResourceType): real
    requires k <= |items|
  {
    if k == 0 then 0.0 else PlacedLoad(p, items, k - 1, n, d) + PlacedBy(p, items, k - 1, n, d)
  }

  function Amount(used: Usage, n: NodeName, d: ResourceType): real {
    if n in used && d in used[n] then used[n][d] else 0.0
  }

  /** Usage of a node holding what it had and every item placed on it. */
  function PackedUsage(p: Problem, items: seq<Item>, n: NodeName): Vector {
    map d | d in p.dims :: Amount(p.base, n, d) + PlacedLoad(p, items, |items|, n, d)
  }

  // ----- What the loop guarantees -----

  lemma {:induction false} UsageIsTracked(p: Problem, items: seq<Item>, k: nat)
    requires WellFormed(p) && k <= |items|
    ensures UsageAfter(p, items, k).Keys == p.base.Keys
    ensures forall n :: n in p.base ==> UsageAfter(p, items, k)[n].Keys == p.dims
  {
    if k > 0 {
      UsageIsTracked(p, items, k - 1);
    }
  }

  function ChargedBy(p: Problem, items: seq<Item>, k: nat, n: NodeName, d: ResourceType): real
    requires k < |items|
  {
    if FitsOn(p, UsageAfter(p, items, k), items[k].app, n) then Need(p.spec, items[k].app, d) else 0.0
  }

  lemma PlacedAtMostCharged(p: Problem, items: seq<Item>, k: nat, n: NodeName, d: ResourceType)
    requires NonNegativeSpec(p) && k < |items|
    ensures 0.0 <= PlacedBy(p, items, k, n, d) <= ChargedBy(p, items, k, n, d)
  {
  }

  /** Usage of one dimension of one node after `k` items, charge by charge. */
  function ChargedTotal(p: Problem, items: seq<Item>, k: nat, n: NodeName, d: ResourceType): real
    requires k <= |items|
  {
    if k == 0 then Amount(p.base, n, d) else ChargedTotal(p, items, k - 1, n, d) + ChargedBy(p, items, k - 1, n, d)
  }

  lemma NextAmount(p: Problem, used: Usage, app: AppName, n: NodeName, d: ResourceType)
    requires n in used && d in used[n]
    ensures n in Charged(p, used, app) && d in Charged(p, used, app)[n]
    ensures Amount(Charged(p, used, app), n, d)
         == Amount(used, n, d) + if FitsOn(p, used, app, n) then Need(p.spec, app, d) else 0.0
  {
  }

  lemma {:induction false} AmountIsTotal(p: Problem, items: seq<Item>, k: nat, n: NodeName, d: ResourceType)
    requires k <= |items| && n in p.base && d in p.base[n]
    ensures n in UsageAfter(p, items, k) && d in UsageAfter(p, items, k)[n]
    ensures Amount(UsageAfter(p, items, k), n, d) == ChargedTotal(p, items, k, n, d)
  {
    if k > 0 {
      AmountIsTotal(p, items, k - 1, n, d);
      var used := UsageAfter(p, items, k - 1);
      NextAmount(p, used, items[k - 1].app, n, d);
      assert UsageAfter(p, items, k) == Charged(p, used, items[k - 1].app);
    }
  }

  /** The packing needs no more than what the loop charged. */
  lemma {:induction false} PackedIsCharged(p: Problem, items: seq<Item>, k: nat, n: NodeName, d: ResourceType)
    requires NonNegativeSpec(p) && k <= |items|
    ensures Amount(p.base, n, d) + PlacedLoad(p, items, k, n, d) <= ChargedTotal(p, items, k, n, d)
  {
    if k > 0 {
      PackedIsCharged(p, items, k - 1, n, d);
      PlacedAtMostCharged(p, items, k - 1, n, d);
    }
  }

  lemma {:induction false} TotalOnlyGrows(p: Problem, items: seq<Item>, j: nat, k: nat, n: NodeName, d: ResourceType)
    requires NonNegativeSpec(p) && j <= k <= |items|
    ensures ChargedTotal(p, items, j, n, d) <= ChargedTotal(p, items, k, n, d)
  {
    if j < k {
      TotalOnlyGrows(p, items, j, k - 1, n, d);
      PlacedAtMostCharged(p, items, k - 1, n, d);
    }
  }

  lemma UsageOnlyGrows(p: Problem, items: seq<Item>, j: nat, k: nat, n: NodeName, d: ResourceType)
    requires WellFormed(p) && j <= k <= |items| && n in p.base && d in p.dims
    ensures Amount(UsageAfter(p, items, j), n, d) <= Amount(UsageAfter(p, items, k), n, d)
  {
    AmountIsTotal(p, items, j, n, d);
    AmountIsTotal(p, items, k, n, d);
    TotalOnlyGrows(p, items, j, k, n, d);
  }

  /** A node on which anything was charged can hold all that was charged on it. */
  lemma {:induction false} ChargedFits(p: Problem, items: seq<Item>, j: nat, k: nat, n: NodeName)
    requires j < k <= |items|
    requires FitsOn(p, UsageAfter(p, items, j), items[j].app, n)
    ensures n in UsageAfter(p, items, k) && p.fits(n, UsageAfter(p, items, k)[n])
  {
    if j < k - 1 {
      ChargedFits(p, items, j, k - 1, n);
    }
  }

  lemma PackedAtMostCharged(p: Problem, items: seq<Item>, n: NodeName)
    requires WellFormed(p) && n in p.base
    ensures n in UsageAfter(p, items, |items|)
    ensures AtMost(PackedUsage(p, items, n), UsageAfter(p, items, |items|)[n])
  {
    UsageIsTracked(p, items, |items|);
    forall d | d in p.dims
      ensures PackedUsage(p, items, n)[d] <= UsageAfter(p, items, |items|)[n][d]
    {
      PackedIsCharged(p, items, |items|, n, d);
      AmountIsTotal(p, items, |items|, n, d);
    }
  }

  /** The packing is real: a node that receives a task can hold everything it had together with
      everything placed on it. */
  lemma PackingExists(p: Problem, items: seq<Item>, k: nat, n: NodeName)
    requires WellFormed(p) && Monotone(p) && k < |items| && PlacedOn(p, items, k) == Some(n)
    ensures n in p.base && p.fits(n, PackedUsage(p, items, n))
  {
    UsageIsTracked(p, items, k);
    PackedAtMostCharged(p, items, n);
    ChargedFits(p, items, k, |items|, n);
  }

  lemma FitsLateThenEarly(p: Problem, items: seq<Item>, j: nat, k: nat, app: AppName, n: NodeName)
    requires WellFormed(p) && Monotone(p) && j <= k <= |items|
    ensures FitsOn(p, UsageAfter(p, items, k), app, n) ==> FitsOn(p, UsageAfter(p, items, j), app, n)
  {
    var early, late := UsageAfter(p, items, j), UsageAfter(p, items, k);
    UsageIsTracked(p, items, j);
    UsageIsTracked(p, items, k);
    if FitsOn(p, late, app, n) {
      forall d | d in p.dims ensures early[n][d] <= late[n][d] {
        UsageOnlyGrows(p, items, j, k, n, d);
      }
      assert AtMost(SumResources(early[n], p.spec[app]), SumResources(late[n], p.spec[app]));
    }
  }

  /** A task left out fits on no node, not even with only what was charged at the very end. */
  lemma LeftOutFitsNowhere(p: Problem, items: seq<Item>, k: nat, n: NodeName)
    requires WellFormed(p) && Monotone(p) && k < |items| && PlacedOn(p, items, k).None?
    ensures !FitsOn(p, UsageAfter(p, items, |items|), items[k].app, n)
  {
    UsageIsTracked(p, items, |items|);
    FitsLateThenEarly(p, items, k, |items|, items[k].app, n);
  }

  lemma {:induction false} ReportedIffPlaced(p: Problem, used: Usage, item: Item, order: seq<NodeName>, task: TaskName)
    ensures task in Reports(p, used, item, order) <==> task == item.task && FirstFit(p, used, item.app, order).Some?
  {
    if order != [] {
      var init, last := order[..|order| - 1], order[|order| - 1];
      ReportedIffPlaced(p, used, item, init, task);
      assert forall n :: n in order <==> n in init || n == last;
    }
  }

  /** The result holds exactly the names of the placed tasks. */
  lemma {:induction false} AllReportedIffPlaced(p: Problem, items: seq<Item>, k: nat, task: TaskName)
    requires k <= |items|
    ensures task in AllReports(p, items, k) <==>
            exists j :: 0 <= j < k && items[j].task == task && PlacedOn(p, items, j).Some?
  {
    if k > 0 {
      AllReportedIffPlaced(p, items, k - 1, task);
      ReportedIffPlaced(p, UsageAfter(p, items, k - 1), items[k - 1], p.order, task);
    }
  }

  /** The nodes of `order` where the task fits. */
  function WhereItFits(p: Problem, used: Usage, app: AppName, order: seq<NodeName>): set<NodeName> {
    set n | n in order && FitsOn(p, used, app, n)
  }

  lemma OneMoreNode(p: Problem, used: Usage, app: AppName, order: seq<NodeName>)
    requires NoDup(order) && order != []
    ensures var init, last := order[..|order| - 1], order[|order| - 1];
      NoDup(init) && |WhereItFits(p, used, app, order)|
        == |WhereItFits(p, used, app, init)| + if FitsOn(p, used, app, last) then 1 else 0
  {
    hide FitsOn;
    var init, last := order[..|order| - 1], order[|order| - 1];
    assert order == init + [last] && last !in init;
    hide NoDup;
    var fitting := WhereItFits(p, used, app, init);
    assert last !in fitting;
    assert WhereItFits(p, used, app, order) == if FitsOn(p, used, app, last) then fitting + {last} else fitting;
  }

  /** A task is reported once for every node where it fits. */
  lemma {:induction false} ReportedPerNode(p: Problem, used: Usage, item: Item, order: seq<NodeName>)
    requires NoDup(order)
    ensures |Reports(p, used, item, order)| == |WhereItFits(p, used, item.app, order)|
    ensures forall i :: 0 <= i < |Reports(p, used, item, order)| ==> Reports(p, used, item, order)[i] == item.task
  {
    hide FitsOn;
    if order != [] {
      OneMoreNode(p, used, item.app, order);
      hide WhereItFits;
      hide NoDup;
      ReportedPerNode(p, used, item, order[..|order| - 1]);
    } else {
      assert WhereItFits(p, used, item.app, order) == {};
    }
  }

  // ----- Maximality, against the packing itself -----

  /** One more task of `app` would fit on `n` next to everything packed there. */
  predicate FitsPacked(p: Problem, items: seq<Item>, app: AppName, n: NodeName) {
    FitsOn(p, map[n := PackedUsage(p, items, n)], app, n)
  }

  /** Every task charged on `n` was also placed there. */
  ghost predicate ChargedOnlyWhenPlaced(p: Problem, items: seq<Item>, n: NodeName) {
    forall k :: 0 <= k < |items| && FitsOn(p, UsageAfter(p, items, k), items[k].app, n) ==> PlacedOn(p, items, k) == Some(n)
  }

  lemma PlacedByIsChargedBy(p: Problem, items: seq<Item>, k: nat, n: NodeName, d: ResourceType)
    requires ChargedOnlyWhenPlaced(p, items, n) && k < |items|
    ensures ChargedBy(p, items, k, n, d) == PlacedBy(p, items, k, n, d)
  {
  }

  lemma {:induction false} PlacedIsCharged(p: Problem, items: seq<Item>, k: nat, n: NodeName, d: ResourceType)
    requires k <= |items|
    requires forall j :: 0 <= j < |items| ==> ChargedBy(p, items, j, n, d) == PlacedBy(p, items, j, n, d)
    ensures ChargedTotal(p, items, k, n, d) == Amount(p.base, n, d) + PlacedLoad(p, items, k, n, d)
  {
    if k > 0 {
      PlacedIsCharged(p, items, k - 1, n, d);
    }
  }

  lemma PackedIsAllCharged(p: Problem, items: seq<Item>, n: NodeName)
    requires WellFormed(p) && n in p.base && ChargedOnlyWhenPlaced(p, items, n)
    ensures n in UsageAfter(p, items, |items|) && PackedUsage(p, items, n) == UsageAfter(p, items, |items|)[n]
  {
    UsageIsTracked(p, items, |items|);
    forall d | d in p.dims
      ensures PackedUsage(p, items, n)[d] == UsageAfter(p, items, |items|)[n][d]
    {
      forall j | 0 <= j < |items| ensures ChargedBy(p, items, j, n, d) == PlacedBy(p, items, j, n, d) {
        PlacedByIsChargedBy(p, items, j, n, d);
      }
      PlacedIsCharged(p, items, |items|, n, d);
      AmountIsTotal(p, items, |items|, n, d);
    }
  }

  /** Where nothing was charged in vain, a task left out does not fit the packing either. */
  lemma MaximalWhereNothingIsChargedInVain(p: Problem, items: seq<Item>, k: nat, n: NodeName)
    requires WellFormed(p) && Monotone(p) && k < |items| && PlacedOn(p, items, k).None?
    requires n in p.base && ChargedOnlyWhenPlaced(p, items, n)
    ensures !FitsPacked(p, items, items[k].app, n)
  {
    LeftOutFitsNowhere(p, items, k, n);
    PackedIsAllCharged(p, items, n);
  }

  /** With a single node to pack the loop is always maximal. */
  lemma MaximalOnASingleNode(p: Problem, items: seq<Item>, k: nat, n: NodeName)
    requires WellFormed(p) && Monotone(p) && k < |items| && PlacedOn(p, items, k).None? && p.order == [n]
    ensures !FitsPacked(p, items, items[k].app, n)
  {
    assert p.order[0] == n;
    MaximalWhereNothingIsChargedInVain(p, items, k, n);
  }

  /** Every task left out fits next to the packing nowhere. */
  ghost predicate Maximal(p: Problem, items: seq<Item>) {
    forall k, n :: 0 <= k < |items| && n in p.order && PlacedOn(p, items, k).None? ==> !FitsPacked(p, items, items[k].app, n)
  }

  lemma MaximalOnFewNodes(p: Problem, items: seq<Item>)
    requires WellFormed(p) && Monotone(p) && |p.order| <= 1
    ensures Maximal(p, items)
  {
    hide Monotone;
    hide FitsPacked;
    forall k, n | 0 <= k < |items| && n in p.order && PlacedOn(p, items, k).None?
      ensures !FitsPacked(p, items, items[k].app, n)
    {
      assert p.order == [n];
      MaximalOnASingleNode(p, items, k, n);
    }
  }

  /** Several empty nodes that hold 10 each, and an application whose copies need 6. */
  ghost predicate Crowded(p: Problem, app: AppName) {
    && |p.order| >= 2 && NoDup(p.order) && p.dims == {MEM}
    && app in p.spec && p.spec[app] == map[MEM := 6.0]
    && (forall n :: n in p.base <==> n in p.order)
    && (forall n :: n in p.base ==> p.base[n] == map[MEM := 0.0])
    && (forall n, v: Vector :: n in p.order && v.Keys == {MEM} ==> (p.fits(n, v) <==> v[MEM] <= 10.0))
  }

  function TwoTasks(app: AppName, first: TaskName, second: TaskName): seq<Item> { [Item(app, first), Item(app, second)] }

  lemma SumOfMem(x: real, y: real)
    ensures SumResources(map[MEM := x], map[MEM := y]) == map[MEM := x + y]
  {
  }

  lemma FirstTaskIsChargedEverywhere(p: Problem, app: AppName, n: NodeName)
    requires Crowded(p, app) && n in p.order
    ensures FitsOn(p, p.base, app, n)
    ensures n in Charged(p, p.base, app) && Charged(p, p.base, app)[n] == map[MEM := 6.0]
    ensures !FitsOn(p, Charged(p, p.base, app), app, n)
  {
    SumOfMem(0.0, 6.0);
    SumOfMem(6.0, 6.0);
  }

  /** The first task is charged on every node, so that the second is left out although it fits next to the packing on
      every node but the first. */
  lemma SecondTaskIsLeftOut(p: Problem, app: AppName, first: TaskName, second: TaskName)
    requires Crowded(p, app)
    ensures PlacedOn(p, TwoTasks(app, first, second), 1).None?
    ensures FitsPacked(p, TwoTasks(app, first, second), app, p.order[1])
    ensures !Maximal(p, TwoTasks(app, first, second))
  {
    hide FitsOn;
    hide Charged;
    hide NoDup;
    var items, n := TwoTasks(app, first, second), p.order[1];
    forall m | m in p.order ensures FitsOn(p, p.base, app, m) && !FitsOn(p, Charged(p, p.base, app), app, m) {
      FirstTaskIsChargedEverywhere(p, app, m);
    }
    assert UsageAfter(p, items, 0) == p.base && UsageAfter(p, items, 1) == Charged(p, p.base, app);
    assert PlacedOn(p, items, 1).None?;
    PackedOnSecond(p, app, first, second);
    assert p.order[1] in p.order;
  }

  lemma PackedOnSecond(p: Problem, app: AppName, first: TaskName, second: TaskName)
    requires Crowded(p, app) && PlacedOn(p, TwoTasks(app, first, second), 1).None?
    ensures FitsPacked(p, TwoTasks(app, first, second), app, p.order[1])
  {
    hide Charged;
    var items, n := TwoTasks(app, first, second), p.order[1];
    assert p.order[0] in p.order && p.order[1] in p.order && p.order[0] != n;
    FirstTaskIsChargedEverywhere(p, app, p.order[0]);
    assert PlacedOn(p, items, 0) == Some(p.order[0]);
    assert PlacedLoad(p, items, 0, n, MEM) == 0.0;
    assert PlacedLoad(p, items, 1, n, MEM) == 0.0;
    assert PlacedLoad(p, items, 2, n, MEM) == 0.0;
    assert PackedUsage(p, items, n) == map[MEM := 0.0];
    SumOfMem(0.0, 6.0);
  }

  function EmptyNodes(order: seq<NodeName>): Problem {
    Problem(map n | n in order :: map[MEM := 0.0], order, map["x" := map[MEM := 6.0]], {MEM},
            (n: NodeName, v: Vector) => MEM in v && v[MEM] <= 10.0)
  }

  lemma EmptyNodesAreCrowded(order: seq<NodeName>)
    requires |order| >= 2 && NoDup(order)
    ensures WellFormed(EmptyNodes(order)) && Monotone(EmptyNodes(order)) && Crowded(EmptyNodes(order), "x")
  {
    var p := EmptyNodes(order);
    forall i | 0 <= i < |p.order| ensures p.order[i] in p.base {
      assert p.order[i] in order;
    }
  }

  /** On given distinct nodes the loop is maximal for every problem if and only if there is at most one node: with two or
      more it charges a task on nodes where the task will not run. */
  lemma AlwaysMaximalIff(order: seq<NodeName>)
    requires NoDup(order)
    ensures (forall p: Problem, items: seq<Item> :: WellFormed(p) && Monotone(p) && p.order == order ==> Maximal(p, items))
      <==> |order| <= 1
  {
    hide WellFormed;
    hide Monotone;
    hide Crowded;
    hide Maximal;
    if |order| <= 1 {
      forall p: Problem, items: seq<Item> | WellFormed(p) && Monotone(p) && p.order == order ensures Maximal(p, items) {
        MaximalOnFewNodes(p, items);
      }
    } else {
      EmptyNodesAreCrowded(order);
      SecondTaskIsLeftOut(EmptyNodes(order), "x", "t", "u");
      assert EmptyNodes(order).order == order;
    }
  }
}
