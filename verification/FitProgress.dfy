/** That a task finds a node under the Fit algorithm, wca/scheduler/algorithms/fit.py on the simulator, whenever one has
    room. */
module FitProgress {
  import opened Dicts
  import opened ResourceVectors
  import opened Accounting
  import opened Ordering
  import opened Simulator
  import opened SimulatorSafety
  import opened SimulatorRounds
  import opened Fit

  // ----- What the filter asks -----

  /** What a node offers of a dimension: the cpus of a PMEM node count by the factor. */
  function Offers(p: Parameters, node: Node, d: ResourceType): real
    requires d in node.initial
  {
    if d == CPU && node.name in p.pmemNodes then node.initial[d] * p.factor else node.initial[d]
  }

  /** What the running copies use of a dimension, with one copy more. */
  function Needed(tasks: seq<TaskView>, app: AppName, node: Node, d: ResourceType): real
    requires app in RequestedByApp(tasks) && d in RequestedByApp(tasks)[app]
  {
    var spec := RequestedByApp(tasks);
    var counts := CountApps(AppsOn(node, tasks));
    spec[app][d] + UsedIn(counts.keys, counts.at, spec, d)
  }

  /** Every dimension apart, reads and writes together. */
  ghost predicate HasRoom(p: Parameters, tasks: seq<TaskView>, app: AppName, node: Node)
    requires Capacity(node.initial)
  {
    && app in RequestedByApp(tasks) && RequestedByApp(tasks)[app].Keys == node.initial.Keys
    && (forall d :: d in node.initial && d != MEMBW_READ && d != MEMBW_WRITE ==>
          Needed(tasks, app, node, d) <= Offers(p, node, d))
    && (MEMBW_READ in node.initial ==>
          Needed(tasks, app, node, MEMBW_READ)
            + Needed(tasks, app, node, MEMBW_WRITE) * (node.initial[MEMBW_READ] / node.initial[MEMBW_WRITE])
          <= node.initial[MEMBW_READ])
  }

  lemma BandwidthByReads(capacity: Vector, used: Vector)
    requires capacity.Keys == used.Keys && Capacity(capacity) && MEMBW_READ in capacity
    ensures var ratio := ReadWriteRatio(capacity);
      (Remaining(capacity, used, ratio, MEMBW_READ) >= 0.0 && Remaining(capacity, used, ratio, MEMBW_WRITE) >= 0.0) <==>
        used[MEMBW_READ] + used[MEMBW_WRITE] * (capacity[MEMBW_READ] / capacity[MEMBW_WRITE]) <= capacity[MEMBW_READ]
  {
    var ratio := ReadWriteRatio(capacity);
    FreeBandwidthIsOneResource(capacity, used);
    SameSign(Remaining(capacity, used, ratio, MEMBW_READ), ratio.value, Remaining(capacity, used, ratio, MEMBW_WRITE));
    var product := used[MEMBW_WRITE] * (capacity[MEMBW_READ] / capacity[MEMBW_WRITE]);
    assert Remaining(capacity, used, ratio, MEMBW_READ) == capacity[MEMBW_READ] - (used[MEMBW_READ] + product);
  }

  lemma OtherByItself(capacity: Vector, used: Vector, d: ResourceType)
    requires capacity.Keys == used.Keys && Capacity(capacity) && d in capacity && d != MEMBW_READ && d != MEMBW_WRITE
    ensures Remaining(capacity, used, ReadWriteRatio(capacity), d) >= 0.0 <==> used[d] <= capacity[d]
  {
  }

  lemma FitsByDimension(capacity: Vector, used: Vector)
    requires capacity.Keys == used.Keys && Capacity(capacity)
    ensures Fits(capacity, used) <==>
      (forall d :: d in capacity && d != MEMBW_READ && d != MEMBW_WRITE ==> used[d] <= capacity[d])
      && (MEMBW_READ in capacity ==>
            used[MEMBW_READ] + used[MEMBW_WRITE] * (capacity[MEMBW_READ] / capacity[MEMBW_WRITE]) <= capacity[MEMBW_READ])
  {
    hide Remaining;
    hide ReadWriteRatio;
    if MEMBW_READ in capacity {
      BandwidthByReads(capacity, used);
    }
    forall d | d in capacity && d != MEMBW_READ && d != MEMBW_WRITE
      ensures Remaining(capacity, used, ReadWriteRatio(capacity), d) >= 0.0 <==> used[d] <= capacity[d]
    {
      OtherByItself(capacity, used, d);
    }
  }

  lemma ScaledOffers(p: Parameters, node: Node)
    requires Capacity(node.initial)
    ensures var scaled := Scaled(node, p.pmemNodes, p.factor);
      && scaled.Keys == node.initial.Keys && Capacity(scaled)
      && (forall d :: d in scaled ==> scaled[d] == Offers(p, node, d))
  {
    var scaled := Scaled(node, p.pmemNodes, p.factor);
    assert scaled.Keys == node.initial.Keys;
  }

  lemma SumIsNeeded(tasks: seq<TaskView>, app: AppName, node: Node, dims: set<ResourceType>)
    requires app in RequestedByApp(tasks) && RequestedByApp(tasks)[app].Keys == dims
    ensures var spec := RequestedByApp(tasks);
      var used := SumResources(spec[app], Used(dims, CountApps(AppsOn(node, tasks)), spec));
      used.Keys == dims && forall d :: d in dims ==> used[d] == Needed(tasks, app, node, d)
  {
    hide AppsOn;
    hide CountApps;
    hide RequestedByApp;
    hide UsedIn;
  }

  lemma RoomIff(p: Parameters, tasks: seq<TaskView>, app: AppName, node: Node, capacity: Vector, used: Vector)
    requires Capacity(node.initial) && Capacity(capacity) && capacity.Keys == node.initial.Keys == used.Keys
    requires app in RequestedByApp(tasks) && RequestedByApp(tasks)[app].Keys == node.initial.Keys
    requires forall d :: d in capacity ==> capacity[d] == Offers(p, node, d) && used[d] == Needed(tasks, app, node, d)
    ensures HasRoom(p, tasks, app, node) <==> Fits(capacity, used)
  {
    hide Fits;
    hide Needed;
    hide RequestedByApp;
    FitsByDimension(capacity, used);
    OffersBandwidth(p, node);
    hide Offers;
  }

  /** A node passes the filter exactly when it has room for one copy more. */
  lemma PassesIff(p: Parameters, tasks: seq<TaskView>, app: AppName, node: Node)
    requires Capacity(node.initial)
    ensures NodePasses(p, tasks, app, node) <==> HasRoom(p, tasks, app, node)
  {
    hide Fits;
    hide Scaled;
    hide Needed;
    hide RequestedByApp;
    hide Offers;
    ScaledOffers(p, node);
    var capacity, spec := Scaled(node, p.pmemNodes, p.factor), RequestedByApp(tasks);
    if app in spec && spec[app].Keys == capacity.Keys {
      var used := SumResources(spec[app], Used(capacity.Keys, CountApps(AppsOn(node, tasks)), spec));
      SumIsNeeded(tasks, app, node, capacity.Keys);
      RoomIff(p, tasks, app, node, capacity, used);
      hide HasRoom;
    }
  }

  lemma OffersBandwidth(p: Parameters, node: Node)
    ensures MEMBW_READ in node.initial ==> Offers(p, node, MEMBW_READ) == node.initial[MEMBW_READ]
    ensures MEMBW_WRITE in node.initial ==> Offers(p, node, MEMBW_WRITE) == node.initial[MEMBW_WRITE]
  {
  }

  ghost predicate DashesAt(name: string, i: nat) { i + 2 < |name| && name[i] == name[i + 1] == name[i + 2] == '_' }

  /** The first "___" of a name is at `i`. */
  ghost predicate SeparatedAt(name: string, i: nat) { DashesAt(name, i) && forall j :: 0 <= j < i ==> !DashesAt(name, j) }

  lemma SeparatorIs(name: string)
    requires |name| >= 3
    ensures name[..3] == SEPARATOR <==> DashesAt(name, 0)
  {
    assert name[..3] == [name[0], name[1], name[2]] && SEPARATOR == ['_', '_', '_'];
  }

  lemma SeparatedLater(name: string, i: nat)
    requires name != "" && !DashesAt(name, 0)
    ensures SeparatedAt(name[1..], i) <==> SeparatedAt(name, i + 1)
  {
    var rest := name[1..];
    assert forall j: nat :: DashesAt(rest, j) <==> DashesAt(name, j + 1);
    if SeparatedAt(rest, i) {
      forall j | 0 <= j < i + 1 ensures !DashesAt(name, j) {
        assert j > 0 ==> !DashesAt(rest, j - 1);
      }
    }
  }

  /** The application of a task is its name up to the first "___", */
  lemma {:induction false} CoreNameIsPrefix(name: string, i: nat)
    requires SeparatedAt(name, i)
    ensures CoreName(name) == name[..i]
  {
    SeparatorIs(name);
    if i > 0 {
      SeparatedLater(name, i - 1);
      CoreNameIsPrefix(name[1..], i - 1);
      assert name[..i] == [name[0]] + name[1..][..i - 1];
    }
  }

  /** or all of it. */
  lemma {:induction false} CoreNameIsAll(name: string)
    requires forall i: nat :: !DashesAt(name, i)
    ensures CoreName(name) == name
  {
    if |name| >= 3 {
      SeparatorIs(name);
      var rest := name[1..];
      forall i: nat ensures !DashesAt(rest, i) {
        assert !DashesAt(name, i + 1);
      }
      CoreNameIsAll(rest);
      assert name == [name[0]] + rest;
    }
  }

  /** What an application requests is what its last task does. */
  lemma {:induction false} LastTaskDecides(tasks: seq<TaskView>, i: nat)
    requires i < |tasks| && forall j :: i < j < |tasks| ==> CoreName(tasks[j].name) != CoreName(tasks[i].name)
    ensures CoreName(tasks[i].name) in RequestedByApp(tasks)
    ensures RequestedByApp(tasks)[CoreName(tasks[i].name)] == tasks[i].requested
  {
    hide CoreName;
    if i < |tasks| - 1 {
      LastTaskDecides(tasks[..|tasks| - 1], i);
    }
  }

  // ----- A node is found -----

  ghost predicate SomePasses(cfg: Config, p: Parameters, tasks: seq<TaskView>, app: AppName) {
    exists i :: 0 <= i < |cfg.nodes| && NodePasses(p, tasks, app, cfg.nodes[i])
  }

  lemma NamesAreUnique(cfg: Config, p: Parameters, i: nat)
    requires FitConfig(cfg, p) && i < |cfg.nodes|
    ensures OnlyNode(cfg.nodes, cfg.nodes[i].name, i)
  {
  }

  lemma FailedIff(cfg: Config, p: Parameters, tasks: seq<TaskView>, app: AppName, i: nat)
    requires FitConfig(cfg, p) && i < |cfg.nodes|
    ensures cfg.nodes[i].name in Fit.Failed(p, tasks, app) <==> !NodePasses(p, tasks, app, cfg.nodes[i])
  {
    hide NodePasses;
    if cfg.nodes[i].name in Fit.Failed(p, tasks, app) {
      var j :| 0 <= j < |p.nodes| && !NodePasses(p, tasks, app, p.nodes[j]) && p.nodes[j].name == cfg.nodes[i].name;
      assert j == i;
    }
  }

  ghost function Offered(cfg: Config, p: Parameters, tasks: seq<TaskView>, app: AppName): seq<string> {
    Without(NodeNames(cfg.nodes), Fit.Failed(p, tasks, app))
  }

  lemma OfferedIff(cfg: Config, p: Parameters, tasks: seq<TaskView>, app: AppName)
    requires FitConfig(cfg, p)
    ensures Offered(cfg, p, tasks, app) != [] <==> SomePasses(cfg, p, tasks, app)
    ensures forall n :: n in Offered(cfg, p, tasks, app) ==> exists i :: 0 <= i < |cfg.nodes| && cfg.nodes[i].name == n
  {
    hide NodePasses;
    hide FitConfig;
    var names, offered := NodeNames(cfg.nodes), Offered(cfg, p, tasks, app);
    OfferedNames(names, Fit.Failed(p, tasks, app));
    forall i | 0 <= i < |names| ensures names[i] in offered <==> NodePasses(p, tasks, app, cfg.nodes[i]) {
      assert names[i] in names;
      FailedIff(cfg, p, tasks, app, i);
    }
    Empty(offered);
    if offered != [] {
      var i :| 0 <= i < |names| && names[i] == offered[0];
    }
  }

  lemma AnswersAre(cfg: Config, p: Parameters, tasks: seq<TaskView>, task: TaskView)
    ensures var answers, offered := Answers(cfg, FitAlgorithm(p), tasks, task), Offered(cfg, p, tasks, CoreName(task.name));
      && |answers| == |offered| && forall k :: 0 <= k < |answers| ==> answers[k].host in offered
  {
    var offered := Offered(cfg, p, tasks, CoreName(task.name));
    SortedSame(offered, StringLeq);
    var answers := Answers(cfg, FitAlgorithm(p), tasks, task);
    assert answers == AllZero(Sorted(offered, StringLeq));
    forall k | 0 <= k < |answers| ensures answers[k].host in offered {
      assert Sorted(offered, StringLeq)[k] in Sorted(offered, StringLeq);
    }
  }

  /** Under Fit a node is chosen exactly when some node passes, and never an unknown one. */
  lemma ChosenIffSomePasses(cfg: Config, p: Parameters, tasks: seq<TaskView>, task: TaskView)
    requires FitConfig(cfg, p)
    ensures var r := CallScheduler(cfg, FitAlgorithm(p), tasks, task);
      if SomePasses(cfg, p, tasks, CoreName(task.name))
      then r.Chosen? && NodePasses(p, tasks, CoreName(task.name), r.node) else r == NoNode
  {
    hide NodePasses;
    hide CallScheduler;
    hide OnlyNode;
    hide FitConfig;
    hide SomePasses;
    hide Offered;
    hide Answers;
    var alg := FitAlgorithm(p);
    var answers := Answers(cfg, alg, tasks, task);
    OfferedIff(cfg, p, tasks, CoreName(task.name));
    AnswersAre(cfg, p, tasks, task);
    ChosenIff(cfg, alg, tasks, task);
    ChosenPasses(cfg, p, tasks, task);
    if answers != [] {
      var k := FirstMax(answers, (q: HostPriority) => q.score);
      BestIsFirst(answers, k);
      assert answers[k].host in Offered(cfg, p, tasks, CoreName(task.name));
      var j :| 0 <= j < |cfg.nodes| && cfg.nodes[j].name == answers[k].host;
      NamesAreUnique(cfg, p, j);
      assert IsChoice(cfg, answers, k, j);
    }
  }

  lemma Empty(s: seq<string>)
    ensures s != [] ==> s[0] in s
    ensures s == [] ==> Prioritized(s) == []
  {
  }

  lemma {:induction false} StringsOrdered(s: seq<string>)
    ensures InOrder(Sorted(s, StringLeq), StringLeq)
  {
    StringsAreOrdered();
    SortedIsInOrder(s, StringLeq);
  }

  lemma Reflexive(a: string)
    ensures StringLeq(a, a)
  {
    StringsAreOrdered();
    assert StringLeq(a, a) || StringLeq(a, a);
  }

  lemma FirstOfZero(names: seq<string>, k: nat)
    requires FirstBest(AllZero(names), k)
    ensures k == 0
  {
    assert AllZero(names)[0].score == 0 && AllZero(names)[k].score == 0;
  }

  /** All nodes score alike, so the passing node that comes first by name is chosen. */
  lemma ChosenIsFirstByName(cfg: Config, p: Parameters, tasks: seq<TaskView>, task: TaskView, i: nat)
    requires FitConfig(cfg, p) && i < |cfg.nodes| && NodePasses(p, tasks, CoreName(task.name), cfg.nodes[i])
    ensures var r := CallScheduler(cfg, FitAlgorithm(p), tasks, task); r.Chosen? && StringLeq(r.node.name, cfg.nodes[i].name)
  {
    hide NodePasses;
    hide CallScheduler;
    hide StringLeq;
    hide Sorted;
    var app, alg := CoreName(task.name), FitAlgorithm(p);
    var offered, answers := Offered(cfg, p, tasks, app), Answers(cfg, alg, tasks, task);
    assert SomePasses(cfg, p, tasks, app);
    ChosenIffSomePasses(cfg, p, tasks, task);
    ChosenIff(cfg, alg, tasks, task);
    var k: nat, j: nat :| IsChoice(cfg, answers, k, j) && CallScheduler(cfg, alg, tasks, task).node == cfg.nodes[j];
    assert answers == AllZero(Sorted(offered, StringLeq));
    FirstOfZero(Sorted(offered, StringLeq), k);
    assert answers[0].host == cfg.nodes[j].name;
    OfferedHas(cfg, p, tasks, app, i);
    SortedSame(offered, StringLeq);
    StringsOrdered(offered);
    var sorted := Sorted(offered, StringLeq);
    var l :| 0 <= l < |sorted| && sorted[l] == cfg.nodes[i].name;
    Reflexive(sorted[0]);
  }

  lemma OfferedHas(cfg: Config, p: Parameters, tasks: seq<TaskView>, app: AppName, i: nat)
    requires FitConfig(cfg, p) && i < |cfg.nodes| && NodePasses(p, tasks, app, cfg.nodes[i])
    ensures cfg.nodes[i].name in Offered(cfg, p, tasks, app)
  {
    hide NodePasses;
    var names := NodeNames(cfg.nodes);
    OfferedNames(names, Fit.Failed(p, tasks, app));
    FailedIff(cfg, p, tasks, app, i);
    assert names[i] in names;
  }

  /** A task is bound to a node that passes exactly when there is one, without a rough assignment. */
  lemma BoundUnderFit(cfg: Config, p: Parameters, s: State, i: nat, spec: map<AppName, Vector>)
    requires GoodState(cfg, s) && FitConfig(cfg, p) && i < |s.tasks| && Uniform(s.tasks, spec)
    ensures var o := AssignOne(cfg, FitAlgorithm(p), s, i);
      if SomePasses(cfg, p, s.tasks, CoreName(s.tasks[i].name))
      then o.Done? && o.count == 1 && o.state.rough == s.rough && |o.state.tasks| == |s.tasks|
        && o.state.tasks[i].assignment.Some? && IsBound(s.tasks, o.state.tasks, i, o.state.tasks[i].assignment.value)
        && NodePasses(p, s.tasks, CoreName(s.tasks[i].name), o.state.tasks[i].assignment.value)
      else o == Done(s, 0)
  {
    hide NodePasses;
    hide CallScheduler;
    hide FitsNode;
    var r := CallScheduler(cfg, FitAlgorithm(p), s.tasks, s.tasks[i]);
    ChosenIffSomePasses(cfg, p, s.tasks, s.tasks[i]);
    if r.Chosen? {
      assert Compatible(r.node, s.tasks);
      PassingIsValid(p, r.node, s.tasks, i, spec);
      FitsNodeIff(cfg, s, i, r.node);
      BoundIff(cfg, FitAlgorithm(p), s, i);
      AssignOneNeverRough(cfg, p, s, i, spec);
    }
  }

  // ----- A lone task -----

  lemma LoneIsAdded(cfg: Config, s: State, t: TaskView)
    requires GoodState(cfg, s) && GoodTask(cfg, t) && t.nodeName.None?
    ensures AddEach(cfg, s, [t]) == (Done(s.(tasks := s.tasks + [t]), 0), [|s.tasks|])
  {
    var o := AddOne(cfg, s, t);
    assert AddEach(cfg, o.state, [t], 1, [|s.tasks|]) == (Done(o.state, 0), [|s.tasks|]);
    assert [] + [|s.tasks|] == [|s.tasks|];
  }

  lemma LoneIsScheduled(cfg: Config, alg: Algorithm, s: State, i: nat, quiet: bool)
    requires GoodState(cfg, s) && i < |s.tasks|
    ensures Scheduled(cfg, alg, s, [i], quiet) == AssignOne(cfg, alg, s, i)
  {
    hide AssignOne;
    var o := AssignOne(cfg, alg, s, i);
    if o.Done? {
      assert AssignEach(cfg, alg, o.state, [i], 1) == Done(o.state, 0);
    }
  }

  /** A lone task that arrives is on a node at the end of the round exactly when some node passes the filter for it and its
      duration is not over at once; it is counted when some node passes, and nothing else is bound. */
  lemma LoneArrival(cfg: Config, p: Parameters, s: State, t: TaskView, spec: map<AppName, Vector>)
    requires GoodState(cfg, s) && FitConfig(cfg, p) && GoodTask(cfg, t) && t.nodeName.None? && t.assignment.None?
    requires Uniform(s.tasks + [t], spec)
    ensures GoodNewTasks(cfg, [t])
    ensures var o := Iterated(cfg, FitAlgorithm(p), s, [t]);
      var all := s.tasks + [t];
      var passes := SomePasses(cfg, p, all, CoreName(t.name));
      && o.Done? && |o.state.tasks| == |all| && o.state.rough == s.rough
      && o.count == (if passes then 1 else 0)
      && (o.state.tasks[|s.tasks|].assignment.Some? <==> passes && (t.duration.Some? ==> t.lifeTime < t.duration.value))
      && (o.state.tasks[|s.tasks|].assignment.Some? ==>
            NodePasses(p, all, CoreName(t.name), o.state.tasks[|s.tasks|].assignment.value))
  {
    hide NodePasses;
    hide AssignOne;
    hide AddEach;
    hide Scheduled;
    var all := s.tasks + [t];
    LoneIsAdded(cfg, s, t);
    var added := s.(tasks := all);
    LoneIsScheduled(cfg, FitAlgorithm(p), added, |s.tasks|, false);
    BoundUnderFit(cfg, p, added, |s.tasks|, spec);
  }

  lemma {:induction false} OnlyWaiting(tasks: seq<TaskView>, i: nat)
    requires i < |tasks| && forall j :: 0 <= j < |tasks| ==> (tasks[j].assignment.None? <==> j == i)
    ensures IndicesUnassigned(tasks) == [i]
  {
    var init := tasks[..|tasks| - 1];
    if i < |init| {
      OnlyWaiting(init, i);
    } else {
      NoneWaiting(init);
    }
  }

  lemma {:induction false} NoneWaiting(tasks: seq<TaskView>)
    requires forall j :: 0 <= j < |tasks| ==> tasks[j].assignment.Some?
    ensures IndicesUnassigned(tasks) == []
  {
    if tasks != [] {
      NoneWaiting(tasks[..|tasks| - 1]);
    }
  }

  lemma NothingIsAdded(cfg: Config, s: State)
    requires GoodState(cfg, s)
    ensures AddEach(cfg, s, []) == (Done(s, 0), [])
  {
  }

  lemma RetryIsScheduled(cfg: Config, alg: Algorithm, s: State, i: nat)
    requires GoodState(cfg, s) && cfg.retry && i < |s.tasks|
    requires forall j :: 0 <= j < |s.tasks| ==> (s.tasks[j].assignment.None? <==> j == i)
    ensures Scheduled(cfg, alg, s, [], true) == AssignOne(cfg, alg, s, i)
  {
    hide AssignOne;
    OnlyWaiting(s.tasks, i);
    LoneIsScheduled(cfg, alg, s, i, true);
  }

  /** Where unassigned tasks are retried, a lone one that waits gets a node in a round without arrivals, as soon as one
      passes. */
  lemma LoneRetry(cfg: Config, p: Parameters, s: State, i: nat, spec: map<AppName, Vector>)
    requires GoodState(cfg, s) && FitConfig(cfg, p) && Uniform(s.tasks, spec) && cfg.retry && i < |s.tasks|
    requires forall j :: 0 <= j < |s.tasks| ==> (s.tasks[j].assignment.None? <==> j == i)
    ensures var o := Iterated(cfg, FitAlgorithm(p), s, []);
      var passes := SomePasses(cfg, p, s.tasks, CoreName(s.tasks[i].name));
      && o.Done? && |o.state.tasks| == |s.tasks| && o.count == (if passes then 1 else 0)
      && (o.state.tasks[i].assignment.Some? <==>
            passes && (s.tasks[i].duration.Some? ==> s.tasks[i].lifeTime < s.tasks[i].duration.value))
  {
    hide NodePasses;
    hide AssignOne;
    hide AddEach;
    hide Scheduled;
    NothingIsAdded(cfg, s);
    RetryIsScheduled(cfg, FitAlgorithm(p), s, i);
    BoundUnderFit(cfg, p, s, i, spec);
  }
}
