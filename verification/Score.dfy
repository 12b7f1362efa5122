/** The Score rescheduler (wca/scheduler/algorithms/score.py): which tasks leave the PMEM nodes, which
    tasks are considered for them, and the greedy choice among those. */
module Score {
  import opened Dicts
  import opened ResourceVectors
  import opened Ordering
  import opened Packing

  datatype NodeType = PMEM | DRAM | UNKNOWN

  type Apps = Dict<AppName, seq<TaskName>>

  /** What the data provider answers, and the algorithm's own settings. */
  datatype Cluster = Cluster(
    appsOnNode: Dict<NodeName, Apps>,
    profile: Dict<AppName, real>,
    nodesType: map<NodeName, NodeType>,
    spec: map<AppName, Vector>,
    capacities: map<NodeName, Vector>,
    dims: set<ResourceType>,
    scoreTarget: Option<real>)

  const MIN_APP_PROFILES := 2

  // ----- Where an application belongs -----

  function ProfileOf(p: Dict<AppName, real>, app: AppName): real {
    if app in p.at then p.at[app] else 0.0
  }

  predicate Lower(p: Dict<AppName, real>, a: AppName, b: AppName) { ProfileOf(p, a) <= ProfileOf(p, b) }

  /** Applications by increasing profile, first listed first among equals. */
  function SortedProfile(p: Dict<AppName, real>): (r: seq<AppName>)
    ensures |r| == |p.keys| && multiset(r) == multiset(p.keys)
  {
    Sorted(p.keys, (a: AppName, b: AppName) => Lower(p, a, b))
  }

  /** A target of zero counts as no target: then only the application of lowest profile is for PMEM. */
  function AppNodeType(p: Dict<AppName, real>, app: AppName, target: Option<real>): NodeType {
    if |p.keys| > MIN_APP_PROFILES then
      if target.Some? && target.value != 0.0 then
        if app in p.at && p.at[app] <= target.value then PMEM else DRAM
      else if app == SortedProfile(p)[0] then PMEM else DRAM
    else DRAM
  }

  function AppType(c: Cluster, app: AppName): NodeType { AppNodeType(c.profile, app, c.scoreTarget) }

  function TypeOf(c: Cluster, node: NodeName): NodeType {
    if node in c.nodesType then c.nodesType[node] else UNKNOWN
  }

  /** An application for PMEM has a profile, so the loop over sorted profiles meets it. */
  lemma PmemAppsAreProfiled(c: Cluster, app: AppName)
    requires c.profile.Valid() && AppType(c, app) == PMEM
    ensures app in c.profile.keys
  {
    if !(c.scoreTarget.Some? && c.scoreTarget.value != 0.0) {
      assert SortedProfile(c.profile)[0] in multiset(SortedProfile(c.profile));
    }
  }

  predicate RunsOn(c: Cluster, node: NodeName, app: AppName) {
    node in c.appsOnNode.at && app in c.appsOnNode.at[node].at
  }

  function TasksOf(c: Cluster, node: NodeName, app: AppName): seq<TaskName> {
    if RunsOn(c, node, app) then c.appsOnNode.at[node].at[app] else []
  }

  /** `app` runs on a node of type `kind` without belonging there: it leaves a PMEM node, and is
      considered for PMEM when on a DRAM node. */
  predicate Wrong(c: Cluster, kind: NodeType, node: NodeName, app: AppName) {
    RunsOn(c, node, app) && TypeOf(c, node) == kind && AppType(c, app) != kind
  }

  ghost predicate Listed(c: Cluster) {
    c.appsOnNode.Valid() && forall n :: n in c.appsOnNode.at ==> c.appsOnNode.at[n].Valid()
  }

  ghost predicate WellFormed(c: Cluster) {
    && Listed(c) && c.profile.Valid()
    && (forall n, a :: RunsOn(c, n, a) ==> a in c.spec)
    && (forall a :: a in c.spec ==> c.spec[a].Keys == c.dims && NonNegative(c.spec[a]))
    && (forall n :: n in c.appsOnNode.at && TypeOf(c, n) == PMEM ==>
          n in c.capacities && c.capacities[n].Keys == c.dims && Capacity(c.capacities[n]))
  }

  // ----- Collecting the moves -----

  type Moves = Dict<AppName, Dict<NodeName, seq<TaskName>>>

  function NodesFor(m: Moves, a: AppName): Dict<NodeName, seq<TaskName>> {
    if a in m.at then m.at[a] else EmptyDict()
  }

  function Recorded(m: Moves, n: NodeName, a: AppName, tasks: seq<TaskName>): Moves {
    m.Put(a, NodesFor(m, a).Put(n, tasks))
  }

  predicate Has(m: Moves, n: NodeName, a: AppName) { n in NodesFor(m, a).at }

  ghost predicate AllValid(m: Moves) {
    m.Valid() && forall i :: 0 <= i < |m.keys| ==> NodesFor(m, m.keys[i]).Valid() && NodesFor(m, m.keys[i]).keys != []
  }

  /** Records `app` on `node` if it is wrongly placed on a node of that kind. */
  function WithPair(c: Cluster, m: Moves, kind: NodeType, node: NodeName, app: AppName): Moves {
    if Wrong(c, kind, node, app) then Recorded(m, node, app, TasksOf(c, node, app)) else m
  }

  function AppsOf(c: Cluster, node: NodeName): seq<AppName> {
    if node in c.appsOnNode.at then c.appsOnNode.at[node].keys else []
  }

  /** The same for the first `k` applications of a node. */
  function WithApps(c: Cluster, m: Moves, kind: NodeType, node: NodeName, k: nat): Moves
    requires k <= |AppsOf(c, node)|
  {
    if k == 0 then m else WithPair(c, WithApps(c, m, kind, node, k - 1), kind, node, AppsOf(c, node)[k - 1])
  }

  /** The moves away from (PMEM) or considered from (DRAM) the first `k` nodes. */
  function MovesOf(c: Cluster, kind: NodeType, k: nat): Moves
    requires k <= |c.appsOnNode.keys|
  {
    if k == 0 then EmptyDict()
    else
      var node := c.appsOnNode.keys[k - 1];
      WithApps(c, MovesOf(c, kind, k - 1), kind, node, |AppsOf(c, node)|)
  }

  function AllMoves(c: Cluster, kind: NodeType): Moves { MovesOf(c, kind, |c.appsOnNode.keys|) }

  /** The body of the two nested loops of `reschedule`. */
  method RecordPair(c: Cluster, reschedule: Moves, consider: Moves, node: NodeName, app: AppName)
    returns (reschedule': Moves, consider': Moves)
    requires RunsOn(c, node, app)
    ensures reschedule' == WithPair(c, reschedule, PMEM, node, app)
    ensures consider' == WithPair(c, consider, DRAM, node, app)
  {
    reschedule', consider' := reschedule, consider;
    if AppType(c, app) != TypeOf(c, node) {
      if TypeOf(c, node) == PMEM {
        reschedule' := Recorded(reschedule, node, app, c.appsOnNode.at[node].at[app]);
      } else if TypeOf(c, node) == DRAM {
        consider' := Recorded(consider, node, app, c.appsOnNode.at[node].at[app]);
      }
    }
  }

  method FindMovesOn(c: Cluster, node: NodeName, reschedule: Moves, consider: Moves)
    returns (reschedule': Moves, consider': Moves)
    requires Listed(c) && node in c.appsOnNode.at
    ensures reschedule' == WithApps(c, reschedule, PMEM, node, |AppsOf(c, node)|)
    ensures consider' == WithApps(c, consider, DRAM, node, |AppsOf(c, node)|)
  {
    hide WithPair;
    reschedule', consider' := reschedule, consider;
    var apps := c.appsOnNode.at[node].keys;
    for j := 0 to |apps|
      invariant reschedule' == WithApps(c, reschedule, PMEM, node, j)
      invariant consider' == WithApps(c, consider, DRAM, node, j)
    {
      assert apps[j] in apps;
      reschedule', consider' := RecordPair(c, reschedule', consider', node, apps[j]);
    }
  }

  method FindMoves(c: Cluster) returns (reschedule: Moves, consider: Moves)
    requires Listed(c)
    ensures reschedule == AllMoves(c, PMEM) && consider == AllMoves(c, DRAM)
  {
    hide WithApps;
    hide AppsOf;
    reschedule, consider := EmptyDict(), EmptyDict();
    for i := 0 to |c.appsOnNode.keys|
      invariant reschedule == MovesOf(c, PMEM, i) && consider == MovesOf(c, DRAM, i)
    {
      assert c.appsOnNode.keys[i] in c.appsOnNode.keys;
      reschedule, consider := FindMovesOn(c, c.appsOnNode.keys[i], reschedule, consider);
    }
  }

  lemma RecordedIsValid(m: Moves, n: NodeName, a: AppName, tasks: seq<TaskName>)
    requires AllValid(m)
    ensures AllValid(Recorded(m, n, a, tasks))
  {
    if a in m.at { assert a in m.keys; }
    assert NodesFor(m, a).Valid();
  }

  lemma RecordedHas(m: Moves, n: NodeName, a: AppName, tasks: seq<TaskName>, n': NodeName, a': AppName)
    ensures Has(Recorded(m, n, a, tasks), n', a') <==> (n' == n && a' == a) || Has(m, n', a')
    ensures Has(Recorded(m, n, a, tasks), n', a') ==>
      NodesFor(Recorded(m, n, a, tasks), a').at[n'] == if n' == n && a' == a then tasks else NodesFor(m, a').at[n']
  {
  }

  lemma {:induction false} WithAppsHas(c: Cluster, m: Moves, kind: NodeType, node: NodeName, k: nat, n: NodeName, a: AppName)
    requires AllValid(m) && (Has(m, n, a) ==> NodesFor(m, a).at[n] == TasksOf(c, n, a)) && k <= |AppsOf(c, node)|
    ensures AllValid(WithApps(c, m, kind, node, k))
    ensures Has(WithApps(c, m, kind, node, k), n, a) <==> Has(m, n, a) || (n == node && a in AppsOf(c, node)[..k] && Wrong(c, kind, n, a))
    ensures Has(WithApps(c, m, kind, node, k), n, a) ==> NodesFor(WithApps(c, m, kind, node, k), a).at[n] == TasksOf(c, n, a)
  {
    hide Recorded;
    hide AllValid;
    hide Wrong;
    hide NodesFor;
    if k > 0 {
      var last := AppsOf(c, node)[k - 1];
      WithAppsHas(c, m, kind, node, k - 1, n, a);
      RecordedIsValid(WithApps(c, m, kind, node, k - 1), node, last, TasksOf(c, node, last));
      RecordedHas(WithApps(c, m, kind, node, k - 1), node, last, TasksOf(c, node, last), n, a);
      assert a in AppsOf(c, node)[..k] <==> a in AppsOf(c, node)[..k - 1] || a == last;
    }
  }

  lemma WithAllAppsHas(c: Cluster, m: Moves, kind: NodeType, node: NodeName, n: NodeName, a: AppName)
    requires Listed(c) && AllValid(m) && (Has(m, n, a) ==> NodesFor(m, a).at[n] == TasksOf(c, n, a))
    ensures var m' := WithApps(c, m, kind, node, |AppsOf(c, node)|);
            && AllValid(m')
            && (Has(m', n, a) <==> Has(m, n, a) || (n == node && Wrong(c, kind, n, a)))
            && (Has(m', n, a) ==> NodesFor(m', a).at[n] == TasksOf(c, n, a))
  {
    WithAppsHas(c, m, kind, node, |AppsOf(c, node)|, n, a);
    assert AppsOf(c, node)[..|AppsOf(c, node)|] == AppsOf(c, node);
    RunsOnIsListed(c, node, a);
  }

  predicate AmongFirst(nodes: seq<NodeName>, k: nat, n: NodeName)
    requires k <= |nodes|
  {
    k > 0 && (nodes[k - 1] == n || AmongFirst(nodes, k - 1, n))
  }

  lemma {:induction false} AmongFirstIsListed(nodes: seq<NodeName>, k: nat, i: nat)
    requires i < k <= |nodes|
    ensures AmongFirst(nodes, k, nodes[i])
  {
    if i < k - 1 {
      AmongFirstIsListed(nodes, k - 1, i);
    }
  }

  lemma {:induction false} MovesOfHas(c: Cluster, kind: NodeType, k: nat, n: NodeName, a: AppName)
    requires Listed(c) && k <= |c.appsOnNode.keys|
    ensures AllValid(MovesOf(c, kind, k))
    ensures Has(MovesOf(c, kind, k), n, a) <==> AmongFirst(c.appsOnNode.keys, k, n) && Wrong(c, kind, n, a)
    ensures Has(MovesOf(c, kind, k), n, a) ==> NodesFor(MovesOf(c, kind, k), a).at[n] == TasksOf(c, n, a)
  {
    hide Wrong;
    hide WithApps;
    hide AllValid;
    hide NodesFor;
    if k > 0 {
      MovesOfHas(c, kind, k - 1, n, a);
      WithAllAppsHas(c, MovesOf(c, kind, k - 1), kind, c.appsOnNode.keys[k - 1], n, a);
    } else {
      NothingMoved(n, a);
    }
  }

  lemma NothingMoved(n: NodeName, a: AppName)
    ensures AllValid(EmptyDict()) && !Has(EmptyDict(), n, a)
  {
  }

  lemma RunsOnIsListed(c: Cluster, n: NodeName, a: AppName)
    requires Listed(c)
    ensures RunsOn(c, n, a) ==> n in c.appsOnNode.keys && a in AppsOf(c, n)
  {
  }

  /** The moves hold exactly the wrongly placed applications, with all their tasks. */
  lemma AllMovesHas(c: Cluster, kind: NodeType, n: NodeName, a: AppName)
    requires WellFormed(c)
    ensures AllValid(AllMoves(c, kind))
    ensures Has(AllMoves(c, kind), n, a) <==> Wrong(c, kind, n, a)
    ensures Has(AllMoves(c, kind), n, a) ==> NodesFor(AllMoves(c, kind), a).at[n] == TasksOf(c, n, a)
  {
    var nodes := c.appsOnNode.keys;
    MovesOfHas(c, kind, |nodes|, n, a);
    RunsOnIsListed(c, n, a);
    if n in nodes {
      var i :| 0 <= i < |nodes| && nodes[i] == n;
      AmongFirstIsListed(nodes, |nodes|, i);
    }
  }

  // ----- The order of the work -----

  function Gathered(nodes: Dict<NodeName, seq<TaskName>>, k: nat): seq<TaskName>
    requires k <= |nodes.keys|
  {
    if k == 0 then []
    else Gathered(nodes, k - 1) + if nodes.keys[k - 1] in nodes.at then nodes.at[nodes.keys[k - 1]] else []
  }

  /** The considered tasks of one application, oldest name first. */
  function SortedTasks(m: Moves, a: AppName): seq<TaskName> {
    Sorted(Gathered(NodesFor(m, a), |NodesFor(m, a).keys|), StringLeq)
  }

  function ItemsOf(a: AppName, tasks: seq<TaskName>): (r: seq<Item>)
    ensures |r| == |tasks| && forall i :: 0 <= i < |r| ==> r[i] == Item(a, tasks[i])
  {
    seq(|tasks|, i requires 0 <= i < |tasks| => Item(a, tasks[i]))
  }

  /** The considered tasks in the order they are packed: applications by profile, then tasks by name. */
  function ItemsFrom(m: Moves, apps: seq<AppName>): seq<Item> {
    if apps == [] then []
    else ItemsFrom(m, apps[..|apps| - 1]) + ItemsOf(apps[|apps| - 1], SortedTasks(m, apps[|apps| - 1]))
  }

  function Items(c: Cluster): seq<Item> { ItemsFrom(AllMoves(c, DRAM), SortedProfile(c.profile)) }

  lemma {:induction false} GatheredHas(nodes: Dict<NodeName, seq<TaskName>>, k: nat, t: TaskName)
    requires nodes.Valid() && k <= |nodes.keys|
    ensures t in Gathered(nodes, k) <==> exists i :: 0 <= i < k && t in nodes.at[nodes.keys[i]]
  {
    if k > 0 {
      GatheredHas(nodes, k - 1, t);
    }
  }

  lemma MovedNodesAreValid(c: Cluster, kind: NodeType, a: AppName)
    requires WellFormed(c)
    ensures NodesFor(AllMoves(c, kind), a).Valid()
  {
    var m := AllMoves(c, kind);
    AllMovesHas(c, kind, "", a);
    if a in m.at { assert a in m.keys; }
  }

  lemma SortedHas(s: seq<TaskName>, t: TaskName)
    ensures t in Sorted(s, StringLeq) <==> t in s
  {
    assert t in s <==> t in multiset(s);
    assert t in Sorted(s, StringLeq) <==> t in multiset(Sorted(s, StringLeq));
  }

  lemma SortedTasksHas(c: Cluster, a: AppName, t: TaskName)
    requires WellFormed(c)
    ensures t in SortedTasks(AllMoves(c, DRAM), a) <==> exists n :: Wrong(c, DRAM, n, a) && t in TasksOf(c, n, a)
  {
    var nodes := NodesFor(AllMoves(c, DRAM), a);
    MovedNodesAreValid(c, DRAM, a);
    SortedHas(Gathered(nodes, |nodes.keys|), t);
    GatheredHas(nodes, |nodes.keys|, t);
    forall n ensures (n in nodes.at <==> Wrong(c, DRAM, n, a)) && (n in nodes.at ==> nodes.at[n] == TasksOf(c, n, a)) {
      AllMovesHas(c, DRAM, n, a);
    }
  }

  lemma {:induction false} ItemsFromHas(m: Moves, apps: seq<AppName>, item: Item)
    ensures item in ItemsFrom(m, apps) <==> item.app in apps && item.task in SortedTasks(m, item.app)
  {
    if apps != [] {
      var init, last := apps[..|apps| - 1], apps[|apps| - 1];
      ItemsFromHas(m, init, item);
      assert item.app in apps <==> item.app in init || item.app == last;
      var own := ItemsOf(last, SortedTasks(m, last));
      if item.app == last && item.task in SortedTasks(m, last) {
        var i :| 0 <= i < |own| && SortedTasks(m, last)[i] == item.task;
        assert own[i] == item;
      }
    }
  }

  /** What is packed is exactly what runs on DRAM although it belongs on PMEM. */
  lemma ItemsAreConsidered(c: Cluster, item: Item)
    requires WellFormed(c)
    ensures item in Items(c) <==> exists n :: Wrong(c, DRAM, n, item.app) && item.task in TasksOf(c, n, item.app)
  {
    ItemsFromHas(AllMoves(c, DRAM), SortedProfile(c.profile), item);
    SortedTasksHas(c, item.app, item.task);
    if exists n :: Wrong(c, DRAM, n, item.app) && item.task in TasksOf(c, n, item.app) {
      PmemAppsAreProfiled(c, item.app);
      assert item.app in multiset(c.profile.keys);
      assert item.app in SortedProfile(c.profile);
    }
  }

  // ----- Usage of the PMEM nodes -----

  type Pair = (NodeName, AppName)

  /** How many tasks an application counts for on `n` once the pairs in `gone` are freed. */
  function CountsWithout(c: Cluster, n: NodeName, gone: set<Pair>): map<AppName, nat> {
    if n in c.appsOnNode.at then
      map a | a in c.appsOnNode.at[n].at :: if (n, a) in gone then 0 else |c.appsOnNode.at[n].at[a]|
    else map[]
  }

  function NodeUsageWithout(c: Cluster, n: NodeName, gone: set<Pair>): Vector {
    map d | d in c.dims :: UsedIn(AppsOf(c, n), CountsWithout(c, n, gone), c.spec, d)
  }

  function UsageWithout(c: Cluster, gone: set<Pair>): Usage {
    map n | n in c.appsOnNode.at && TypeOf(c, n) == PMEM :: NodeUsageWithout(c, n, gone)
  }

  function Misplaced(c: Cluster): set<Pair> {
    set n, a | n in c.appsOnNode.at && a in c.appsOnNode.at[n].at && Wrong(c, PMEM, n, a) :: (n, a)
  }

  /** Usage of the PMEM nodes by the applications that belong there. */
  function KeptUsage(c: Cluster): Usage { UsageWithout(c, Misplaced(c)) }

  /** Dropping an application frees its specification once for every task. */
  lemma {:induction false} UsedInZeroed(apps: seq<AppName>, counts: map<AppName, nat>, spec: map<AppName, Vector>,
                                        d: ResourceType, k: nat)
    requires NoDup(apps) && k < |apps| && forall i :: 0 <= i < |apps| ==> apps[i] in counts
    ensures UsedIn(apps, counts[apps[k] := 0], spec, d)
         == UsedIn(apps, counts, spec, d) - Times(Need(spec, apps[k], d), counts[apps[k]])
  {
    var init := apps[..|apps| - 1];
    if k == |apps| - 1 {
      UsedInOtherCounts(init, counts[apps[k] := 0], counts, spec, d);
    } else {
      UsedInZeroed(init, counts, spec, d, k);
    }
  }

  lemma FreedUsage(c: Cluster, gone: set<Pair>, n: NodeName, a: AppName, d: ResourceType)
    requires Listed(c) && RunsOn(c, n, a) && (n, a) !in gone && d in c.dims
    ensures NodeUsageWithout(c, n, gone + {(n, a)})[d]
         == NodeUsageWithout(c, n, gone)[d] - Times(Need(c.spec, a, d), |TasksOf(c, n, a)|)
  {
    var counts := CountsWithout(c, n, gone);
    assert CountsWithout(c, n, gone + {(n, a)}) == counts[a := 0];
    var k :| 0 <= k < |AppsOf(c, n)| && AppsOf(c, n)[k] == a;
    UsedInZeroed(AppsOf(c, n), counts, c.spec, d, k);
  }

  lemma OtherNodesKeepTheirUsage(c: Cluster, gone: set<Pair>, n: NodeName, a: AppName, n': NodeName)
    requires n' != n
    ensures NodeUsageWithout(c, n', gone + {(n, a)}) == NodeUsageWithout(c, n', gone)
  {
    assert CountsWithout(c, n', gone + {(n, a)}) == CountsWithout(c, n', gone);
  }

  lemma FreedNode(c: Cluster, gone: set<Pair>, n: NodeName, a: AppName, v: Vector)
    requires Listed(c) && RunsOn(c, n, a) && (n, a) !in gone && v.Keys == c.dims
    requires forall d :: d in c.dims ==> v[d] == NodeUsageWithout(c, n, gone)[d] - Times(Need(c.spec, a, d), |TasksOf(c, n, a)|)
    ensures v == NodeUsageWithout(c, n, gone + {(n, a)})
  {
    forall d | d in c.dims ensures v[d] == NodeUsageWithout(c, n, gone + {(n, a)})[d] {
      FreedUsage(c, gone, n, a, d);
    }
  }

  lemma FreedCluster(c: Cluster, gone: set<Pair>, n: NodeName, a: AppName)
    requires n in UsageWithout(c, gone)
    ensures UsageWithout(c, gone + {(n, a)}) == UsageWithout(c, gone)[n := NodeUsageWithout(c, n, gone + {(n, a)})]
  {
    forall n' | n' in UsageWithout(c, gone) && n' != n
      ensures NodeUsageWithout(c, n', gone + {(n, a)}) == NodeUsageWithout(c, n', gone)
    {
      OtherNodesKeepTheirUsage(c, gone, n, a, n');
    }
  }

  /** The innermost loop that frees PMEM resources: one subtraction and one report per task. */
  method FreeTasks(used: Vector, spec: Vector, tasks: seq<TaskName>) returns (used': Vector, reports: seq<TaskName>)
    requires used.Keys == spec.Keys
    ensures used'.Keys == used.Keys && reports == tasks
    ensures forall d :: d in used ==> used'[d] == used[d] - Times(spec[d], |tasks|)
  {
    used', reports := used, [];
    for i := 0 to |tasks|
      invariant used'.Keys == used.Keys && reports == tasks[..i]
      invariant forall d :: d in used ==> used'[d] == used[d] - Times(spec[d], i)
    {
      ghost var before := used';
      used' := SubtractResources(used', spec, None);
      reports := reports + [tasks[i]];
      assert forall d :: d in used ==> used'[d] == before[d] - spec[d];
    }
  }

  method FreePair(c: Cluster, used: Usage, n: NodeName, a: AppName, ghost gone: set<Pair>)
    returns (used': Usage, reports: seq<TaskName>)
    requires Listed(c) && Wrong(c, PMEM, n, a) && (n, a) !in gone && used == UsageWithout(c, gone)
    requires a in c.spec && c.spec[a].Keys == c.dims
    ensures used' == UsageWithout(c, gone + {(n, a)}) && reports == TasksOf(c, n, a)
  {
    assert used[n] == NodeUsageWithout(c, n, gone);
    var v;
    v, reports := FreeTasks(used[n], c.spec[a], TasksOf(c, n, a));
    used' := used[n := v];
    FreedNode(c, gone, n, a, v);
    FreedCluster(c, gone, n, a);
  }

  ghost predicate Reported(c: Cluster, gone: set<Pair>, t: TaskName) {
    exists p :: p in gone && t in TasksOf(c, p.0, p.1)
  }

  ghost predicate ReportsOf(c: Cluster, gone: set<Pair>, reports: seq<TaskName>) {
    forall t :: t in reports <==> Reported(c, gone, t)
  }

  lemma MoreReports(c: Cluster, gone: set<Pair>, reports: seq<TaskName>, p: Pair)
    requires ReportsOf(c, gone, reports)
    ensures ReportsOf(c, gone + {p}, reports + TasksOf(c, p.0, p.1))
  {
    forall t ensures t in reports + TasksOf(c, p.0, p.1) <==> Reported(c, gone + {p}, t) {
      if t in reports {
        var q :| q in gone && t in TasksOf(c, q.0, q.1);
        assert q in gone + {p};
      }
      if t in TasksOf(c, p.0, p.1) {
        assert p in gone + {p};
      }
    }
  }

  function PairsOf(a: AppName, nodes: seq<NodeName>): set<Pair> {
    set i | 0 <= i < |nodes| :: (nodes[i], a)
  }

  /** Frees one application on every node it has to leave. */
  method FreeApp(c: Cluster, used: Usage, a: AppName, nodes: seq<NodeName>, ghost gone: set<Pair>, reports: seq<TaskName>)
    returns (used': Usage, reports': seq<TaskName>)
    requires Listed(c) && used == UsageWithout(c, gone) && ReportsOf(c, gone, reports)
    requires a in c.spec && c.spec[a].Keys == c.dims
    requires NoDup(nodes) && forall j :: 0 <= j < |nodes| ==> Wrong(c, PMEM, nodes[j], a) && (nodes[j], a) !in gone
    ensures used' == UsageWithout(c, gone + PairsOf(a, nodes)) && ReportsOf(c, gone + PairsOf(a, nodes), reports')
  {
    used', reports' := used, reports;
    ghost var all := gone;
    for j := 0 to |nodes|
      invariant all == gone + PairsOf(a, nodes[..j])
      invariant used' == UsageWithout(c, all) && ReportsOf(c, all, reports')
    {
      var freed;
      assert (nodes[j], a) !in all;
      used', freed := FreePair(c, used', nodes[j], a, all);
      MoreReports(c, all, reports', (nodes[j], a));
      reports' := reports' + freed;
      assert PairsOf(a, nodes[..j + 1]) == PairsOf(a, nodes[..j]) + {(nodes[j], a)};
      all := all + {(nodes[j], a)};
    }
    assert nodes[..|nodes|] == nodes;
  }

  function PairsIn(m: Moves, k: nat): set<Pair>
    requires k <= |m.keys|
  {
    if k == 0 then {} else PairsIn(m, k - 1) + PairsOf(m.keys[k - 1], NodesFor(m, m.keys[k - 1]).keys)
  }

  lemma {:induction false} PairsInAre(m: Moves, k: nat, n: NodeName, a: AppName)
    requires AllValid(m) && k <= |m.keys|
    ensures (n, a) in PairsIn(m, k) <==> a in m.keys[..k] && Has(m, n, a)
  {
    if k > 0 {
      PairsInAre(m, k - 1, n, a);
      assert a in m.keys[..k] <==> a in m.keys[..k - 1] || a == m.keys[k - 1];
      assert NodesFor(m, m.keys[k - 1]).Valid();
    }
  }

  /** All recorded pairs together are the misplaced ones. */
  lemma AllPairsAreMisplaced(c: Cluster)
    requires WellFormed(c)
    ensures PairsIn(AllMoves(c, PMEM), |AllMoves(c, PMEM).keys|) == Misplaced(c)
  {
    var m := AllMoves(c, PMEM);
    AllMovesHas(c, PMEM, "", "");
    assert m.keys[..|m.keys|] == m.keys;
    forall p: Pair ensures p in PairsIn(m, |m.keys|) <==> p in Misplaced(c) {
      PairsInAre(m, |m.keys|, p.0, p.1);
      AllMovesHas(c, PMEM, p.0, p.1);
      assert p == (p.0, p.1);
    }
  }

  lemma NextAppIsUnseen(c: Cluster, k: nat)
    requires WellFormed(c) && k < |AllMoves(c, PMEM).keys|
    ensures var m := AllMoves(c, PMEM);
            var a := m.keys[k];
            var nodes := NodesFor(m, a).keys;
            && NoDup(nodes) && a in c.spec && c.spec[a].Keys == c.dims
            && forall j :: 0 <= j < |nodes| ==> Wrong(c, PMEM, nodes[j], a) && (nodes[j], a) !in PairsIn(m, k)
  {
    var m := AllMoves(c, PMEM);
    var a := m.keys[k];
    var nodes := NodesFor(m, a).keys;
    AllMovesHas(c, PMEM, "", a);
    assert NodesFor(m, a).Valid() && nodes != [];
    forall j | 0 <= j < |nodes| ensures Wrong(c, PMEM, nodes[j], a) && (nodes[j], a) !in PairsIn(m, k) {
      assert nodes[j] in NodesFor(m, a).at;
      AllMovesHas(c, PMEM, nodes[j], a);
      PairsInAre(m, k, nodes[j], a);
    }
    assert Wrong(c, PMEM, nodes[0], a);
  }

  method FreeNext(c: Cluster, used: Usage, m: Moves, k: nat, reports: seq<TaskName>)
    returns (used': Usage, reports': seq<TaskName>)
    requires WellFormed(c) && m == AllMoves(c, PMEM) && k < |m.keys|
    requires used == UsageWithout(c, PairsIn(m, k)) && ReportsOf(c, PairsIn(m, k), reports)
    ensures used' == UsageWithout(c, PairsIn(m, k + 1)) && ReportsOf(c, PairsIn(m, k + 1), reports')
  {
    NextAppIsUnseen(c, k);
    var nodes := NodesFor(m, m.keys[k]).keys;
    used', reports' := FreeApp(c, used, m.keys[k], nodes, PairsIn(m, k), reports);
    assert PairsIn(m, k + 1) == PairsIn(m, k) + PairsOf(m.keys[k], nodes);
  }

  /** Frees the PMEM nodes of everything that does not belong there. */
  method FreePmem(c: Cluster, used: Usage, reschedule: Moves) returns (used': Usage, reports: seq<TaskName>)
    requires WellFormed(c) && used == UsageWithout(c, {}) && reschedule == AllMoves(c, PMEM)
    ensures used' == KeptUsage(c) && ReportsOf(c, Misplaced(c), reports)
  {
    used', reports := used, [];
    for k := 0 to |reschedule.keys|
      invariant used' == UsageWithout(c, PairsIn(reschedule, k)) && ReportsOf(c, PairsIn(reschedule, k), reports)
    {
      used', reports := FreeNext(c, used', reschedule, k, reports);
    }
    AllPairsAreMisplaced(c);
  }

  // ----- Packing the considered tasks -----

  function PmemNodes(c: Cluster, names: seq<NodeName>): seq<NodeName> {
    if names == [] then []
    else PmemNodes(c, names[..|names| - 1]) + if TypeOf(c, names[|names| - 1]) == PMEM then [names[|names| - 1]] else []
  }

  lemma {:induction false} PmemNodesAre(c: Cluster, names: seq<NodeName>, n: NodeName)
    ensures n in PmemNodes(c, names) <==> n in names && TypeOf(c, n) == PMEM
  {
    if names != [] {
      PmemNodesAre(c, names[..|names| - 1], n);
      assert n in names <==> n in names[..|names| - 1] || n == names[|names| - 1];
    }
  }

  lemma {:induction false} PmemNodesAreDistinct(c: Cluster, names: seq<NodeName>)
    requires NoDup(names)
    ensures NoDup(PmemNodes(c, names))
  {
    if names != [] {
      var init := names[..|names| - 1];
      PmemNodesAreDistinct(c, init);
      PmemNodesAre(c, init, names[|names| - 1]);
    }
  }

  /** The packing problem the loop works on: the PMEM nodes with what they keep, each limited by its
      capacities with the memory bandwidth coupled. */
  function ProblemOf(c: Cluster): Problem {
    Problem(KeptUsage(c), PmemNodes(c, c.appsOnNode.keys), c.spec, c.dims,
            (n: NodeName, v: Vector) =>
              n in c.capacities && Capacity(c.capacities[n]) && v.Keys == c.capacities[n].Keys && Fits(c.capacities[n], v))
  }

  lemma ProblemIsWellFormed(c: Cluster)
    requires WellFormed(c)
    ensures Packing.WellFormed(ProblemOf(c)) && Monotone(ProblemOf(c)) && NoDup(ProblemOf(c).order)
  {
    var p := ProblemOf(c);
    PmemNodesAreDistinct(c, c.appsOnNode.keys);
    forall n ensures n in p.order <==> n in p.base {
      PmemNodesAre(c, c.appsOnNode.keys, n);
    }
    forall i | 0 <= i < |p.order| ensures p.order[i] in p.base {
      assert p.order[i] in p.order;
    }
    forall n, less, more | p.fits(n, more) && AtMost(less, more) ensures p.fits(n, less) {
      FitsIsMonotone(c.capacities[n], less, more);
    }
  }

  /** `enough_resources_on_node` decides what the packing problem calls fitting. */
  method TryNode(c: Cluster, node: NodeName, used: Vector, app: AppName) returns (enough: bool, requestedAndUsed: Vector)
    requires WellFormed(c) && node in KeptUsage(c) && app in c.spec && used.Keys == c.dims
    ensures requestedAndUsed == SumResources(used, c.spec[app])
    ensures enough == ProblemOf(c).fits(node, requestedAndUsed)
  {
    var capacity := c.capacities[node];
    requestedAndUsed := SumResources(used, c.spec[app]);
    var broken, free;
    enough, broken, free := EnoughResourcesOnNode(capacity, requestedAndUsed, ReadWriteRatio(capacity));
  }

  lemma OrderIsKept(c: Cluster)
    requires WellFormed(c)
    ensures NoDup(ProblemOf(c).order) && forall n :: n in ProblemOf(c).order <==> n in KeptUsage(c)
  {
    PmemNodesAreDistinct(c, c.appsOnNode.keys);
    forall n ensures n in ProblemOf(c).order <==> n in KeptUsage(c) {
      PmemNodesAre(c, c.appsOnNode.keys, n);
    }
  }

  lemma TryingIsFitting(c: Cluster, used: Usage, app: AppName, node: NodeName, sum: Vector)
    requires WellFormed(c) && app in c.spec && node in used && used[node].Keys == c.dims
    ensures c.spec[app].Keys == c.dims
    ensures sum == SumResources(used[node], c.spec[app]) ==>
      FitsOn(ProblemOf(c), used, app, node) == ProblemOf(c).fits(node, sum)
  {
    assert c.spec[app].Keys == c.dims;
    hide WellFormed;
  }

  /** The innermost loop: one task tried on every PMEM node, charged and reported on each where it fits. */
  method PackTask(c: Cluster, used: Usage, item: Item) returns (used': Usage, reports: seq<TaskName>)
    requires WellFormed(c) && item.app in c.spec
    requires used.Keys == KeptUsage(c).Keys && forall n :: n in used ==> used[n].Keys == c.dims
    ensures used' == Charged(ProblemOf(c), used, item.app)
    ensures reports == Reports(ProblemOf(c), used, item, ProblemOf(c).order)
  {
    hide KeptUsage;
    hide WellFormed;
    hide Charged;
    hide FitsOn;
    ghost var p := ProblemOf(c);
    var order := PmemNodes(c, c.appsOnNode.keys);
    OrderIsKept(c);
    used', reports := used, [];
    for j := 0 to |order|
      invariant used' == ChargedFirst(p, used, item.app, j) && reports == Reports(p, used, item, order[..j])
    {
      var node := order[j];
      assert node in order;
      ChargedFirstAt(p, used, item.app, j, j);
      assert order[..j + 1][..j] == order[..j];
      var enough, requestedAndUsed := TryNode(c, node, used[node], item.app);
      assert enough == FitsOn(p, used, item.app, node) by {
        TryingIsFitting(c, used, item.app, node, requestedAndUsed);
      }
      if enough {
        reports := reports + [item.task];
        used' := used'[node := requestedAndUsed];
      }
    }
    assert order[..|order|] == order;
    ChargedFirstAll(p, used, item.app);
  }

  /** The loop over the considered tasks. */
  method PackAll(c: Cluster, base: Usage, items: seq<Item>) returns (used: Usage, reports: seq<TaskName>)
    requires WellFormed(c) && base == KeptUsage(c)
    requires forall i :: 0 <= i < |items| ==> items[i].app in c.spec
    ensures used == UsageAfter(ProblemOf(c), items, |items|) && reports == AllReports(ProblemOf(c), items, |items|)
  {
    hide KeptUsage;
    ProblemIsWellFormed(c);
    used, reports := base, [];
    for k := 0 to |items|
      invariant used == UsageAfter(ProblemOf(c), items, k) && reports == AllReports(ProblemOf(c), items, k)
    {
      UsageIsTracked(ProblemOf(c), items, k);
      var more;
      used, more := PackTask(c, used, items[k]);
      reports := reports + more;
    }
  }

  /** `get_nodes_used_resources` for the PMEM nodes. */
  method UsedOnPmemNodes(c: Cluster) returns (used: Usage)
    requires WellFormed(c)
    ensures used == UsageWithout(c, {})
  {
    used := map[];
    ghost var seen: set<NodeName> := {};
    for i := 0 to |c.appsOnNode.keys|
      invariant forall n :: n in seen <==> n in c.appsOnNode.keys[..i]
      invariant forall n :: n in used <==> n in seen && TypeOf(c, n) == PMEM
      invariant forall n :: n in used ==> used[n] == NodeUsageWithout(c, n, {})
    {
      var n := c.appsOnNode.keys[i];
      assert n in c.appsOnNode.keys;
      if TypeOf(c, n) == PMEM {
        var v := UsedOnNode(c, n);
        used := used[n := v];
      }
      seen := seen + {n};
    }
    assert c.appsOnNode.keys[..|c.appsOnNode.keys|] == c.appsOnNode.keys;
  }

  method UsedOnNode(c: Cluster, n: NodeName) returns (used: Vector)
    requires WellFormed(c) && n in c.appsOnNode.at
    ensures used == NodeUsageWithout(c, n, {})
  {
    var apps := c.appsOnNode.at[n];
    var counts := Dict(apps.keys, map a | a in apps.at :: |apps.at[a]|);
    assert counts.at == CountsWithout(c, n, {});
    forall i | 0 <= i < |counts.keys| ensures counts.keys[i] in c.spec {
      assert counts.keys[i] in apps.keys && RunsOn(c, n, counts.keys[i]);
    }
    used := UsedResourcesOnNode(c.dims, counts, c.spec);
  }

  lemma ItemsAreSpecified(c: Cluster, i: nat)
    requires WellFormed(c) && i < |Items(c)|
    ensures Items(c)[i].app in c.spec && c.spec[Items(c)[i].app].Keys == c.dims
  {
    assert Items(c)[i] in Items(c);
    ItemsAreConsidered(c, Items(c)[i]);
  }

  /** The tasks to take off their nodes: everything misplaced on PMEM, then, once for every node that
      had room, the tasks that could go to PMEM; nothing at all when no task is considered for PMEM. */
  method Reschedule(c: Cluster) returns (result: seq<TaskName>)
    requires WellFormed(c)
    ensures AllMoves(c, DRAM).keys == [] ==> result == []
    ensures AllMoves(c, DRAM).keys != [] ==>
      exists freed :: ReportsOf(c, Misplaced(c), freed) && result == freed + AllReports(ProblemOf(c), Items(c), |Items(c)|)
  {
    var reschedule, consider := FindMoves(c);
    if |consider.keys| <= 0 {
      return [];
    }
    var used := UsedOnPmemNodes(c);
    var freed;
    used, freed := FreePmem(c, used, reschedule);
    var items := ItemsFrom(consider, SortedProfile(c.profile));
    forall i | 0 <= i < |items| ensures items[i].app in c.spec {
      ItemsAreSpecified(c, i);
    }
    var reports;
    used, reports := PackAll(c, used, items);
    result := freed + reports;
  }

  // ----- What a rescheduling guarantees -----

  /** All considered tasks that are reported can be placed together: every PMEM node that receives one
      holds, next to what it keeps, everything placed on it, the coupled memory bandwidth included. */
  lemma ReportedTasksCanBePlaced(c: Cluster, k: nat, n: NodeName)
    requires WellFormed(c) && k < |Items(c)| && PlacedOn(ProblemOf(c), Items(c), k) == Some(n)
    ensures TypeOf(c, n) == PMEM && n in c.capacities && Capacity(c.capacities[n])
    ensures PackedUsage(ProblemOf(c), Items(c), n).Keys == c.capacities[n].Keys
    ensures Fits(c.capacities[n], PackedUsage(ProblemOf(c), Items(c), n))
  {
    ProblemIsWellFormed(c);
    PackingExists(ProblemOf(c), Items(c), k, n);
  }

  /** A considered task that is not placed fits on no PMEM node, with what the loop charged until the end. */
  lemma UnreportedTasksFitNowhere(c: Cluster, k: nat, n: NodeName)
    requires WellFormed(c) && k < |Items(c)| && PlacedOn(ProblemOf(c), Items(c), k).None?
    ensures !FitsOn(ProblemOf(c), UsageAfter(ProblemOf(c), Items(c), |Items(c)|), Items(c)[k].app, n)
  {
    ProblemIsWellFormed(c);
    LeftOutFitsNowhere(ProblemOf(c), Items(c), k, n);
  }

  /** With at most one PMEM node a task left out does not fit next to the packing. */
  lemma MaximalOnOnePmemNode(c: Cluster)
    requires WellFormed(c) && |PmemNodes(c, c.appsOnNode.keys)| <= 1
    ensures Maximal(ProblemOf(c), Items(c))
  {
    hide Maximal;
    hide Monotone;
    hide Packing.WellFormed;
    ProblemIsWellFormed(c);
    MaximalOnFewNodes(ProblemOf(c), Items(c));
  }

  // ----- A cluster where the loop is not maximal -----

  function Moving(): Apps { Dict(["x"], map["x" := ["t", "u"]]) }

  /** Two empty PMEM nodes that hold 10 each, and a DRAM node with two tasks that belong on PMEM and need 6 each. */
  function TwoPmemNodes(): Cluster {
    Cluster(Dict(["a", "b", "d"], map["a" := EmptyDict(), "b" := EmptyDict(), "d" := Moving()]),
            Dict(["x", "y", "z"], map["x" := 1.0, "y" := 2.0, "z" := 3.0]),
            map["a" := PMEM, "b" := PMEM, "d" := DRAM],
            map["x" := map[MEM := 6.0]],
            map["a" := map[MEM := 10.0], "b" := map[MEM := 10.0], "d" := map[MEM := 100.0]],
            {MEM}, Some(1.0))
  }

  lemma TwoPmemNodesAreListed()
    ensures Listed(TwoPmemNodes()) && TwoPmemNodes().profile.Valid()
  {
    var c := TwoPmemNodes();
    assert EmptyDict<AppName, seq<TaskName>>().Valid() && Moving().Valid();
    assert forall n :: n in c.appsOnNode.at ==> c.appsOnNode.at[n] == EmptyDict() || c.appsOnNode.at[n] == Moving();
    assert NoDup(["a", "b", "d"]) && NoDup(["x", "y", "z"]);
    assert "a" in c.appsOnNode.keys && "b" in c.appsOnNode.keys && "d" in c.appsOnNode.keys by {
      assert c.appsOnNode.keys[0] == "a" && c.appsOnNode.keys[1] == "b" && c.appsOnNode.keys[2] == "d";
    }
    assert c.profile.keys[0] == "x" && c.profile.keys[1] == "y" && c.profile.keys[2] == "z";
  }

  lemma RunsOnTwoNodes(n: NodeName, a: AppName)
    ensures RunsOn(TwoPmemNodes(), n, a) <==> n == "d" && a == "x"
  {
  }

  lemma SpecOnTwoNodes()
    ensures var c := TwoPmemNodes();
      c.dims == {MEM} && c.spec == map["x" := map[MEM := 6.0]]
      && (forall n :: n in c.appsOnNode.at && TypeOf(c, n) == PMEM ==>
            n in c.capacities && c.capacities[n].Keys == c.dims && Capacity(c.capacities[n]))
  {
  }

  lemma TwoPmemNodesAreWellFormed()
    ensures WellFormed(TwoPmemNodes())
  {
    hide TwoPmemNodes;
    hide Listed;
    hide RunsOn;
    hide TypeOf;
    TwoPmemNodesAreListed();
    SpecOnTwoNodes();
    forall n, a ensures RunsOn(TwoPmemNodes(), n, a) ==> a in TwoPmemNodes().spec {
      RunsOnTwoNodes(n, a);
    }
  }

  lemma WrongOnTwoNodes(n: NodeName, a: AppName)
    ensures Wrong(TwoPmemNodes(), DRAM, n, a) <==> n == "d" && a == "x"
    ensures !Wrong(TwoPmemNodes(), PMEM, n, a)
  {
    var c := TwoPmemNodes();
    assert RunsOn(c, n, a) <==> n == "d" && a == "x";
  }

  lemma MovesOnTwoNodes()
    ensures AllMoves(TwoPmemNodes(), DRAM) == Dict(["x"], map["x" := Dict(["d"], map["d" := ["t", "u"]])])
  {
    hide AppType;
    var c := TwoPmemNodes();
    WrongOnTwoNodes("d", "x");
    assert AppsOf(c, "a") == [] && AppsOf(c, "b") == [] && AppsOf(c, "d") == ["x"];
    assert MovesOf(c, DRAM, 0) == EmptyDict();
    assert MovesOf(c, DRAM, 1) == EmptyDict();
    assert MovesOf(c, DRAM, 2) == EmptyDict();
    var d := Dict(["d"], map["d" := ["t", "u"]]);
    assert NodesFor(EmptyDict(), "x").Put("d", ["t", "u"]) == d by {
      assert [] + ["d"] == ["d"] && map[]["d" := ["t", "u"]] == map["d" := ["t", "u"]];
    }
    assert WithApps(c, EmptyDict(), DRAM, "d", 0) == EmptyDict();
    assert WithApps(c, EmptyDict(), DRAM, "d", 1) == Recorded(EmptyDict(), "d", "x", ["t", "u"]);
    assert Recorded(EmptyDict(), "d", "x", ["t", "u"]) == Dict(["x"], map["x" := d]) by {
      assert [] + ["x"] == ["x"] && map[]["x" := d] == map["x" := d];
    }
  }

  lemma TwoNamesAreInOrder()
    ensures InOrder(["t", "u"], StringLeq)
  {
    assert StringLeq("t", "u");
  }

  lemma TasksOfTwoNodes(a: AppName)
    ensures SortedTasks(AllMoves(TwoPmemNodes(), DRAM), a) == if a == "x" then ["t", "u"] else []
  {
    hide AllMoves;
    hide TwoPmemNodes;
    hide Sorted;
    MovesOnTwoNodes();
    var m := AllMoves(TwoPmemNodes(), DRAM);
    if a == "x" {
      var nodes := Dict(["d"], map["d" := ["t", "u"]]);
      assert Gathered(nodes, 0) == [] && Gathered(nodes, 1) == [] + ["t", "u"] == ["t", "u"];
      TwoNamesAreInOrder();
      SortedStays(["t", "u"], StringLeq);
    } else {
      assert Gathered(NodesFor(m, a), 0) == [];
      SortedStays<TaskName>([], StringLeq);
    }
  }

  lemma ProfileOfTwoNodes()
    ensures SortedProfile(TwoPmemNodes().profile) == ["x", "y", "z"]
  {
    hide Sorted;
    var p := TwoPmemNodes().profile;
    SortedStays(p.keys, (a: AppName, b: AppName) => Lower(p, a, b));
  }

  lemma ItemsOnTwoNodes()
    ensures Items(TwoPmemNodes()) == TwoTasks("x", "t", "u")
  {
    hide SortedTasks;
    hide AllMoves;
    hide SortedProfile;
    hide TwoPmemNodes;
    var m := AllMoves(TwoPmemNodes(), DRAM);
    ProfileOfTwoNodes();
    TasksOfTwoNodes("x");
    TasksOfTwoNodes("y");
    TasksOfTwoNodes("z");
    assert ["x", "y", "z"][..2] == ["x", "y"] && ["x", "y"][..1] == ["x"] && ["x"][..0] == [];
    assert ItemsFrom(m, []) == [];
    assert ItemsFrom(m, ["x"]) == [] + ItemsOf("x", ["t", "u"]);
    assert ItemsOf("x", ["t", "u"]) == TwoTasks("x", "t", "u");
    assert ItemsFrom(m, ["x", "y"]) == ItemsFrom(m, ["x"]) + [];
    assert ItemsFrom(m, ["x", "y", "z"]) == ItemsFrom(m, ["x", "y"]) + [];
  }

  lemma UsageOnTwoNodes(n: NodeName)
    requires n == "a" || n == "b"
    ensures n in KeptUsage(TwoPmemNodes()) && KeptUsage(TwoPmemNodes())[n] == map[MEM := 0.0]
  {
    var c := TwoPmemNodes();
    assert AppsOf(c, n) == [];
  }

  lemma OrderOnTwoNodes()
    ensures ProblemOf(TwoPmemNodes()).order == ["a", "b"]
  {
    var c := TwoPmemNodes();
    var names := ["a", "b", "d"];
    assert names[..2] == ["a", "b"] && ["a", "b"][..1] == ["a"] && ["a"][..0] == [];
    assert PmemNodes(c, []) == [];
    assert PmemNodes(c, ["a"]) == ["a"];
    assert PmemNodes(c, ["a", "b"]) == ["a", "b"];
  }

  lemma FitsOnTwoNodes(n: NodeName, v: Vector)
    requires (n == "a" || n == "b") && v.Keys == {MEM}
    ensures ProblemOf(TwoPmemNodes()).fits(n, v) <==> v[MEM] <= 10.0
  {
    var c := TwoPmemNodes();
    assert Capacity(c.capacities[n]) && ReadWriteRatio(c.capacities[n]) == None;
    assert Fits(c.capacities[n], v) <==> Remaining(c.capacities[n], v, None, MEM) >= 0.0;
  }

  lemma TwoNodesAreCrowded()
    ensures Crowded(ProblemOf(TwoPmemNodes()), "x")
  {
    hide KeptUsage;
    hide TwoPmemNodes;
    hide Fits;
    hide Capacity;
    hide PmemNodes;
    hide WellFormed;
    SpecOnTwoNodes();
    var p := ProblemOf(TwoPmemNodes());
    OrderOnTwoNodes();
    TwoPmemNodesAreWellFormed();
    OrderIsKept(TwoPmemNodes());
    assert forall n :: n in p.order <==> n == "a" || n == "b";
    UsageOnTwoNodes("a");
    UsageOnTwoNodes("b");
    forall n, v: Vector | n in p.order && v.Keys == {MEM} ensures p.fits(n, v) <==> v[MEM] <= 10.0 {
      FitsOnTwoNodes(n, v);
    }
  }

  /** On this cluster the second task is left out although the second node, empty after the rescheduling, could take it. */
  lemma LeftOutMayFitThePacking()
    ensures var c := TwoPmemNodes();
      && WellFormed(c) && Items(c) == TwoTasks("x", "t", "u")
      && PlacedOn(ProblemOf(c), Items(c), 1).None? && FitsPacked(ProblemOf(c), Items(c), "x", "b")
  {
    hide ProblemOf;
    hide Items;
    hide WellFormed;
    hide Crowded;
    TwoPmemNodesAreWellFormed();
    ItemsOnTwoNodes();
    TwoNodesAreCrowded();
    OrderOnTwoNodes();
    SecondTaskIsLeftOut(ProblemOf(TwoPmemNodes()), "x", "t", "u");
  }
}
