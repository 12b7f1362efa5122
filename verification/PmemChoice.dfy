/** Which applications the Score rescheduler wants on PMEM, wca/scheduler/algorithms/score.py, and in which order it packs
    their tasks. */
module PmemChoice {
  import opened Dicts
  import opened ResourceVectors
  import opened Ordering
  import opened Packing
  import opened Score

  lemma ByProfile(p: Dict<AppName, real>)
    ensures TotalPreorder((a: AppName, b: AppName) => Lower(p, a, b))
  {
  }

  // ----- For PMEM -----

  /** The lowest profile, listed first among equals. */
  ghost predicate IsLowest(p: Dict<AppName, real>, app: AppName)
    requires p.Valid()
  {
    exists i :: 0 <= i < |p.keys| && LowestAt(p, app, i)
  }

  ghost predicate LowestAt(p: Dict<AppName, real>, app: AppName, i: nat)
    requires p.Valid() && i < |p.keys|
  {
    && p.keys[i] == app && app in p.at
    && (forall j :: 0 <= j < |p.keys| ==> p.keys[j] in p.at && p.at[app] <= p.at[p.keys[j]])
    && (forall j :: 0 <= j < i ==> p.at[app] < p.at[p.keys[j]])
  }

  /** With more than two profiles: a profile at most the target or, without a target, the lowest one. */
  ghost predicate ForPmem(p: Dict<AppName, real>, app: AppName, target: Option<real>)
    requires p.Valid()
  {
    && |p.keys| > 2
    && if target.Some? && target.value != 0.0 then app in p.at && p.at[app] <= target.value else IsLowest(p, app)
  }

  lemma LowestIff(p: Dict<AppName, real>, app: AppName)
    requires p.Valid() && p.keys != []
    ensures app == SortedProfile(p)[0] <==> IsLowest(p, app)
  {
    hide Sorted;
    ByProfile(p);
    var i := SortedStartsWith(p.keys, (a: AppName, b: AppName) => Lower(p, a, b));
    assert forall j :: 0 <= j < |p.keys| ==> p.keys[j] in p.at && Lower(p, p.keys[i], p.keys[j]);
    assert LowestAt(p, p.keys[i], i);
    if k :| 0 <= k < |p.keys| && LowestAt(p, app, k) {
      assert k == i;
    }
  }

  /** An application is for PMEM exactly when it has one of these profiles, for DRAM otherwise. */
  lemma ForPmemIff(p: Dict<AppName, real>, app: AppName, target: Option<real>)
    requires p.Valid()
    ensures AppNodeType(p, app, target) == if ForPmem(p, app, target) then PMEM else DRAM
  {
    hide SortedProfile;
    if |p.keys| > 2 {
      LowestIff(p, app);
    }
  }

  // ----- What a rescheduling does in these terms -----

  ghost predicate BelongsOnPmem(c: Cluster, app: AppName)
    requires c.profile.Valid()
  {
    ForPmem(c.profile, app, c.scoreTarget)
  }

  lemma WrongIff(c: Cluster, n: NodeName, a: AppName)
    requires c.profile.Valid()
    ensures Wrong(c, PMEM, n, a) <==> RunsOn(c, n, a) && TypeOf(c, n) == PMEM && !BelongsOnPmem(c, a)
    ensures Wrong(c, DRAM, n, a) <==> RunsOn(c, n, a) && TypeOf(c, n) == DRAM && BelongsOnPmem(c, a)
  {
    hide ForPmem;
    hide AppNodeType;
    ForPmemIff(c.profile, a, c.scoreTarget);
  }

  ghost predicate OnPmemInVain(c: Cluster, n: NodeName, a: AppName, t: TaskName)
    requires c.profile.Valid()
  {
    RunsOn(c, n, a) && TypeOf(c, n) == PMEM && !BelongsOnPmem(c, a) && t in c.appsOnNode.at[n].at[a]
  }

  ghost predicate OnDramInVain(c: Cluster, n: NodeName, a: AppName, t: TaskName)
    requires c.profile.Valid()
  {
    RunsOn(c, n, a) && TypeOf(c, n) == DRAM && BelongsOnPmem(c, a) && t in c.appsOnNode.at[n].at[a]
  }

  /** The tasks that leave PMEM nodes are those on a PMEM node of an application that is not for PMEM. */
  lemma LeavesPmemIff(c: Cluster, t: TaskName)
    requires Score.WellFormed(c)
    ensures Reported(c, Misplaced(c), t) <==> exists n, a :: OnPmemInVain(c, n, a, t)
  {
    hide BelongsOnPmem;
    hide AppType;
    forall n, a ensures Wrong(c, PMEM, n, a) <==> RunsOn(c, n, a) && TypeOf(c, n) == PMEM && !BelongsOnPmem(c, a) {
      WrongIff(c, n, a);
    }
    if Reported(c, Misplaced(c), t) {
      var p :| p in Misplaced(c) && t in TasksOf(c, p.0, p.1);
      assert OnPmemInVain(c, p.0, p.1, t);
    }
    if n, a :| OnPmemInVain(c, n, a, t) {
      assert (n, a) in Misplaced(c) && t in TasksOf(c, n, a);
    }
  }

  /** The tasks considered for PMEM are those on a DRAM node of an application that is. */
  lemma ConsideredIff(c: Cluster, item: Item)
    requires Score.WellFormed(c)
    ensures item in Items(c) <==> exists n :: OnDramInVain(c, n, item.app, item.task)
  {
    hide BelongsOnPmem;
    hide Items;
    hide AppType;
    ItemsAreConsidered(c, item);
    forall n
      ensures Wrong(c, DRAM, n, item.app) && item.task in TasksOf(c, n, item.app) <==> OnDramInVain(c, n, item.app, item.task)
    {
      WrongIff(c, n, item.app);
    }
  }

  // ----- The order of the work -----

  ghost predicate InTurn(items: seq<Item>, i: nat, j: nat, apps: seq<AppName>)
    requires i < j < |items|
  {
    || (items[i].app == items[j].app && StringLeq(items[i].task, items[j].task))
    || ListedBefore(apps, items[i].app, items[j].app)
  }

  lemma ListedInMore<T>(s: seq<T>, x: T, y: T, last: T)
    ensures ListedBefore(s, x, y) ==> ListedBefore(s + [last], x, y)
    ensures x in s ==> ListedBefore(s + [last], x, last)
  {
    var t := s + [last];
    if ListedBefore(s, x, y) {
      var i, j :| 0 <= i < j < |s| && s[i] == x && s[j] == y;
      assert t[i] == x && t[j] == y;
    }
    if x in s {
      var i :| 0 <= i < |s| && s[i] == x;
      assert t[i] == x && t[|s|] == last;
    }
  }

  lemma {:induction false} ItemsInTurn(m: Moves, apps: seq<AppName>, i: nat, j: nat)
    requires i < j < |ItemsFrom(m, apps)|
    ensures InTurn(ItemsFrom(m, apps), i, j, apps)
  {
    hide SortedTasks;
    var init, last := apps[..|apps| - 1], apps[|apps| - 1];
    var before := ItemsFrom(m, init);
    var own := ItemsOf(last, SortedTasks(m, last));
    var items := ItemsFrom(m, apps);
    assert items == before + own && apps == init + [last];
    ListedInMore(init, items[i].app, items[j].app, last);
    if j < |before| {
      ItemsInTurn(m, init, i, j);
    } else if i < |before| {
      assert items[i] in before;
      ItemsFromHas(m, init, items[i]);
    } else {
      TasksInOrder(m, last, i - |before|, j - |before|);
    }
  }

  lemma TasksInOrder(m: Moves, a: AppName, i: nat, j: nat)
    requires i < j < |SortedTasks(m, a)|
    ensures StringLeq(SortedTasks(m, a)[i], SortedTasks(m, a)[j])
  {
    StringsAreOrdered();
    SortedIsInOrder(Gathered(NodesFor(m, a), |NodesFor(m, a).keys|), StringLeq);
  }

  /** Tasks are packed by the profile of their application, equal ones as they are listed, and within one application by
      name. */
  lemma ItemsAreInOrder(c: Cluster, i: nat, j: nat)
    requires c.profile.Valid() && i < j < |Items(c)|
    ensures var a, b := Items(c)[i].app, Items(c)[j].app;
      || (a == b && StringLeq(Items(c)[i].task, Items(c)[j].task))
      || (a in c.profile.at && b in c.profile.at &&
          (c.profile.at[a] < c.profile.at[b] || (c.profile.at[a] == c.profile.at[b] && ListedBefore(c.profile.keys, a, b))))
  {
    hide Sorted;
    hide StringLeq;
    var p := c.profile;
    var leq := (a: AppName, b: AppName) => Lower(p, a, b);
    ItemsInTurn(AllMoves(c, DRAM), SortedProfile(p), i, j);
    var a, b := Items(c)[i].app, Items(c)[j].app;
    if ListedBefore(SortedProfile(p), a, b) {
      ByProfile(p);
      SortedIsStable(p.keys, leq);
      SortedSame(p.keys, leq);
      var k, l :| 0 <= k < l < |SortedProfile(p)| && SortedProfile(p)[k] == a && SortedProfile(p)[l] == b;
      assert a in p.keys && b in p.keys;
      assert leq(a, b) && (leq(b, a) ==> ListedBefore(p.keys, a, b));
    }
  }

  // ----- What is left out -----

  /** Next to what was charged until the end, a task left out exceeds the capacity of every PMEM node. */
  lemma LeftOutExceeds(c: Cluster, k: nat, n: NodeName)
    requires Score.WellFormed(c) && k < |Items(c)| && PlacedOn(ProblemOf(c), Items(c), k).None?
    requires n in c.appsOnNode.at && TypeOf(c, n) == PMEM
    ensures n in UsageAfter(ProblemOf(c), Items(c), |Items(c)|) && Items(c)[k].app in c.spec
    ensures var used := UsageAfter(ProblemOf(c), Items(c), |Items(c)|)[n];
      && used.Keys == c.spec[Items(c)[k].app].Keys == c.capacities[n].Keys && Capacity(c.capacities[n])
      && !Fits(c.capacities[n], SumResources(used, c.spec[Items(c)[k].app]))
  {
    hide Items;
    hide KeptUsage;
    hide PlacedOn;
    ProblemIsWellFormed(c);
    UsageIsTracked(ProblemOf(c), Items(c), |Items(c)|);
    UnreportedTasksFitNowhere(c, k, n);
    ItemsAreSpecified(c, k);
    assert n in KeptUsage(c) by { KeptOnPmem(c, n); }
  }

  lemma KeptOnPmem(c: Cluster, n: NodeName)
    requires n in c.appsOnNode.at && TypeOf(c, n) == PMEM
    ensures n in KeptUsage(c)
  {
  }

  // ----- A cluster without a target -----

  function AppsOnPmem(): Apps { Dict(["x", "z"], map["x" := ["s"], "z" := ["u"]]) }

  function AppsOnDram(): Apps { Dict(["x", "z"], map["x" := ["t"], "z" := ["v"]]) }

  /** Three profiles and no target; an application of lowest and one of highest profile run on both nodes. */
  function NoTarget(): Cluster {
    Cluster(Dict(["p", "d"], map["p" := AppsOnPmem(), "d" := AppsOnDram()]),
            Dict(["x", "y", "z"], map["x" := 1.0, "y" := 2.0, "z" := 3.0]),
            map["p" := PMEM, "d" := DRAM],
            map["x" := map[MEM := 3.0], "z" := map[MEM := 5.0]],
            map["p" := map[MEM := 10.0], "d" := map[MEM := 100.0]],
            {MEM}, None)
  }

  lemma NoTargetIsListed()
    ensures Listed(NoTarget()) && NoTarget().profile.Valid()
  {
    var c := NoTarget();
    assert AppsOnPmem().keys[0] == "x" && AppsOnPmem().keys[1] == "z" && AppsOnPmem().Valid();
    assert AppsOnDram().keys[0] == "x" && AppsOnDram().keys[1] == "z" && AppsOnDram().Valid();
    assert c.appsOnNode.keys[0] == "p" && c.appsOnNode.keys[1] == "d";
    assert c.profile.keys[0] == "x" && c.profile.keys[1] == "y" && c.profile.keys[2] == "z";
  }

  lemma RunsWithoutTarget(n: NodeName, a: AppName)
    ensures RunsOn(NoTarget(), n, a) <==> (n == "p" || n == "d") && (a == "x" || a == "z")
    ensures TypeOf(NoTarget(), n) == if n == "p" then PMEM else if n == "d" then DRAM else UNKNOWN
  {
  }

  lemma SpecWithoutTarget()
    ensures var c := NoTarget();
      && c.spec.Keys == {"x", "z"}
      && (forall a :: a in c.spec ==> c.spec[a].Keys == c.dims && NonNegative(c.spec[a]))
      && (forall n :: n in c.appsOnNode.at && TypeOf(c, n) == PMEM ==>
            n in c.capacities && c.capacities[n].Keys == c.dims && Capacity(c.capacities[n]))
  {
  }

  lemma NoTargetIsWellFormed()
    ensures Score.WellFormed(NoTarget())
  {
    hide NoTarget;
    hide Listed;
    hide RunsOn;
    hide TypeOf;
    NoTargetIsListed();
    SpecWithoutTarget();
    forall n, a ensures RunsOn(NoTarget(), n, a) ==> a in NoTarget().spec {
      RunsWithoutTarget(n, a);
    }
  }

  lemma TasksWithoutTarget(t: TaskName)
    ensures t in NoTarget().appsOnNode.at["p"].at["z"] <==> t == "u"
    ensures t in NoTarget().appsOnNode.at["d"].at["x"] <==> t == "t"
  {
  }

  lemma LeavesWithoutTarget(n: NodeName, a: AppName, t: TaskName)
    ensures NoTarget().profile.Valid()
    ensures OnPmemInVain(NoTarget(), n, a, t) <==> n == "p" && a == "z" && t == "u"
    ensures OnDramInVain(NoTarget(), n, a, t) <==> n == "d" && a == "x" && t == "t"
  {
    hide NoTarget;
    hide RunsOn;
    hide TypeOf;
    hide BelongsOnPmem;
    RunsWithoutTarget(n, a);
    LowestWithoutTarget(a);
    TasksWithoutTarget(t);
  }

  lemma LowestWithoutTarget(a: AppName)
    ensures NoTarget().profile.Valid() && (BelongsOnPmem(NoTarget(), a) <==> a == "x")
  {
    var p := NoTarget().profile;
    NoTargetIsListed();
    assert p.keys[0] == "x" && p.keys[1] == "y" && p.keys[2] == "z";
    assert LowestAt(p, "x", 0);
    if i :| 0 <= i < |p.keys| && LowestAt(p, a, i) {
      assert p.at[a] <= p.at["x"];
    }
  }

  /** The lowest profile alone is for PMEM: task u, of the highest, leaves the PMEM node, and task t, of the lowest, is
      considered for it; s and v stay where they are. */
  lemma WithoutTarget(t: TaskName, item: Item)
    ensures Score.WellFormed(NoTarget())
    ensures Reported(NoTarget(), Misplaced(NoTarget()), t) <==> t == "u"
    ensures item in Items(NoTarget()) <==> item == Item("x", "t")
  {
    hide Items;
    hide Misplaced;
    hide OnPmemInVain;
    hide OnDramInVain;
    hide NoTarget;
    var c := NoTarget();
    NoTargetIsWellFormed();
    LeavesPmemIff(c, t);
    ConsideredIff(c, item);
    LeavesWithoutTarget("p", "z", t);
    LeavesWithoutTarget("d", "x", item.task);
    forall n, a ensures OnPmemInVain(c, n, a, t) ==> t == "u" {
      LeavesWithoutTarget(n, a, t);
    }
    forall n ensures OnDramInVain(c, n, item.app, item.task) ==> item.app == "x" && item.task == "t" {
      LeavesWithoutTarget(n, item.app, item.task);
    }
  }
}
