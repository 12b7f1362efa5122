/** Pinning tasks to NUMA nodes, wca/extra/numa_allocator.py with `fill_biggest_first` and no check of free space:
    in every round the biggest task that is not pinned yet goes to the node with the least pinned memory. */
module Numa {
  import opened Dicts
  import ListFormat
  import opened Ordering

  /** A task: its memory limit, its cpus as read from the control file, its share of pages on every node. */
  datatype Task = Task(id: string, memory: nat, cpus: string, preferences: seq<real>)

  /** The cpus and the free memory of every node. */
  datatype Platform = Platform(nodeCpus: seq<set<nat>>, free: seq<int>)

  datatype Settings = Settings(dryrun: bool, migratePages: bool, migratePagesMinTaskBalance: Option<real>,
                               cgroupsMemoryBinding: bool)

  ghost predicate Valid(tasks: seq<Task>, p: Platform) {
    && 0 < |p.nodeCpus| == |p.free|
    && (forall i :: 0 <= i < |tasks| ==> |tasks[i].preferences| == |p.nodeCpus|)
    && (forall i, j :: 0 <= i < j < |tasks| ==> tasks[i].id != tasks[j].id)
  }

  ghost predicate DistinctNodes(p: Platform) {
    forall i, j :: 0 <= i < j < |p.nodeCpus| ==> p.nodeCpus[i] != p.nodeCpus[j]
  }

  // ----- Where a task is pinned -----

  /** The first node from `k` on that has exactly these cpus. */
  ghost function NodeOf(cores: set<int>, nodeCpus: seq<set<nat>>, k: nat): (r: Option<nat>)
    requires k <= |nodeCpus|
    ensures r.Some? ==> k <= r.value < |nodeCpus| && ListFormat.Integers(nodeCpus[r.value]) == cores
    ensures r.None? ==> forall i :: k <= i < |nodeCpus| ==> ListFormat.Integers(nodeCpus[i]) != cores
    decreases |nodeCpus| - k
  {
    if k == |nodeCpus| then None
    else if ListFormat.Integers(nodeCpus[k]) == cores then Some(k)
    else NodeOf(cores, nodeCpus, k + 1)
  }

  ghost function CurrentNode(cpus: string, p: Platform): Result<Option<nat>> {
    match ListFormat.Decode(cpus)
    case Failed(e) => Failed(e)
    case Ok(cores) => Ok(NodeOf(cores, p.nodeCpus, 0))
  }

  method SameCores(a: set<nat>, b: set<int>) returns (same: bool)
    ensures same == (ListFormat.Integers(a) == b)
  {
    var left, right := forall x :: x in a ==> (x as int) in b, forall x :: x in b ==> x >= 0 && x as nat in a;
    same := left && right;
    ghost var i := ListFormat.Integers(a);
    if same {
      forall x | x in b ensures x in i {
        assert x >= 0 && x as nat in a;
      }
      assert i <= b && b <= i;
    } else if !left {
      var x :| x in a && (x as int) !in b;
      assert (x as int) in i;
    } else {
      var x :| x in b && !(x >= 0 && x as nat in a);
      assert x !in i;
    }
  }

  /** `_get_current_node`, with None for -1. */
  method GetCurrentNode(cpus: string, p: Platform) returns (r: Result<Option<nat>>)
    ensures r == CurrentNode(cpus, p)
  {
    hide ListFormat.Decode;
    hide ListFormat.Integers;
    var cores := ListFormat.DecodeListformat(cpus);
    if cores.Failed? {
      return Failed(cores.error);
    }
    var k, found := 0, false;
    while k < |p.nodeCpus| && !found
      invariant k <= |p.nodeCpus|
      invariant found ==> k < |p.nodeCpus|
      invariant NodeOf(cores.value, p.nodeCpus, 0) == NodeOf(cores.value, p.nodeCpus, k)
      invariant found ==> ListFormat.Integers(p.nodeCpus[k]) == cores.value
      decreases |p.nodeCpus| - k, !found
    {
      found := SameCores(p.nodeCpus[k], cores.value);
      if !found {
        k := k + 1;
      }
    }
    r := Ok(if found then Some(k) else None);
  }

  ghost function PinnedOn(t: Task, p: Platform): Option<nat> {
    var r := CurrentNode(t.cpus, p);
    if r.Ok? then r.value else None
  }

  ghost predicate Readable(tasks: seq<Task>, p: Platform) {
    forall i :: 0 <= i < |tasks| ==> CurrentNode(tasks[i].cpus, p).Ok?
  }

  // ----- How much memory is pinned to a node -----

  ghost function PinnedMemory(tasks: seq<Task>, k: nat, p: Platform, node: nat): nat
    requires k <= |tasks|
  {
    if k == 0 then 0
    else PinnedMemory(tasks, k - 1, p, node) + if PinnedOn(tasks[k - 1], p) == Some(node) then tasks[k - 1].memory else 0
  }

  function Total(limits: seq<nat>): nat {
    if limits == [] then 0 else Total(limits[..|limits| - 1]) + limits[|limits| - 1]
  }

  ghost predicate AreBalanced(balanced: seq<seq<nat>>, tasks: seq<Task>, k: nat, p: Platform)
    requires k <= |tasks|
  {
    && |balanced| == |p.nodeCpus|
    && forall n :: 0 <= n < |balanced| ==> Total(balanced[n]) == PinnedMemory(tasks, k, p, n)
  }

  method AddPinned(before: seq<seq<nat>>, tasks: seq<Task>, k: nat, p: Platform, node: Option<nat>)
    returns (balanced: seq<seq<nat>>)
    requires k < |tasks| && AreBalanced(before, tasks, k, p) && CurrentNode(tasks[k].cpus, p) == Ok(node)
    ensures AreBalanced(balanced, tasks, k + 1, p)
  {
    hide ListFormat.Decode;
    balanced := before;
    if node.Some? {
      var limits := before[node.value] + [tasks[k].memory];
      assert limits[..|limits| - 1] == before[node.value];
      balanced := before[node.value := limits];
    }
  }

  /** `_build_balanced_memory`: the memory limits of the tasks pinned to every node. */
  method BuildBalancedMemory(tasks: seq<Task>, p: Platform) returns (readable: bool, balanced: seq<seq<nat>>)
    ensures readable == Readable(tasks, p)
    ensures readable ==> AreBalanced(balanced, tasks, |tasks|, p)
  {
    hide CurrentNode;
    balanced := seq(|p.nodeCpus|, _ => []);
    readable := true;
    var k := 0;
    while k < |tasks| && readable
      invariant k <= |tasks|
      invariant readable ==> forall i :: 0 <= i < k ==> CurrentNode(tasks[i].cpus, p).Ok?
      invariant readable ==> AreBalanced(balanced, tasks, k, p)
      invariant !readable ==> !Readable(tasks, p)
    {
      var node := GetCurrentNode(tasks[k].cpus, p);
      readable := node.Ok?;
      if readable {
        balanced := AddPinned(balanced, tasks, k, p, node.value);
      }
      k := k + 1;
    }
  }

  // ----- The node with the least pinned memory -----

  /** The nearest whole number to `n / d`, the even one of two. */
  function RoundHalfEven(n: nat, d: nat): (r: nat)
    requires d > 0
  {
    var q, m := n / d, n % d;
    if 2 * m < d then q else if 2 * m > d then q + 1 else if q % 2 == 0 then q else q + 1
  }

  /** `round(memory / (pinned + memory), 4)`, in ten-thousandths. */
  function Score(memory: nat, pinned: nat): nat
    requires memory > 0
  {
    RoundHalfEven(10000 * memory, pinned + memory)
  }

  ghost function Scores(memory: nat, tasks: seq<Task>, p: Platform): (r: seq<int>)
    requires memory > 0
    ensures |r| == |p.nodeCpus|
    ensures forall n :: 0 <= n < |r| ==> r[n] == Score(memory, PinnedMemory(tasks, |tasks|, p, n))
  {
    seq(|p.nodeCpus|, n requires 0 <= n < |p.nodeCpus| => Score(memory, PinnedMemory(tasks, |tasks|, p, n)))
  }

  /** The lowest-numbered node of the best score. */
  ghost function BestNode(memory: nat, tasks: seq<Task>, p: Platform): nat
    requires memory > 0 && |p.nodeCpus| > 0
  {
    FirstMax(Scores(memory, tasks, p), (x: int) => x)
  }

  /** `_get_best_memory_node`. */
  method GetBestMemoryNode(memory: nat, balanced: seq<seq<nat>>, ghost tasks: seq<Task>, ghost p: Platform)
    returns (node: nat)
    requires memory > 0 && |p.nodeCpus| > 0 && AreBalanced(balanced, tasks, |tasks|, p)
    ensures node == BestNode(memory, tasks, p)
  {
    hide Score;
    hide PinnedMemory;
    hide Total;
    var scores: seq<int> := [];
    for n := 0 to |balanced|
      invariant scores == Scores(memory, tasks, p)[..n]
    {
      scores := scores + [Score(memory, Total(balanced[n]))];
    }
    assert scores == Scores(memory, tasks, p);
    node := FirstMax(scores, (x: int) => x);
  }

  lemma RoundingIsNear(n: nat, d: nat)
    requires d > 0
    ensures var r := RoundHalfEven(n, d); 2 * n - d <= 2 * (r * d) <= 2 * n + d
  {
    var q, m := n / d, n % d;
    assert n == q * d + m;
    assert (q + 1) * d == q * d + d;
  }

  /** Rounding to four digits can make the choice worse than the best, by no more than this. */
  lemma RoundedOrder(n: nat, c: nat, l: nat)
    requires c > 0 && l > 0 && RoundHalfEven(n, c) >= RoundHalfEven(n, l)
    ensures n * (c - l) <= c * l
  {
    var s, t := RoundHalfEven(n, c), RoundHalfEven(n, l);
    RoundingIsNear(n, c);
    RoundingIsNear(n, l);
    RoundedBound(n, c, l, s, t);
  }

  lemma RoundedBound(n: nat, c: nat, l: nat, s: nat, t: nat)
    requires s >= t && 2 * (s * c) <= 2 * n + c && 2 * n - l <= 2 * (t * l)
    ensures n * (c - l) <= c * l
  {
    Scaled(2 * (s * c), 2 * n + c, l);
    Scaled(2 * n - l, 2 * (t * l), c);
    Scaled(t, s, c * l);
    assert 2 * (s * c) * l == 2 * (s * (c * l));
    assert 2 * (t * l) * c == 2 * (t * (c * l));
    assert (2 * n + c) * l == 2 * (n * l) + c * l;
    assert (2 * n - l) * c == 2 * (n * c) - c * l;
    assert n * (c - l) == n * c - n * l;
  }

  lemma Scaled(a: int, b: int, f: nat)
    requires a <= b
    ensures a * f <= b * f
  {
  }

  /** The node chosen for a task of memory m has pinned memory S within a real bound of the least pinned memory L:
      10000 m (S - L) <= (S + m) (L + m); of equally scored nodes the lowest-numbered is chosen. */
  lemma ChosenNodeIsNearlyBest(memory: nat, tasks: seq<Task>, p: Platform, other: nat)
    requires memory > 0 && |p.nodeCpus| > 0 && other < |p.nodeCpus|
    ensures var node := BestNode(memory, tasks, p);
      var s, l := PinnedMemory(tasks, |tasks|, p, node), PinnedMemory(tasks, |tasks|, p, other);
      && node < |p.nodeCpus|
      && 10000 * memory * (s - l) <= (s + memory) * (l + memory)
      && (other < node ==> Score(memory, l) < Score(memory, s))
  {
    hide RoundHalfEven;
    hide PinnedMemory;
    var scores := Scores(memory, tasks, p);
    var node := BestNode(memory, tasks, p);
    var key := (x: int) => x;
    assert key(scores[other]) <= key(scores[node]);
    assert other < node ==> key(scores[other]) < key(scores[node]);
    var s, l := PinnedMemory(tasks, |tasks|, p, node), PinnedMemory(tasks, |tasks|, p, other);
    RoundedOrder(10000 * memory, s + memory, l + memory);
  }

  // ----- The task to pin -----

  predicate Larger(a: Task, b: Task) { a.memory >= b.memory }

  /** `_build_tasks_memory`: the biggest tasks first, equally big ones in their order. */
  function BiggestFirst(tasks: seq<Task>): seq<Task> { Sorted(tasks, Larger) }

  /** Neither pinned nor without memory. */
  ghost predicate Eligible(t: Task, p: Platform) { PinnedOn(t, p).None? && t.memory > 0 }

  function FirstTrue(flags: seq<bool>, k: nat): (r: Option<nat>)
    requires k <= |flags|
    ensures r.Some? ==> r.value < k && flags[r.value] && forall i :: 0 <= i < r.value ==> !flags[i]
    ensures r.None? ==> forall i :: 0 <= i < k ==> !flags[i]
  {
    if k == 0 then None
    else
      var before := FirstTrue(flags, k - 1);
      if before.Some? then before else if flags[k - 1] then Some(k - 1) else None
  }

  ghost function AreEligible(tasks: seq<Task>, p: Platform): (r: seq<bool>)
    ensures |r| == |tasks| && forall i :: 0 <= i < |r| ==> r[i] == Eligible(tasks[i], p)
  {
    seq(|tasks|, i requires 0 <= i < |tasks| => Eligible(tasks[i], p))
  }

  /** The first eligible task. */
  ghost function FirstEligible(tasks: seq<Task>, p: Platform): (r: Option<nat>)
    ensures r.Some? ==> r.value < |tasks| && Eligible(tasks[r.value], p)
  {
    FirstTrue(AreEligible(tasks, p), |tasks|)
  }

  method FindTask(tasks: seq<Task>, p: Platform) returns (r: Option<nat>)
    requires Readable(tasks, p)
    ensures r == FirstEligible(tasks, p)
  {
    hide CurrentNode;
    r := None;
    for k := 0 to |tasks|
      invariant r == FirstTrue(AreEligible(tasks, p), k)
    {
      var node := GetCurrentNode(tasks[k].cpus, p);
      assert CurrentNode(tasks[k].cpus, p).Ok?;
      if node.value.None? && tasks[k].memory != 0 && r.None? {
        r := Some(k);
      }
    }
  }

  // ----- The allocations -----

  /** What is written for a task: cpus, memory nodes, the node to move its pages to. */
  datatype Pin = Pin(cpus: Option<string>, mems: Option<string>, migratePages: Option<nat>)

  ghost function PinTo(node: nat, p: Platform, s: Settings): Pin
    requires node < |p.nodeCpus|
  {
    Pin(Some(ListFormat.Encode(p.nodeCpus[node])),
        if s.cgroupsMemoryBinding then Some(ListFormat.Encode({node})) else None,
        if s.migratePages then Some(node) else None)
  }

  method AllocateTask(node: nat, p: Platform, s: Settings) returns (r: Pin)
    requires node < |p.nodeCpus|
    ensures r == PinTo(node, p, s)
  {
    var cpus := ListFormat.EncodeListformat(p.nodeCpus[node]);
    r := Pin(Some(cpus), None, None);
    if s.cgroupsMemoryBinding {
      var mems := ListFormat.EncodeListformat({node});
      r := r.(mems := Some(mems));
    }
    if s.migratePages {
      r := r.(migratePages := Some(node));
    }
  }

  type Allocations = map<string, Pin>

  function WithPages(a: Allocations, id: string, node: nat): Allocations {
    a[id := (if id in a then a[id] else Pin(None, None, None)).(migratePages := Some(node))]
  }

  function LeastUsedNode(p: Platform): nat
    requires |p.free| > 0
  {
    FirstMax(p.free, (x: int) => x)
  }

  /** Already pinned to the node with most free memory, and with too few of its pages there. */
  ghost predicate IsUnbalanced(t: Task, p: Platform, least: nat, balance: real) {
    PinnedOn(t, p) == Some(least) && least < |t.preferences| && t.preferences[least] < balance
  }

  ghost function Remigrated(a: Allocations, tasks: seq<Task>, k: nat, p: Platform, least: nat, balance: real): Allocations
    requires k <= |tasks|
  {
    if k == 0 then a
    else
      var before := Remigrated(a, tasks, k - 1, p, least, balance);
      if IsUnbalanced(tasks[k - 1], p, least, balance) then WithPages(before, tasks[k - 1].id, least) else before
  }

  /** `_remigrate_pages_of_unbalanced_tasks`. */
  method RemigratePages(a: Allocations, tasks: seq<Task>, p: Platform, balance: real) returns (r: Allocations)
    requires Readable(tasks, p) && 0 < |p.nodeCpus| == |p.free|
    requires forall i :: 0 <= i < |tasks| ==> |tasks[i].preferences| == |p.nodeCpus|
    ensures r == Remigrated(a, tasks, |tasks|, p, LeastUsedNode(p), balance)
  {
    hide CurrentNode;
    var least := LeastUsedNode(p);
    r := a;
    for k := 0 to |tasks|
      invariant r == Remigrated(a, tasks, k, p, least, balance)
    {
      var node := GetCurrentNode(tasks[k].cpus, p);
      assert CurrentNode(tasks[k].cpus, p).Ok?;
      if node.value == Some(least) && tasks[k].preferences[least] < balance {
        r := WithPages(r, tasks[k].id, least);
      }
    }
  }

  /** The pin of the chosen task, if there is one. */
  ghost function Pinned(sorted: seq<Task>, p: Platform, s: Settings): Allocations
    requires |p.nodeCpus| > 0
  {
    var chosen := FirstEligible(sorted, p);
    if chosen.None? then map[]
    else
      var t := sorted[chosen.value];
      map[t.id := PinTo(BestNodeOf(t, sorted, p), p, s)]
  }

  ghost function BestNodeOf(t: Task, sorted: seq<Task>, p: Platform): (r: nat)
    requires t.memory > 0 && |p.nodeCpus| > 0
    ensures r < |p.nodeCpus|
  {
    BestNode(t.memory, sorted, p)
  }

  ghost function Allocated(tasks: seq<Task>, p: Platform, s: Settings): Result<Allocations>
    requires 0 < |p.nodeCpus| == |p.free|
  {
    var sorted := BiggestFirst(tasks);
    if !Readable(sorted, p) then Failed(ValueError)
    else if s.dryrun then Ok(map[])
    else if s.migratePages && s.migratePagesMinTaskBalance.Some? then
      Ok(Remigrated(Pinned(sorted, p, s), sorted, |sorted|, p, LeastUsedNode(p), s.migratePagesMinTaskBalance.value))
    else Ok(Pinned(sorted, p, s))
  }

  method PinBiggest(sorted: seq<Task>, balanced: seq<seq<nat>>, p: Platform, s: Settings) returns (a: Allocations)
    requires |p.nodeCpus| > 0 && Readable(sorted, p) && AreBalanced(balanced, sorted, |sorted|, p)
    ensures a == Pinned(sorted, p, s)
  {
    hide PinnedOn;
    a := map[];
    var chosen := FindTask(sorted, p);
    if chosen.Some? {
      var t := sorted[chosen.value];
      var node := GetBestMemoryNode(t.memory, balanced, sorted, p);
      assert node == BestNodeOf(t, sorted, p);
      var pin := AllocateTask(node, p, s);
      a := map[t.id := pin];
    }
  }

  /** `allocate`. */
  method Allocate(tasks: seq<Task>, p: Platform, s: Settings) returns (r: Result<Allocations>)
    requires Valid(tasks, p)
    ensures r == Allocated(tasks, p, s)
  {
    hide CurrentNode;
    hide Pinned;
    hide Remigrated;
    var sorted := BiggestFirst(tasks);
    SortedPreferences(tasks, p);
    var readable, balanced := BuildBalancedMemory(sorted, p);
    if !readable {
      return Failed(ValueError);
    }
    if s.dryrun {
      return Ok(map[]);
    }
    var a := PinBiggest(sorted, balanced, p, s);
    if s.migratePages && s.migratePagesMinTaskBalance.Some? {
      a := RemigratePages(a, sorted, p, s.migratePagesMinTaskBalance.value);
    }
    r := Ok(a);
  }

  lemma SortedPreferences(tasks: seq<Task>, p: Platform)
    requires Valid(tasks, p)
    ensures var sorted := BiggestFirst(tasks);
      forall i :: 0 <= i < |sorted| ==> |sorted[i].preferences| == |p.nodeCpus|
  {
    var sorted := BiggestFirst(tasks);
    SortedSame(tasks, Larger);
    forall i | 0 <= i < |sorted| ensures |sorted[i].preferences| == |p.nodeCpus| {
      assert sorted[i] in sorted;
    }
  }

  // ----- One round -----

  /** What the next round reads: the cpus written for a task, or those it had. */
  function Applied(tasks: seq<Task>, a: Allocations): (r: seq<Task>)
    ensures |r| == |tasks|
    ensures forall i :: 0 <= i < |r| ==> r[i] == AppliedTo(tasks[i], a)
  {
    seq(|tasks|, i requires 0 <= i < |tasks| => AppliedTo(tasks[i], a))
  }

  function AppliedTo(t: Task, a: Allocations): Task {
    if t.id in a && a[t.id].cpus.Some? then t.(cpus := a[t.id].cpus.value) else t
  }

  ghost predicate SameCpus(a: Allocations, b: Allocations, id: string) {
    (if id in a then a[id].cpus else None) == (if id in b then b[id].cpus else None)
  }

  /** Moving pages pins nothing. */
  lemma {:induction false} RemigratingPinsNothing(a: Allocations, tasks: seq<Task>, k: nat, p: Platform, least: nat,
                                                  balance: real, id: string)
    requires k <= |tasks|
    ensures SameCpus(Remigrated(a, tasks, k, p, least, balance), a, id)
  {
    hide IsUnbalanced;
    if k > 0 {
      RemigratingPinsNothing(a, tasks, k - 1, p, least, balance, id);
    }
  }

  ghost predicate IsUnbalancedAmong(tasks: seq<Task>, k: nat, p: Platform, least: nat, balance: real, id: string)
    requires k <= |tasks|
  {
    exists i :: 0 <= i < k && tasks[i].id == id && IsUnbalanced(tasks[i], p, least, balance)
  }

  /** Exactly the pinned tasks on the emptiest node with too few of their pages there get their pages moved to it;
      what else is written for a task stays. */
  lemma {:induction false} MovesPagesOfUnbalanced(a: Allocations, tasks: seq<Task>, k: nat, p: Platform, least: nat,
                                                  balance: real, id: string)
    requires k <= |tasks|
    ensures var r := Remigrated(a, tasks, k, p, least, balance);
      if IsUnbalancedAmong(tasks, k, p, least, balance, id) then id in r && r[id].migratePages == Some(least)
      else (id in r <==> id in a) && (id in a ==> r[id] == a[id])
  {
    hide IsUnbalanced;
    if k > 0 {
      MovesPagesOfUnbalanced(a, tasks, k - 1, p, least, balance, id);
      if tasks[k - 1].id == id && IsUnbalanced(tasks[k - 1], p, least, balance) {
        assert k - 1 < k;
        assert IsUnbalancedAmong(tasks, k, p, least, balance, id);
      } else {
        assert IsUnbalancedAmong(tasks, k, p, least, balance, id) <==> IsUnbalancedAmong(tasks, k - 1, p, least, balance, id);
      }
    }
  }

  /** Once the cpus of a node were written, the task is recognised on that node. */
  lemma PinIsRecognised(node: nat, p: Platform)
    requires node < |p.nodeCpus| && DistinctNodes(p)
    ensures CurrentNode(ListFormat.Encode(p.nodeCpus[node]), p) == Ok(Some(node))
  {
    hide ListFormat.Encode;
    hide ListFormat.Decode;
    ListFormat.DecodeOfEncode(p.nodeCpus[node]);
    var found := NodeOf(ListFormat.Integers(p.nodeCpus[node]), p.nodeCpus, 0);
    SameIntegers(p.nodeCpus[found.value], p.nodeCpus[node]);
  }

  lemma SameIntegers(a: set<nat>, b: set<nat>)
    requires ListFormat.Integers(a) == ListFormat.Integers(b)
    ensures a == b
  {
    forall x: nat ensures x in a <==> x in b {
      assert (x as int) in ListFormat.Integers(a) <==> x in a;
      assert (x as int) in ListFormat.Integers(b) <==> x in b;
    }
  }

  lemma LargerIsTotal()
    ensures TotalPreorder(Larger)
  {
  }

  /** The first eligible task of the sorted list is one of the biggest eligible tasks. */
  lemma ChosenIsBiggest(tasks: seq<Task>, p: Platform)
    ensures var sorted := BiggestFirst(tasks);
      var chosen := FirstEligible(sorted, p);
      if chosen.None? then forall i :: 0 <= i < |tasks| ==> !Eligible(tasks[i], p)
      else
        && sorted[chosen.value] in tasks && Eligible(sorted[chosen.value], p)
        && forall i :: 0 <= i < |tasks| && Eligible(tasks[i], p) ==> tasks[i].memory <= sorted[chosen.value].memory
  {
    hide Eligible;
    var sorted := BiggestFirst(tasks);
    LargerIsTotal();
    SortedIsInOrder(tasks, Larger);
    SortedSame(tasks, Larger);
    var chosen := FirstEligible(sorted, p);
    forall i | 0 <= i < |tasks| && Eligible(tasks[i], p)
      ensures chosen.Some? && tasks[i].memory <= sorted[chosen.value].memory
    {
      assert tasks[i] in sorted;
      var j :| 0 <= j < |sorted| && sorted[j] == tasks[i];
      assert chosen.Some?;
      assert chosen.value <= j;
      assert chosen.value < j ==> Larger(sorted[chosen.value], sorted[j]);
    }
    if chosen.Some? {
      assert sorted[chosen.value] in sorted;
    }
  }

  /** In `after`, the task at `c` has been pinned to `node` and the others are as they were. */
  ghost predicate PinnedOne(tasks: seq<Task>, after: seq<Task>, c: nat, node: nat, p: Platform) {
    && c < |tasks| == |after| && node < |p.nodeCpus|
    && Eligible(tasks[c], p)
    && after[c] == tasks[c].(cpus := ListFormat.Encode(p.nodeCpus[node]))
    && CurrentNode(after[c].cpus, p) == Ok(Some(node))
    && (forall i :: 0 <= i < |tasks| && i != c ==> after[i] == tasks[i])
  }

  lemma ChosenIsPinned(tasks: seq<Task>, a: Allocations, c: nat, node: nat, p: Platform, s: Settings)
    requires Valid(tasks, p) && DistinctNodes(p) && c < |tasks| && node < |p.nodeCpus| && Eligible(tasks[c], p)
    requires forall id :: SameCpus(a, map[tasks[c].id := PinTo(node, p, s)], id)
    ensures PinnedOne(tasks, Applied(tasks, a), c, node, p)
  {
    hide CurrentNode;
    hide Eligible;
    hide ListFormat.Encode;
    PinIsRecognised(node, p);
    assert SameCpus(a, map[tasks[c].id := PinTo(node, p, s)], tasks[c].id);
    forall i | 0 <= i < |tasks| && i != c ensures Applied(tasks, a)[i] == tasks[i] {
      assert SameCpus(a, map[tasks[c].id := PinTo(node, p, s)], tasks[i].id);
      assert tasks[i].id != tasks[c].id by {
        assert if i < c then tasks[i].id != tasks[c].id else tasks[c].id != tasks[i].id;
      }
    }
  }

  lemma AllocatedPins(tasks: seq<Task>, p: Platform, s: Settings)
    requires Valid(tasks, p) && !s.dryrun && Allocated(tasks, p, s).Ok?
    ensures forall id :: SameCpus(Allocated(tasks, p, s).value, Pinned(BiggestFirst(tasks), p, s), id)
  {
    hide Pinned;
    hide Readable;
    hide Remigrated;
    var sorted := BiggestFirst(tasks);
    forall id ensures SameCpus(Allocated(tasks, p, s).value, Pinned(sorted, p, s), id) {
      if s.migratePages && s.migratePagesMinTaskBalance.Some? {
        RemigratingPinsNothing(Pinned(sorted, p, s), sorted, |sorted|, p, LeastUsedNode(p),
                               s.migratePagesMinTaskBalance.value, id);
      }
    }
  }

  /** One round pins exactly one task, a biggest one of those that are not pinned and have memory, to its best
      node, and is recognised there; without such a task nothing is pinned. */
  lemma RoundPinsOne(tasks: seq<Task>, p: Platform, s: Settings) returns (c: nat, node: nat)
    requires Valid(tasks, p) && DistinctNodes(p) && !s.dryrun && Allocated(tasks, p, s).Ok?
    ensures var after := Applied(tasks, Allocated(tasks, p, s).value);
      if forall i :: 0 <= i < |tasks| ==> !Eligible(tasks[i], p) then after == tasks
      else
        && PinnedOne(tasks, after, c, node, p)
        && (forall i :: 0 <= i < |tasks| && Eligible(tasks[i], p) ==> tasks[i].memory <= tasks[c].memory)
        && node == BestNode(tasks[c].memory, BiggestFirst(tasks), p)
  {
    hide Allocated;
    hide Eligible;
    hide PinTo;
    hide BestNode;
    hide PinnedOne;
    var sorted := BiggestFirst(tasks);
    var a := Allocated(tasks, p, s).value;
    AllocatedPins(tasks, p, s);
    ChosenIsBiggest(tasks, p);
    var chosen := FirstEligible(sorted, p);
    c, node := 0, 0;
    if chosen.Some? {
      c :| 0 <= c < |tasks| && tasks[c] == sorted[chosen.value];
      HasMemory(tasks[c], p);
      node := BestNodeOf(tasks[c], sorted, p);
      assert Pinned(sorted, p, s) == map[tasks[c].id := PinTo(node, p, s)];
      ChosenIsPinned(tasks, a, c, node, p, s);
    } else {
      assert Pinned(sorted, p, s) == map[];
      forall i | 0 <= i < |tasks| ensures Applied(tasks, a)[i] == tasks[i] {
        assert SameCpus(a, Pinned(sorted, p, s), tasks[i].id);
      }
    }
  }

  lemma HasMemory(t: Task, p: Platform)
    requires Eligible(t, p)
    ensures t.memory > 0
  {
  }

  // ----- Whole runs -----

  ghost function CountEligible(tasks: seq<Task>, k: nat, p: Platform): nat
    requires k <= |tasks|
  {
    if k == 0 then 0 else CountEligible(tasks, k - 1, p) + if Eligible(tasks[k - 1], p) then 1 else 0
  }

  lemma {:induction false} OneLess(tasks: seq<Task>, after: seq<Task>, c: nat, node: nat, p: Platform, k: nat)
    requires PinnedOne(tasks, after, c, node, p) && k <= |tasks|
    ensures CountEligible(after, k, p) == CountEligible(tasks, k, p) - if c < k then 1 else 0
  {
    hide CurrentNode;
    if k > 0 {
      OneLess(tasks, after, c, node, p, k - 1);
    }
  }

  lemma {:induction false} NoneEligible(tasks: seq<Task>, k: nat, p: Platform)
    requires k <= |tasks|
    ensures CountEligible(tasks, k, p) == 0 <==> forall i :: 0 <= i < k ==> !Eligible(tasks[i], p)
  {
    hide Eligible;
    if k > 0 {
      NoneEligible(tasks, k - 1, p);
    }
  }

  /** What a round starts from: the tasks and the free memory of the nodes. */
  datatype Situation = Situation(tasks: seq<Task>, free: seq<int>)

  function PlatformOf(nodeCpus: seq<set<nat>>, x: Situation): Platform { Platform(nodeCpus, x.free) }

  /** The same tasks with the same cpus; only where their pages are may differ. */
  ghost predicate SamePins(a: seq<Task>, b: seq<Task>) {
    |a| == |b| && forall i :: 0 <= i < |a| ==> b[i] == a[i].(preferences := b[i].preferences)
  }

  /** Every situation comes from the one before by applying what `allocate` returned; page placement and free
      memory are arbitrary. */
  ghost predicate IsRun(run: seq<Situation>, nodeCpus: seq<set<nat>>, s: Settings) {
    && (forall k :: 0 <= k < |run| ==> Valid(run[k].tasks, PlatformOf(nodeCpus, run[k])))
    && (forall k :: 0 < k < |run| ==> Follows(run[k - 1], run[k], nodeCpus, s))
  }

  ghost predicate Follows(before: Situation, after: Situation, nodeCpus: seq<set<nat>>, s: Settings)
    requires Valid(before.tasks, PlatformOf(nodeCpus, before))
  {
    var r := Allocated(before.tasks, PlatformOf(nodeCpus, before), s);
    r.Ok? && SamePins(Applied(before.tasks, r.value), after.tasks)
  }

  lemma SameNode(t: Task, u: Task, p: Platform, q: Platform)
    requires t.cpus == u.cpus && t.memory == u.memory && p.nodeCpus == q.nodeCpus
    ensures Eligible(t, p) <==> Eligible(u, q)
  {
    hide ListFormat.Decode;
  }

  lemma {:induction false} SameCount(a: seq<Task>, b: seq<Task>, p: Platform, q: Platform, k: nat)
    requires SamePins(a, b) && k <= |a| && p.nodeCpus == q.nodeCpus
    ensures CountEligible(a, k, p) == CountEligible(b, k, q)
  {
    hide Eligible;
    if k > 0 {
      SameCount(a, b, p, q, k - 1);
      SameNode(a[k - 1], b[k - 1], p, q);
    }
  }

  /** A round takes one task off those to pin, as long as there are any. */
  lemma RoundCounts(before: Situation, after: Situation, nodeCpus: seq<set<nat>>, s: Settings)
    requires Valid(before.tasks, PlatformOf(nodeCpus, before)) && DistinctNodes(PlatformOf(nodeCpus, before)) && !s.dryrun
    requires Follows(before, after, nodeCpus, s)
    ensures |after.tasks| == |before.tasks|
    ensures var n := CountEligible(before.tasks, |before.tasks|, PlatformOf(nodeCpus, before));
      CountEligible(after.tasks, |after.tasks|, PlatformOf(nodeCpus, after)) == if n == 0 then 0 else n - 1
  {
    hide Allocated;
    hide Eligible;
    hide PinnedOne;
    hide Applied;
    hide CountEligible;
    hide BestNode;
    var p := PlatformOf(nodeCpus, before);
    var applied := Applied(before.tasks, Allocated(before.tasks, p, s).value);
    var c, node := RoundPinsOne(before.tasks, p, s);
    NoneEligible(before.tasks, |before.tasks|, p);
    SameCount(applied, after.tasks, p, PlatformOf(nodeCpus, after), |applied|);
    if CountEligible(before.tasks, |before.tasks|, p) > 0 {
      OneLess(before.tasks, applied, c, node, p, |applied|);
      PinnedIndex(before.tasks, applied, c, node, p);
    }
  }

  lemma PinnedIndex(tasks: seq<Task>, after: seq<Task>, c: nat, node: nat, p: Platform)
    requires PinnedOne(tasks, after, c, node, p)
    ensures c < |tasks|
  {
  }

  /** After k rounds, k fewer tasks are left to pin, down to none. */
  lemma {:induction false} PinningProgresses(run: seq<Situation>, nodeCpus: seq<set<nat>>, s: Settings, k: nat)
    requires IsRun(run, nodeCpus, s) && k < |run| && !s.dryrun && DistinctNodes(PlatformOf(nodeCpus, run[0]))
    ensures var n := CountEligible(run[0].tasks, |run[0].tasks|, PlatformOf(nodeCpus, run[0]));
      CountEligible(run[k].tasks, |run[k].tasks|, PlatformOf(nodeCpus, run[k])) == if k <= n then n - k else 0
  {
    hide Valid;
    hide Follows;
    hide CountEligible;
    if k > 0 {
      PinningProgresses(run, nodeCpus, s, k - 1);
      assert Follows(run[k - 1], run[k], nodeCpus, s);
      assert Valid(run[k - 1].tasks, PlatformOf(nodeCpus, run[k - 1]));
      RoundCounts(run[k - 1], run[k], nodeCpus, s);
    }
  }

  /** After as many rounds as there were tasks to pin, every task with memory is pinned. */
  lemma AllPinnedAtLast(run: seq<Situation>, nodeCpus: seq<set<nat>>, s: Settings, k: nat)
    requires IsRun(run, nodeCpus, s) && k < |run| && !s.dryrun && DistinctNodes(PlatformOf(nodeCpus, run[0]))
    requires k >= CountEligible(run[0].tasks, |run[0].tasks|, PlatformOf(nodeCpus, run[0]))
    ensures var p := PlatformOf(nodeCpus, run[k]);
      forall i :: 0 <= i < |run[k].tasks| && run[k].tasks[i].memory > 0 ==> PinnedOn(run[k].tasks[i], p).Some?
  {
    hide PinnedOn;
    PinningProgresses(run, nodeCpus, s, k);
    NoneEligible(run[k].tasks, |run[k].tasks|, PlatformOf(nodeCpus, run[k]));
    forall i | 0 <= i < |run[k].tasks| && run[k].tasks[i].memory > 0
      ensures PinnedOn(run[k].tasks[i], PlatformOf(nodeCpus, run[k])).Some?
    {
      assert !Eligible(run[k].tasks[i], PlatformOf(nodeCpus, run[k]));
    }
  }

  lemma RoundKeepsPinned(before: Situation, after: Situation, nodeCpus: seq<set<nat>>, s: Settings, i: nat)
    requires Valid(before.tasks, PlatformOf(nodeCpus, before)) && DistinctNodes(PlatformOf(nodeCpus, before)) && !s.dryrun
    requires Follows(before, after, nodeCpus, s) && i < |before.tasks|
    requires PinnedOn(before.tasks[i], PlatformOf(nodeCpus, before)).Some?
    ensures |after.tasks| == |before.tasks| && after.tasks[i].cpus == before.tasks[i].cpus
  {
    hide Allocated;
    hide PinnedOn;
    hide BestNode;
    hide CurrentNode;
    var p := PlatformOf(nodeCpus, before);
    var c, node := RoundPinsOne(before.tasks, p, s);
    assert !Eligible(before.tasks[i], p);
  }

  /** A pinned task is never pinned again: its cpus stay what they are. */
  lemma {:induction false} PinnedStays(run: seq<Situation>, nodeCpus: seq<set<nat>>, s: Settings, j: nat, k: nat, i: nat)
    requires IsRun(run, nodeCpus, s) && j <= k < |run| && !s.dryrun && DistinctNodes(PlatformOf(nodeCpus, run[0]))
    requires i < |run[j].tasks| && PinnedOn(run[j].tasks[i], PlatformOf(nodeCpus, run[j])).Some?
    ensures |run[k].tasks| == |run[j].tasks| && run[k].tasks[i].cpus == run[j].tasks[i].cpus
    ensures PinnedOn(run[k].tasks[i], PlatformOf(nodeCpus, run[k])) == PinnedOn(run[j].tasks[i], PlatformOf(nodeCpus, run[j]))
    decreases k - j
  {
    hide Valid;
    hide Follows;
    hide CurrentNode;
    if j < k {
      PinnedStays(run, nodeCpus, s, j, k - 1, i);
      assert Follows(run[k - 1], run[k], nodeCpus, s);
      assert Valid(run[k - 1].tasks, PlatformOf(nodeCpus, run[k - 1]));
      RoundKeepsPinned(run[k - 1], run[k], nodeCpus, s, i);
      SameText(run[k].tasks[i].cpus, PlatformOf(nodeCpus, run[k - 1]), PlatformOf(nodeCpus, run[k]));
    }
  }

  lemma SameText(cpus: string, p: Platform, q: Platform)
    requires p.nodeCpus == q.nodeCpus
    ensures CurrentNode(cpus, p) == CurrentNode(cpus, q)
  {
    hide ListFormat.Decode;
  }
}
