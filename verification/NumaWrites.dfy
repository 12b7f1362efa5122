/** Everything a round of the NUMA allocator writes, task by task: wca/extra/numa_allocator.py. */
module NumaWrites {
  import opened Dicts
  import ListFormat
  import opened Ordering
  import opened Numa

  /** The lowest-numbered node with the most free memory. */
  ghost predicate HasMostFree(p: Platform, n: nat) {
    && n < |p.free|
    && (forall j :: 0 <= j < |p.free| ==> p.free[j] <= p.free[n])
    && (forall j :: 0 <= j < n ==> p.free[j] < p.free[n])
  }

  lemma LeastUsedHasMostFree(p: Platform)
    requires |p.free| > 0
    ensures HasMostFree(p, LeastUsedNode(p)) && forall n :: HasMostFree(p, n) ==> n == LeastUsedNode(p)
  {
    var key := (x: int) => x;
    var least := FirstMax(p.free, key);
    assert forall j :: 0 <= j < |p.free| ==> key(p.free[j]) <= key(p.free[least]);
    assert forall j :: 0 <= j < least ==> key(p.free[j]) < key(p.free[least]);
  }

  /** The task is pinned to the node with most free memory, fewer of its pages than wanted are there, and pages are moved. */
  ghost predicate GetsPages(t: Task, p: Platform, s: Settings, n: nat) {
    && s.migratePages && s.migratePagesMinTaskBalance.Some? && HasMostFree(p, n)
    && PinnedOn(t, p) == Some(n) && n < |t.preferences| && t.preferences[n] < s.migratePagesMinTaskBalance.value
  }

  /** What is written for a task that goes to a node: its cpus, the node for its memory and for its pages where asked for. */
  ghost predicate PinsTo(pin: Pin, node: nat, p: Platform, s: Settings)
    requires node < |p.nodeCpus|
  {
    && pin.cpus.Some? && ListFormat.Decode(pin.cpus.value) == Ok(ListFormat.Integers(p.nodeCpus[node]))
    && (pin.mems.Some? <==> s.cgroupsMemoryBinding)
    && (pin.mems.Some? ==> ListFormat.Decode(pin.mems.value) == Ok({node as int}))
    && pin.migratePages == (if s.migratePages then Some(node) else None)
  }

  lemma PinToPins(node: nat, p: Platform, s: Settings)
    requires node < |p.nodeCpus|
    ensures PinsTo(PinTo(node, p, s), node, p, s)
  {
    hide ListFormat.Decode;
    hide ListFormat.Encode;
    ListFormat.DecodeOfEncode(p.nodeCpus[node]);
    ListFormat.DecodeOfEncode({node});
    assert ListFormat.Integers({node}) == {node as int} by { OneInteger(node); }
  }

  lemma OneInteger(node: nat)
    ensures ListFormat.Integers({node}) == {node as int}
  {
  }

  /** Moving pages adds the node to what is written for the unbalanced tasks. */
  lemma {:induction false} RemigratedAt(a: Allocations, tasks: seq<Task>, k: nat, p: Platform, least: nat, balance: real,
                                        id: string)
    requires k <= |tasks|
    ensures var r := Remigrated(a, tasks, k, p, least, balance);
      if IsUnbalancedAmong(tasks, k, p, least, balance, id)
      then id in r && r[id] == (if id in a then a[id] else Pin(None, None, None)).(migratePages := Some(least))
      else (id in r <==> id in a) && (id in a ==> r[id] == a[id])
  {
    hide IsUnbalanced;
    if k > 0 {
      RemigratedAt(a, tasks, k - 1, p, least, balance, id);
      if tasks[k - 1].id == id && IsUnbalanced(tasks[k - 1], p, least, balance) {
        assert IsUnbalancedAmong(tasks, k, p, least, balance, id);
      } else {
        assert IsUnbalancedAmong(tasks, k, p, least, balance, id) <==> IsUnbalancedAmong(tasks, k - 1, p, least, balance, id);
      }
    }
  }

  lemma UnbalancedIff(tasks: seq<Task>, p: Platform, s: Settings, i: nat)
    requires Valid(tasks, p) && i < |tasks| && s.migratePages && s.migratePagesMinTaskBalance.Some?
    ensures var sorted, least := BiggestFirst(tasks), LeastUsedNode(p);
      IsUnbalancedAmong(sorted, |sorted|, p, least, s.migratePagesMinTaskBalance.value, tasks[i].id) <==>
        exists n :: GetsPages(tasks[i], p, s, n)
  {
    hide PinnedOn;
    hide HasMostFree;
    var sorted, least, balance := BiggestFirst(tasks), LeastUsedNode(p), s.migratePagesMinTaskBalance.value;
    LeastUsedHasMostFree(p);
    SortedSame(tasks, Larger);
    if IsUnbalancedAmong(sorted, |sorted|, p, least, balance, tasks[i].id) {
      var j :| 0 <= j < |sorted| && sorted[j].id == tasks[i].id && IsUnbalanced(sorted[j], p, least, balance);
      assert sorted[j] in sorted;
      var l :| 0 <= l < |tasks| && tasks[l] == sorted[j];
      assert l == i;
      assert GetsPages(tasks[i], p, s, least);
    }
    if n :| GetsPages(tasks[i], p, s, n) {
      assert tasks[i] in sorted;
      var j :| 0 <= j < |sorted| && sorted[j] == tasks[i];
      assert IsUnbalanced(sorted[j], p, least, balance);
    }
  }

  /** A task that is not chosen has its pages moved or nothing written at all. */
  ghost predicate WritesPagesOnly(a: Allocations, t: Task, p: Platform, s: Settings) {
    if exists n: nat :: GetsPages(t, p, s, n)
    then exists n: nat :: GetsPages(t, p, s, n) && t.id in a && a[t.id] == Pin(None, None, Some(n))
    else t.id !in a
  }

  lemma OthersGetPages(tasks: seq<Task>, p: Platform, s: Settings, a: Allocations, i: nat)
    requires Valid(tasks, p) && i < |tasks| && tasks[i].id !in a
    ensures var sorted := BiggestFirst(tasks);
      var r := if s.migratePages && s.migratePagesMinTaskBalance.Some?
               then Remigrated(a, sorted, |sorted|, p, LeastUsedNode(p), s.migratePagesMinTaskBalance.value) else a;
      WritesPagesOnly(r, tasks[i], p, s)
  {
    hide PinnedOn;
    if s.migratePages && s.migratePagesMinTaskBalance.Some? {
      var sorted := BiggestFirst(tasks);
      LeastUsedHasMostFree(p);
      UnbalancedIff(tasks, p, s, i);
      RemigratedAt(a, sorted, |sorted|, p, LeastUsedNode(p), s.migratePagesMinTaskBalance.value, tasks[i].id);
    }
  }

  lemma ChosenGetsNoPages(t: Task, p: Platform, s: Settings)
    requires Eligible(t, p)
    ensures forall n :: !GetsPages(t, p, s, n)
  {
    hide PinnedOn;
  }

  /** A round writes the node for the chosen task, moves the pages of pinned tasks that have too few on the emptiest node, and
      writes nothing for the others. */
  lemma RoundWrites(tasks: seq<Task>, p: Platform, s: Settings) returns (c: nat, node: nat)
    requires Valid(tasks, p) && DistinctNodes(p) && !s.dryrun && Allocated(tasks, p, s).Ok?
    ensures var a := Allocated(tasks, p, s).value;
      if forall i :: 0 <= i < |tasks| ==> !Eligible(tasks[i], p)
      then forall i :: 0 <= i < |tasks| ==> WritesPagesOnly(a, tasks[i], p, s)
      else
        && c < |tasks| && node < |p.nodeCpus| && Eligible(tasks[c], p)
        && (forall i :: 0 <= i < |tasks| && Eligible(tasks[i], p) ==> tasks[i].memory <= tasks[c].memory)
        && node == BestNodeOf(tasks[c], BiggestFirst(tasks), p)
        && tasks[c].id in a && PinsTo(a[tasks[c].id], node, p, s)
        && forall i :: 0 <= i < |tasks| && i != c ==> WritesPagesOnly(a, tasks[i], p, s)
  {
    hide Eligible;
    hide PinTo;
    hide BestNodeOf;
    hide PinsTo;
    hide WritesPagesOnly;
    hide Remigrated;
    hide Readable;
    var sorted := BiggestFirst(tasks);
    ChosenIsBiggest(tasks, p);
    var chosen := FirstEligible(sorted, p);
    c, node := 0, 0;
    var base := Pinned(sorted, p, s);
    if chosen.Some? {
      c :| 0 <= c < |tasks| && tasks[c] == sorted[chosen.value];
      HasMemory(tasks[c], p);
      node := BestNodeOf(tasks[c], sorted, p);
      assert base == map[tasks[c].id := PinTo(node, p, s)];
      PinToPins(node, p, s);
      ChosenIsNotMoved(tasks, p, s, c, base);
    }
    forall i | 0 <= i < |tasks| && !(chosen.Some? && i == c)
      ensures WritesPagesOnly(Allocated(tasks, p, s).value, tasks[i], p, s)
    {
      assert chosen.Some? ==> tasks[i].id != tasks[c].id by {
        if chosen.Some? { assert if i < c then tasks[i].id != tasks[c].id else tasks[c].id != tasks[i].id; }
      }
      OthersGetPages(tasks, p, s, base, i);
    }
  }

  lemma ChosenIsNotMoved(tasks: seq<Task>, p: Platform, s: Settings, c: nat, a: Allocations)
    requires Valid(tasks, p) && c < |tasks| && tasks[c].id in a && Eligible(tasks[c], p)
    ensures var sorted := BiggestFirst(tasks);
      s.migratePages && s.migratePagesMinTaskBalance.Some? ==>
        var r := Remigrated(a, sorted, |sorted|, p, LeastUsedNode(p), s.migratePagesMinTaskBalance.value);
        tasks[c].id in r && r[tasks[c].id] == a[tasks[c].id]
  {
    hide PinnedOn;
    if s.migratePages && s.migratePagesMinTaskBalance.Some? {
      var sorted := BiggestFirst(tasks);
      ChosenGetsNoPages(tasks[c], p, s);
      UnbalancedIff(tasks, p, s, c);
      RemigratedAt(a, sorted, |sorted|, p, LeastUsedNode(p), s.migratePagesMinTaskBalance.value, tasks[c].id);
    }
  }

  // ----- Which of equals -----

  /** Of equally big tasks to pin, the first listed is taken. */
  lemma FirstOfBiggest(tasks: seq<Task>, p: Platform, i: nat, j: nat)
    requires Valid(tasks, p) && i < j < |tasks| && Eligible(tasks[i], p) && tasks[i].memory >= tasks[j].memory
    ensures var sorted := BiggestFirst(tasks);
      FirstEligible(sorted, p).Some? && sorted[FirstEligible(sorted, p).value] != tasks[j]
  {
    hide Eligible;
    var sorted := BiggestFirst(tasks);
    LargerIsTotal();
    SortedIsStable(tasks, Larger);
    SortedSame(tasks, Larger);
    ChosenIsBiggest(tasks, p);
    assert tasks[i] in sorted && tasks[j] in sorted;
    var k :| 0 <= k < |sorted| && sorted[k] == tasks[i];
    var c := FirstEligible(sorted, p).value;
    assert c <= k;
    ListedInOrder(tasks, j, i);
    SameTask(tasks, i, j);
    assert c < k ==> Larger(sorted[k], sorted[c]) ==> ListedBefore(tasks, sorted[c], sorted[k]);
  }

  lemma SameTask(tasks: seq<Task>, i: nat, j: nat)
    requires i < |tasks| && j < |tasks| && forall k, l :: 0 <= k < l < |tasks| ==> tasks[k].id != tasks[l].id
    ensures tasks[i] == tasks[j] ==> i == j
  {
    assert i < j ==> tasks[i].id != tasks[j].id;
    assert j < i ==> tasks[j].id != tasks[i].id;
  }

  lemma ListedInOrder(tasks: seq<Task>, i: nat, j: nat)
    requires i < |tasks| && j < |tasks| && forall k, l :: 0 <= k < l < |tasks| ==> tasks[k].id != tasks[l].id
    ensures ListedBefore(tasks, tasks[i], tasks[j]) ==> i < j
  {
    if ListedBefore(tasks, tasks[i], tasks[j]) {
      var l, m :| 0 <= l < m < |tasks| && tasks[l] == tasks[i] && tasks[m] == tasks[j];
      SameTask(tasks, l, i);
      SameTask(tasks, m, j);
    }
  }

  /** Rounding to four digits can hide a difference: a task of size one against 4999, 4166 and 3700. */
  lemma RoundingMayPreferMore()
    ensures Numa.Score(1, 4999) == Numa.Score(1, 4166) == 2 && Numa.Score(1, 3700) == 3
  {
  }

  // ----- How the pinned memory grows -----

  lemma {:induction false} PinnedMemoryGrows(tasks: seq<Task>, after: seq<Task>, c: nat, node: nat, p: Platform, k: nat, n: nat)
    requires PinnedOne(tasks, after, c, node, p) && k <= |tasks|
    ensures PinnedMemory(after, k, p, n) == PinnedMemory(tasks, k, p, n) + if c < k && n == node then tasks[c].memory else 0
  {
    hide CurrentNode;
    if k > 0 {
      PinnedMemoryGrows(tasks, after, c, node, p, k - 1, n);
    }
  }

  /** A round adds the memory of the task it pins to its node, and nothing to any other node. */
  lemma RoundAddsMemory(tasks: seq<Task>, p: Platform, s: Settings, n: nat) returns (c: nat, node: nat)
    requires Valid(tasks, p) && DistinctNodes(p) && !s.dryrun && Allocated(tasks, p, s).Ok?
    requires exists i :: 0 <= i < |tasks| && Eligible(tasks[i], p)
    ensures c < |tasks| && Eligible(tasks[c], p)
    ensures var after := Applied(tasks, Allocated(tasks, p, s).value);
      PinnedMemory(after, |after|, p, n) == PinnedMemory(tasks, |tasks|, p, n) + if n == node then tasks[c].memory else 0
  {
    hide Allocated;
    hide Eligible;
    hide BestNode;
    hide PinnedMemory;
    c, node := RoundPinsOne(tasks, p, s);
    PinnedMemoryGrows(tasks, Applied(tasks, Allocated(tasks, p, s).value), c, node, p, |tasks|, n);
  }

  /** Without pinned tasks no memory is pinned. */
  lemma {:induction false} NothingPinned(tasks: seq<Task>, p: Platform, k: nat, n: nat)
    requires k <= |tasks| && forall i :: 0 <= i < k ==> PinnedOn(tasks[i], p) != Some(n)
    ensures PinnedMemory(tasks, k, p, n) == 0
  {
    hide PinnedOn;
    if k > 0 {
      NothingPinned(tasks, p, k - 1, n);
    }
  }

  /** A dry run writes nothing; cpus that cannot be read stop the round. */
  lemma DryRunWritesNothing(tasks: seq<Task>, p: Platform, s: Settings)
    requires Valid(tasks, p) && s.dryrun
    ensures Allocated(tasks, p, s) ==
      if forall i :: 0 <= i < |tasks| ==> ListFormat.Decode(tasks[i].cpus).Ok? then Ok(map[]) else Failed(ValueError)
  {
    hide ListFormat.Decode;
    var sorted := BiggestFirst(tasks);
    SortedSame(tasks, Larger);
    forall i | 0 <= i < |tasks| ensures tasks[i] in sorted {
      assert tasks[i] in tasks;
    }
    forall i | 0 <= i < |sorted| ensures sorted[i] in tasks {
      assert sorted[i] in sorted;
    }
  }
}
