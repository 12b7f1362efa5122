/** The containers of the discovered tasks, wca/containers.py: created, kept, refreshed and cleaned up in every
    round. A container counts how often the perf counters of each of its (sub-)containers were closed. */
module Containers {
  import opened Dicts

  /** What node discovery says about a task. Tasks of one discovery differ in identifier and in cgroup path. */
  datatype Task = Task(id: string, cgroupPath: string, subcgroupsPaths: seq<string>)

  ghost predicate Unique(tasks: seq<Task>) {
    forall i, j :: 0 <= i < j < |tasks| ==> tasks[i].id != tasks[j].id && tasks[i].cgroupPath != tasks[j].cgroupPath
  }

  lemma SameIndex(tasks: seq<Task>, i: nat, j: nat)
    requires Unique(tasks) && i < |tasks| && j < |tasks|
    ensures tasks[i].cgroupPath == tasks[j].cgroupPath ==> i == j
  {
    assert i < j ==> tasks[i].cgroupPath != tasks[j].cgroupPath;
    assert j < i ==> tasks[j].cgroupPath != tasks[i].cgroupPath;
  }

  function Elements(s: seq<string>): (r: set<string>)
    ensures forall x :: x in r <==> x in s
  {
    set x | x in s
  }

  ghost predicate Named(path: string, tasks: seq<Task>) {
    exists i :: 0 <= i < |tasks| && tasks[i].cgroupPath == path
  }

  // ----- One container -----

  /** A container, or a set of sub-containers when the task has sub-cgroups. */
  class Container {
    const cgroupPath: string
    const subcgroups: set<string>
    /** Whether the platform has RDT. */
    const rdt: bool
    /** How often each opened counter was closed, and the control groups the container was removed from. */
    var closings: seq<nat>
    var removedFrom: seq<string>
    var resgroup: Option<string>

    ghost predicate ClosedTimes(n: nat)
      reads this
    {
      && 0 < |closings| && (forall i :: 0 <= i < |closings| ==> closings[i] == n)
      && removedFrom == if n > 0 && rdt && resgroup.Some? then [resgroup.value] else []
    }

    constructor (task: Task, rdt: bool)
      ensures this.rdt == rdt && cgroupPath == task.cgroupPath && subcgroups == Elements(task.subcgroupsPaths)
      ensures ClosedTimes(0) && |closings| == if subcgroups == {} then 1 else |subcgroups|
      ensures resgroup == None
    {
      cgroupPath, subcgroups, resgroup := task.cgroupPath, Elements(task.subcgroupsPaths), None;
      this.rdt, removedFrom := rdt, [];
      var n := if Elements(task.subcgroupsPaths) == {} then 1 else |Elements(task.subcgroupsPaths)|;
      closings := seq(n, _ => 0);
    }

    /** `cleanup`: every counter is closed, and with RDT the container is removed from the group it is in. */
    method Cleanup()
      modifies this`closings, this`removedFrom
      ensures |closings| == |old(closings)|
      ensures forall i :: 0 <= i < |closings| ==> closings[i] == old(closings[i]) + 1
      ensures removedFrom == old(removedFrom) + if rdt && resgroup.Some? then [resgroup.value] else []
    {
      var k := 0;
      while k < |closings|
        invariant k <= |closings| == |old(closings)| && removedFrom == old(removedFrom)
        invariant forall i :: 0 <= i < |closings| ==> closings[i] == old(closings[i]) + if i < k then 1 else 0
      {
        closings := closings[k := closings[k] + 1];
        k := k + 1;
      }
      assert removedFrom + [] == removedFrom;
      if rdt && resgroup.Some? {
        removedFrom := removedFrom + [resgroup.value];
      }
    }

    method SetResgroup(name: string)
      modifies this`resgroup
      ensures resgroup == Some(name)
    {
      resgroup := Some(name);
    }
  }

  /** Among the tasks `keys` with their containers `values`, `c` belongs to the cgroup of `t`. */
  ghost predicate Matches(keys: seq<Task>, values: seq<Container>, c: Container, t: Task) {
    exists i :: 0 <= i < |keys| == |values| && keys[i].cgroupPath == t.cgroupPath && values[i] == c
  }

  /** The container has the sub-cgroups of the task. */
  predicate Fits(c: Container, t: Task) { Elements(t.subcgroupsPaths) == c.subcgroups }

  /** A known task and its container, seen again with the same cgroup path and the same sub-cgroups. */
  ghost predicate Unchanged(known: Task, c: Container, t: Task) { t.cgroupPath == known.cgroupPath && Fits(c, t) }

  /** What became of the container `was` of a task that is up to date now. */
  ghost predicate Refreshed(c: Container, t: Task, was: Container) { Fits(c, t) && (Fits(was, t) ==> c == was) }

  /** Every task that did not change since `known` still has the container object it had. */
  ghost predicate SameWhereUnchanged(known: seq<Task>, containers: seq<Container>, keys: seq<Task>, values: seq<Container>) {
    forall i, j :: 0 <= i < |keys| == |values| && 0 <= j < |known| == |containers| ==>
      Unchanged(known[j], containers[j], keys[i]) ==> values[i] == containers[j]
  }

  /** The container matched to an unchanged task is the one it had. */
  lemma StillTheSame(known: seq<Task>, containers: seq<Container>, t: Task, c: Container, j: nat)
    requires |known| == |containers| && Unique(known) && j < |known| && Unchanged(known[j], containers[j], t)
    requires Matches(known, containers, c, t)
    ensures c == containers[j] && Fits(c, t)
  {
    var m :| 0 <= m < |known| == |containers| && known[m].cgroupPath == t.cgroupPath && containers[m] == c;
    SameIndex(known, m, j);
  }

  lemma AllFit(known: seq<Task>, containers: seq<Container>, keys: seq<Task>, updated: seq<Container>, values: seq<Container>)
    requires |known| == |containers| && Unique(known) && |keys| == |updated| == |values|
    requires forall i :: 0 <= i < |keys| ==> Named(keys[i].cgroupPath, known) ==> Matches(known, containers, updated[i], keys[i])
    requires forall i :: 0 <= i < |keys| ==> Refreshed(values[i], keys[i], updated[i])
    ensures forall i :: 0 <= i < |keys| ==> Fits(values[i], keys[i])
    ensures SameWhereUnchanged(known, containers, keys, values)
  {
    hide Matches;
    hide Fits;
    forall i, j | 0 <= i < |keys| && 0 <= j < |known| && Unchanged(known[j], containers[j], keys[i])
      ensures values[i] == containers[j]
    {
      assert Named(keys[i].cgroupPath, known);
      StillTheSame(known, containers, keys[i], updated[i], j);
    }
  }

  /** The same in terms of the sub-cgroups alone. */
  lemma SubcgroupsAre(known: seq<Task>, containers: seq<Container>, keys: seq<Task>, values: seq<Container>)
    requires |keys| == |values| && |known| == |containers|
    requires forall i :: 0 <= i < |keys| ==> Fits(values[i], keys[i])
    requires SameWhereUnchanged(known, containers, keys, values)
    ensures forall i :: 0 <= i < |keys| ==> forall x :: x in values[i].subcgroups <==> x in keys[i].subcgroupsPaths
    ensures forall i, j :: 0 <= i < |keys| && 0 <= j < |known| ==>
      keys[i].cgroupPath == known[j].cgroupPath ==>
      (forall x :: x in keys[i].subcgroupsPaths <==> x in containers[j].subcgroups) ==>
      values[i] == containers[j]
  {
    forall i, j | 0 <= i < |keys| && 0 <= j < |known| && keys[i].cgroupPath == known[j].cgroupPath
      && (forall x :: x in keys[i].subcgroupsPaths <==> x in containers[j].subcgroups)
      ensures values[i] == containers[j]
    {
      assert Elements(keys[i].subcgroupsPaths) == containers[j].subcgroups;
      assert Unchanged(known[j], containers[j], keys[i]);
    }
  }

  // ----- The manager -----

  class ContainerManager {
    const rdt: bool
    /** The dictionary from tasks to containers, in insertion order. */
    var keys: seq<Task>
    var values: seq<Container>
    /** Every container ever created. */
    ghost var created: set<Container>

    /** Every created container is live and open, or gone, closed exactly once and removed from its group exactly once. */
    ghost predicate Valid()
      reads this, created
    {
      && |keys| == |values| && Unique(keys)
      && (forall i :: 0 <= i < |values| ==> values[i] in created && values[i].cgroupPath == keys[i].cgroupPath)
      && (forall c :: c in created ==> c.ClosedTimes(if c in values then 0 else 1))
    }

    ghost predicate Knows(path: string)
      reads this
    {
      exists i :: 0 <= i < |keys| && keys[i].cgroupPath == path
    }

    constructor (rdt: bool)
      ensures Valid() && this.rdt == rdt && keys == [] && values == [] && created == {}
    {
      this.rdt := rdt;
      keys, values, created := [], [], {};
    }

    method FindKey(path: string) returns (r: Option<nat>)
      requires |keys| == |values|
      ensures r.Some? ==> r.value < |keys| && keys[r.value].cgroupPath == path
      ensures r.None? ==> !Knows(path)
    {
      r := None;
      var k := 0;
      while k < |keys| && r.None?
        invariant k <= |keys|
        invariant r.Some? ==> r.value < |keys| && keys[r.value].cgroupPath == path
        invariant r.None? ==> forall i :: 0 <= i < k ==> keys[i].cgroupPath != path
      {
        if keys[k].cgroupPath == path {
          r := Some(k);
        }
        k := k + 1;
      }
    }

    /** The first half of `_find_new_and_dead_tasks`. */
    method FindNewTasks(tasks: seq<Task>) returns (newTasks: seq<Task>)
      requires Valid() && Unique(tasks)
      ensures Unique(newTasks)
      ensures forall t :: t in newTasks <==> t in tasks && !Knows(t.cgroupPath)
    {
      newTasks := [];
      for k := 0 to |tasks|
        invariant Unique(newTasks)
        invariant forall t :: t in newTasks <==> t in tasks[..k] && !Knows(t.cgroupPath)
      {
        var i := FindKey(tasks[k].cgroupPath);
        ghost var before := newTasks;
        if i.None? {
          forall j | 0 <= j < |newTasks|
            ensures newTasks[j].id != tasks[k].id && newTasks[j].cgroupPath != tasks[k].cgroupPath
          {
            assert newTasks[j] in tasks[..k];
          }
          newTasks := newTasks + [tasks[k]];
        }
        assert tasks[..k + 1] == tasks[..k] + [tasks[k]];
      }
      assert tasks[..|tasks|] == tasks;
    }

    /** The containers whose cgroup is gone are closed among the first `k`, all others are open. */
    ghost predicate OrphansClosed(tasks: seq<Task>, k: nat)
      reads this, created
      requires Shaped()
    {
      && (forall i :: 0 <= i < |values| ==>
            values[i].ClosedTimes(if i < k && !Named(values[i].cgroupPath, tasks) then 1 else 0))
      && (forall c :: c in created && c !in values ==> c.ClosedTimes(1))
    }

    method CloseOrphan(tasks: seq<Task>, k: nat)
      requires Shaped() && k < |values| && OrphansClosed(tasks, k)
      modifies values[k]
      ensures Shaped() && OrphansClosed(tasks, k + 1)
    {
      hide Named;
      ValuesDiffer(k);
      var named := HasPath(tasks, values[k].cgroupPath);
      if !named {
        values[k].Cleanup();
      }
    }

    /** Cleans up the containers whose cgroup is gone. */
    method CloseOrphans(tasks: seq<Task>)
      requires Valid()
      modifies created
      ensures keys == old(keys) && values == old(values) && created == old(created)
      ensures forall i :: 0 <= i < |values| ==> values[i].ClosedTimes(if Named(values[i].cgroupPath, tasks) then 0 else 1)
      ensures forall c :: c in created && c !in values ==> c.ClosedTimes(1)
    {
      hide Named;
      var k := 0;
      while k < |values|
        invariant k <= |values| && Shaped() && OrphansClosed(tasks, k)
      {
        CloseOrphan(tasks, k);
        k := k + 1;
      }
    }

    ghost predicate Shaped()
      reads this
    {
      && |keys| == |values| && Unique(keys)
      && (forall i :: 0 <= i < |values| ==> values[i] in created && values[i].cgroupPath == keys[i].cgroupPath)
    }

    lemma ValuesDiffer(k: nat)
      requires Shaped() && k < |values|
      ensures forall i :: 0 <= i < |values| && i != k ==> values[i] != values[k]
    {
      forall i | 0 <= i < |values| && i != k ensures values[i] != values[k] {
        SameIndex(keys, i, k);
      }
    }

    method HasPath(tasks: seq<Task>, path: string) returns (r: bool)
      ensures r == Named(path, tasks)
    {
      r := false;
      var k := 0;
      while k < |tasks| && !r
        invariant k <= |tasks|
        invariant !r ==> forall i :: 0 <= i < k ==> tasks[i].cgroupPath != path
        invariant r ==> Named(path, tasks)
      {
        r := tasks[k].cgroupPath == path;
        k := k + 1;
      }
    }

    /** The discovered tasks that are known, each with its container. */
    method KeepKnown(tasks: seq<Task>) returns (kept: seq<Task>, containers: seq<Container>)
      requires Shaped() && Unique(tasks)
      ensures |kept| == |containers| && Unique(kept)
      ensures forall i :: 0 <= i < |kept| ==> kept[i] in tasks && Matches(keys, values, containers[i], kept[i])
      ensures forall t :: t in tasks && Knows(t.cgroupPath) ==> t in kept
    {
      kept, containers := [], [];
      for k := 0 to |tasks|
        invariant |kept| == |containers| && Unique(kept)
        invariant forall i :: 0 <= i < |kept| ==> kept[i] in tasks[..k] && Matches(keys, values, containers[i], kept[i])
        invariant forall j :: 0 <= j < k && Knows(tasks[j].cgroupPath) ==> tasks[j] in kept
      {
        var i := FindKey(tasks[k].cgroupPath);
        assert tasks[..k + 1] == tasks[..k] + [tasks[k]];
        if i.Some? {
          forall j | 0 <= j < |kept| ensures kept[j].id != tasks[k].id && kept[j].cgroupPath != tasks[k].cgroupPath {
            assert kept[j] in tasks[..k];
          }
          kept, containers := kept + [tasks[k]], containers + [values[i.value]];
        }
      }
    }

    /** Removes the containers of gone tasks and keeps the others, as the same objects. */
    method RemoveOrphans(tasks: seq<Task>)
      requires Valid() && Unique(tasks)
      modifies this`keys, this`values, created
      ensures Valid() && created == old(created)
      ensures forall i :: 0 <= i < |keys| ==> keys[i] in tasks && Matches(old(keys), old(values), values[i], keys[i])
      ensures forall t :: t in tasks && old(Knows(t.cgroupPath)) ==> t in keys
    {
      CloseOrphans(tasks);
      var kept, containers := KeepKnown(tasks);
      SurvivorsAreOpen(tasks, kept, containers);
      keys, values := kept, containers;
    }

    /** After the orphans were closed, the open containers are those of the kept tasks. */
    lemma SurvivorsAreOpen(tasks: seq<Task>, kept: seq<Task>, containers: seq<Container>)
      requires Shaped() && |kept| == |containers|
      requires forall i :: 0 <= i < |values| ==> values[i].ClosedTimes(if Named(values[i].cgroupPath, tasks) then 0 else 1)
      requires forall c :: c in created && c !in values ==> c.ClosedTimes(1)
      requires forall i :: 0 <= i < |kept| ==> kept[i] in tasks && Matches(keys, values, containers[i], kept[i])
      requires forall t :: t in tasks && Knows(t.cgroupPath) ==> t in kept
      ensures forall i :: 0 <= i < |containers| ==>
        containers[i] in created && containers[i].cgroupPath == kept[i].cgroupPath
      ensures forall c :: c in created ==> c.ClosedTimes(if c in containers then 0 else 1)
    {
      forall c | c in created ensures c.ClosedTimes(if c in containers then 0 else 1) {
        if c in containers {
          var i :| 0 <= i < |containers| && containers[i] == c;
          var j :| 0 <= j < |keys| && keys[j].cgroupPath == kept[i].cgroupPath && values[j] == c;
          assert Named(values[j].cgroupPath, tasks);
        } else if c in values {
          var j :| 0 <= j < |values| && values[j] == c;
          if Named(c.cgroupPath, tasks) {
            OpenIsKept(tasks, kept, containers, j);
          }
        }
      }
    }

    lemma OpenIsKept(tasks: seq<Task>, kept: seq<Task>, containers: seq<Container>, j: nat)
      requires Shaped() && |kept| == |containers| && j < |values| && Named(values[j].cgroupPath, tasks)
      requires forall i :: 0 <= i < |kept| ==> kept[i] in tasks && Matches(keys, values, containers[i], kept[i])
      requires forall t :: t in tasks && Knows(t.cgroupPath) ==> t in kept
      ensures values[j] in containers
    {
      var k :| 0 <= k < |tasks| && tasks[k].cgroupPath == values[j].cgroupPath;
      assert keys[j].cgroupPath == tasks[k].cgroupPath;
      assert tasks[k] in tasks && Knows(tasks[k].cgroupPath);
      var i :| 0 <= i < |kept| && kept[i] == tasks[k];
      var m :| 0 <= m < |keys| && keys[m].cgroupPath == kept[i].cgroupPath && values[m] == containers[i];
      SameIndex(keys, m, j);
    }

    /** A container for a new task. */
    method AddTask(task: Task)
      requires Valid() && !Knows(task.cgroupPath)
      requires forall i :: 0 <= i < |keys| ==> keys[i].id != task.id
      modifies this`keys, this`values, this`created
      ensures Valid() && keys == old(keys) + [task]
      ensures |values| == |old(values)| + 1 && values[..|old(values)|] == old(values)
      ensures fresh(values[|old(values)|]) && created == old(created) + {values[|old(values)|]}
      ensures values[|old(values)|].subcgroups == Elements(task.subcgroupsPaths)
    {
      var c := new Container(task, rdt);
      keys, values := keys + [task], values + [c];
      created := created + {c};
    }

    /** `_create_container` for every new task. */
    method AddTasks(tasks: seq<Task>)
      requires Valid() && Unique(tasks)
      requires forall i, j :: 0 <= i < |keys| && 0 <= j < |tasks| ==>
        keys[i].id != tasks[j].id && keys[i].cgroupPath != tasks[j].cgroupPath
      modifies this`keys, this`values, this`created
      ensures Valid() && keys == old(keys) + tasks
      ensures |values| >= |old(values)| && values[..|old(values)|] == old(values)
      ensures old(created) <= created && fresh(created - old(created))
      ensures forall i :: |old(values)| <= i < |values| ==> fresh(values[i])
    {
      hide Valid;
      for k := 0 to |tasks|
        invariant Valid() && keys == old(keys) + tasks[..k]
        invariant |values| >= |old(values)| && values[..|old(values)|] == old(values)
        invariant old(created) <= created && fresh(created - old(created))
        invariant forall i :: |old(values)| <= i < |values| ==> fresh(values[i])
      {
        forall i | 0 <= i < |keys| ensures keys[i].id != tasks[k].id && keys[i].cgroupPath != tasks[k].cgroupPath {
          if i < |old(keys)| {
            assert keys[i] == old(keys)[i];
          } else {
            assert keys[i] == tasks[i - |old(keys)|];
          }
        }
        AddTask(tasks[k]);
        assert tasks[..k + 1] == tasks[..k] + [tasks[k]];
      }
      assert tasks[..|tasks|] == tasks;
    }

    /** Cleans up a container and creates another one in its place. */
    method Recreate(k: nat)
      requires Valid() && k < |keys|
      modifies this`values, this`created, created
      ensures Valid() && created == old(created) + {values[k]} && fresh(values[k])
      ensures values == old(values)[k := values[k]]
      ensures Fits(values[k], keys[k])
    {
      ValuesDiffer(k);
      values[k].Cleanup();
      var c := new Container(keys[k], rdt);
      values := values[k := c];
      created := created + {c};
    }

    method RefreshTask(k: nat)
      requires Valid() && k < |keys|
      modifies this`values, this`created, created
      ensures Valid() && old(created) <= created && fresh(created - old(created))
      ensures values == old(values)[k := values[k]] && Refreshed(values[k], keys[k], old(values)[k])
      ensures values[k] == old(values)[k] || fresh(values[k])
    {
      if !Fits(values[k], keys[k]) {
        Recreate(k);
      }
    }

    /** Containers whose sub-cgroups changed are recreated; the others stay the same objects. */
    method Refresh()
      requires Valid()
      modifies this`values, this`created, created
      ensures Valid() && old(created) <= created && fresh(created - old(created))
      ensures |values| == |old(values)|
      ensures forall i :: 0 <= i < |values| ==> Refreshed(values[i], keys[i], old(values)[i])
      ensures forall i :: 0 <= i < |values| ==> values[i] == old(values)[i] || fresh(values[i])
    {
      hide Fits;
      hide Refreshed;
      ghost var was := values;
      assert |keys| == |values|;
      hide Valid;
      var k := 0;
      while k < |values|
        invariant Valid() && k <= |values| == |was| == |keys|
        invariant old(created) <= created && fresh(created - old(created))
        invariant forall i :: 0 <= i < k ==> Refreshed(values[i], keys[i], was[i])
        invariant forall i :: 0 <= i < |values| ==> values[i] == was[i] || fresh(values[i])
        invariant forall i :: k <= i < |values| ==> values[i] == was[i]
      {
        RefreshTask(k);
        k := k + 1;
      }
    }

    /** With RDT every container gets the control group its monitoring group was found in, or the root group; without
        RDT no group is set. */
    method AssignGroups(groups: map<string, string>)
      requires Valid()
      modifies values`resgroup
      ensures Valid()
      ensures forall i :: 0 <= i < |values| ==>
        values[i].resgroup ==
          if !rdt then old(values[i].resgroup)
          else if values[i].cgroupPath in groups then Some(groups[values[i].cgroupPath]) else Some("")
    {
      if rdt {
        var k := 0;
        while k < |values|
          invariant k <= |values|
          invariant forall c :: c in created ==> c.ClosedTimes(if c in values then 0 else 1)
          invariant forall i :: 0 <= i < k ==>
            values[i].resgroup == if values[i].cgroupPath in groups then Some(groups[values[i].cgroupPath]) else Some("")
        {
          ValuesDiffer(k);
          values[k].SetResgroup(if values[k].cgroupPath in groups then groups[values[k].cgroupPath] else "");
          k := k + 1;
        }
      }
    }

    lemma NewTasksDiffer(kept: seq<Task>, tasks: seq<Task>, newTasks: seq<Task>, known: seq<Task>)
      requires Unique(tasks)
      requires forall i :: 0 <= i < |kept| ==> kept[i] in tasks && Named(kept[i].cgroupPath, known)
      requires forall j :: 0 <= j < |newTasks| ==> newTasks[j] in tasks && !Named(newTasks[j].cgroupPath, known)
      ensures forall i, j :: 0 <= i < |kept| && 0 <= j < |newTasks| ==>
        kept[i].id != newTasks[j].id && kept[i].cgroupPath != newTasks[j].cgroupPath
    {
      forall i, j | 0 <= i < |kept| && 0 <= j < |newTasks|
        ensures kept[i].id != newTasks[j].id && kept[i].cgroupPath != newTasks[j].cgroupPath
      {
        assert kept[i].cgroupPath != newTasks[j].cgroupPath;
        var m :| 0 <= m < |tasks| && tasks[m] == kept[i];
        var n :| 0 <= n < |tasks| && tasks[n] == newTasks[j];
        assert m < n ==> tasks[m].id != tasks[n].id;
        assert n < m ==> tasks[n].id != tasks[m].id;
      }
    }

    /** The first part of a round: afterwards there is a container for exactly the discovered tasks. */
    method UpdateTasks(tasks: seq<Task>)
      requires Valid() && Unique(tasks)
      modifies this, created
      ensures Valid() && old(created) <= created && fresh(created - old(created))
      ensures forall t :: t in keys <==> t in tasks
      ensures forall i :: 0 <= i < |keys| ==>
        if Named(keys[i].cgroupPath, old(keys)) then Matches(old(keys), old(values), values[i], keys[i]) else fresh(values[i])
    {
      var newTasks := FindNewTasks(tasks);
      ghost var known, containers := keys, values;
      RemoveOrphans(tasks);
      ghost var kept := |keys|;
      forall i | 0 <= i < |keys| ensures keys[i] in tasks && Named(keys[i].cgroupPath, known) {
        assert Matches(known, containers, values[i], keys[i]);
      }
      NewTasksDiffer(keys, tasks, newTasks, known);
      ghost var oldValues, oldKeys := values, keys;
      AddTasks(newTasks);
      forall i | 0 <= i < |keys|
        ensures if Named(keys[i].cgroupPath, known) then Matches(known, containers, values[i], keys[i]) else fresh(values[i])
      {
        if i < kept {
          assert keys[i] == oldKeys[i] && values[i] == values[..kept][i];
        } else {
          assert keys[i] == newTasks[i - kept];
        }
      }
      forall t | t in tasks ensures t in keys {
        assert t in oldKeys || t in newTasks;
      }
    }

    /** `sync_containers_state`: afterwards the tasks are exactly the discovered ones, every container has the
        cgroup path and the sub-cgroups of its task, a task that did not change has the same container object, and
        every container ever created is live and open or was closed exactly once. */
    method SyncContainersState(tasks: seq<Task>, groups: map<string, string>)
      requires Valid() && Unique(tasks)
      modifies this, created
      ensures Valid() && old(created) <= created && fresh(created - old(created))
      ensures forall t :: t in keys <==> t in tasks
      ensures forall i :: 0 <= i < |keys| ==> forall x :: x in values[i].subcgroups <==> x in keys[i].subcgroupsPaths
      ensures rdt ==> forall i :: 0 <= i < |keys| ==>
        values[i].resgroup == if values[i].cgroupPath in groups then Some(groups[values[i].cgroupPath]) else Some("")
      ensures forall i, j :: 0 <= i < |keys| && 0 <= j < |old(keys)| ==>
        keys[i].cgroupPath == old(keys)[j].cgroupPath ==>
        (forall x :: x in keys[i].subcgroupsPaths <==> x in old(values)[j].subcgroups) ==>
        values[i] == old(values)[j]
      ensures forall i :: 0 <= i < |keys| ==> fresh(values[i]) || Matches(old(keys), old(values), values[i], keys[i])
    {
      hide Fits;
      hide Refreshed;
      hide Matches;
      hide Named;
      hide SameWhereUnchanged;
      ghost var known, containers := keys, values;
      UpdateTasks(tasks);
      ghost var updated := values;
      Refresh();
      AssignGroups(groups);
      AllFit(known, containers, keys, updated, values);
      SubcgroupsAre(known, containers, keys, values);
    }

    /** `cleanup`: everything that was ever opened has been closed, once. */
    method Cleanup()
      requires Valid()
      modifies created
      ensures forall c :: c in created ==> c.ClosedTimes(1)
      ensures keys == old(keys) && values == old(values) && created == old(created)
    {
      var k := 0;
      while k < |values|
        invariant k <= |values|
        invariant forall i :: 0 <= i < |values| ==> values[i].ClosedTimes(if i < k then 1 else 0)
        invariant forall c :: c in created && c !in values ==> c.ClosedTimes(1)
      {
        ValuesDiffer(k);
        values[k].Cleanup();
        k := k + 1;
      }
    }
  }
}
