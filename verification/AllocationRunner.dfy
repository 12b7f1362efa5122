/** One round of the allocation loop, wca/runners/allocation.py: the request is built, validated, merged and
    performed, or refused as a whole. */
module AllocationRunner {
  import opened Dicts
  import opened AllocationValues
  import opened Allocations
  import opened AllocationValidation
  import opened AllocationWrites
  import Rdt

  /** What an allocator or a container returns: task, kind of allocation, value. */
  type Raw = Dict<string, Dict<string, AllocationValue>>

  ghost predicate ValidRaw(raw: Raw) { raw.Valid() && forall t :: t in raw.at ==> raw.at[t].Valid() }

  /** The surroundings of a round: the tasks with a container, the supported kinds of allocation, whether tasks
      of several Kubernetes classes run, the platform and its number of CLOSIDs. */
  datatype Context = Context(tasks: set<string>, kinds: set<string>, mixedQos: bool, p: Platform, closids: nat)

  const SHARES: string := "cpu_shares"

  // ----- TasksAllocationsValues.create -----

  /** The constructor of a value hands it the RDTGroups object of the call. */
  function Built(leaf: AllocationValue, c: Counter): Value { Leaf(if leaf.Rdt? then leaf.(counter := c) else leaf) }

  ghost function BuiltTask(task: Dict<string, AllocationValue>, k: nat, kinds: set<string>, c: Counter): Result<Dict<string, Value>>
    requires task.Valid() && k <= |task.keys|
  {
    if k == 0 then Ok(EmptyDict())
    else
      match BuiltTask(task, k - 1, kinds, c)
      case Failed(e) => Failed(e)
      case Ok(d) =>
        if task.keys[k - 1] !in kinds then Failed(InvalidAllocations)
        else Ok(d.Put(task.keys[k - 1], Built(task.at[task.keys[k - 1]], c)))
  }

  datatype Creation = Creation(result: Result<Dict<string, Value>>, groups: Groups)

  ghost function TaskCreated(task: Dict<string, AllocationValue>, x: Context, c: Counter, g: Groups): Creation
    requires task.Valid()
  {
    match BuiltTask(task, |task.keys|, x.kinds, c)
    case Failed(e) => Creation(Failed(e), g)
    case Ok(d) =>
      var v := Validated(Tree(d), x.p, x.closids, g);
      Creation(if v.result.Ok? then Ok(d) else Failed(v.result.error), v.groups)
  }

  ghost function Created(raw: Raw, k: nat, x: Context, c: Counter, g: Groups): Creation
    requires ValidRaw(raw) && k <= |raw.keys|
  {
    if k == 0 then Creation(Ok(EmptyDict()), g)
    else
      var before := Created(raw, k - 1, x, c, g);
      if before.result.Failed? then before
      else if raw.keys[k - 1] !in x.tasks then Creation(Failed(InvalidAllocations), before.groups)
      else
        var task := TaskCreated(raw.at[raw.keys[k - 1]], x, c, before.groups);
        Creation(if task.result.Failed? then task.result
                 else Ok(before.result.value.Put(raw.keys[k - 1], Tree(task.result.value))), task.groups)
  }

  lemma {:induction false} BuiltStops(task: Dict<string, AllocationValue>, j: nat, k: nat, kinds: set<string>, c: Counter)
    requires task.Valid() && j <= k <= |task.keys| && BuiltTask(task, j, kinds, c).Failed?
    ensures BuiltTask(task, k, kinds, c) == BuiltTask(task, j, kinds, c)
  {
    if j < k {
      BuiltStops(task, j, k - 1, kinds, c);
    }
  }

  lemma {:induction false} BuiltIsSane(task: Dict<string, AllocationValue>, k: nat, kinds: set<string>, c: Counter)
    requires task.Valid() && k <= |task.keys| && BuiltTask(task, k, kinds, c).Ok?
    ensures Sane(Tree(BuiltTask(task, k, kinds, c).value))
  {
    if k > 0 {
      BuiltIsSane(task, k - 1, kinds, c);
    }
  }

  method BuildTask(task: Dict<string, AllocationValue>, kinds: set<string>, c: Counter) returns (r: Result<Dict<string, Value>>)
    requires task.Valid()
    ensures r == BuiltTask(task, |task.keys|, kinds, c)
  {
    r := Ok(EmptyDict());
    var k := 0;
    while k < |task.keys| && r.Ok?
      invariant k <= |task.keys|
      invariant r == BuiltTask(task, k, kinds, c)
    {
      var kind := task.keys[k];
      assert kind in task.keys;
      r := if kind !in kinds then Failed(InvalidAllocations) else Ok(r.value.Put(kind, Built(task.at[kind], c)));
      k := k + 1;
    }
    if r.Failed? {
      BuiltStops(task, k, |task.keys|, kinds, c);
    }
  }

  method CreateTask(task: Dict<string, AllocationValue>, x: Context, c: Counter, ofRequest: RdtGroups, ofCurrent: RdtGroups,
                    ghost g: Groups)
    returns (r: Result<Dict<string, Value>>)
    requires task.Valid() && Counts(g, ofRequest, ofCurrent, x.closids)
    modifies ofRequest`existing, ofCurrent`existing
    ensures r == TaskCreated(task, x, c, g).result
    ensures Counts(TaskCreated(task, x, c, g).groups, ofRequest, ofCurrent, x.closids)
  {
    hide BuiltTask;
    hide Validated;
    r := BuildTask(task, x.kinds, c);
    if r.Ok? {
      BuiltIsSane(task, |task.keys|, x.kinds, c);
      var v := Validate(Tree(r.value), x.p, ofRequest, ofCurrent, g);
      r := if v.Ok? then r else Failed(v.error);
    }
  }

  lemma {:induction false} CreatedStops(raw: Raw, j: nat, k: nat, x: Context, c: Counter, g: Groups)
    requires ValidRaw(raw) && j <= k <= |raw.keys| && Created(raw, j, x, c, g).result.Failed?
    ensures Created(raw, k, x, c, g) == Created(raw, j, x, c, g)
  {
    hide TaskCreated;
    if j < k {
      CreatedStops(raw, j, k - 1, x, c, g);
    }
  }

  /** `TasksAllocationsValues.create`. */
  method Create(raw: Raw, x: Context, c: Counter, ofRequest: RdtGroups, ofCurrent: RdtGroups, ghost g: Groups)
    returns (r: Result<Dict<string, Value>>)
    requires ValidRaw(raw) && Counts(g, ofRequest, ofCurrent, x.closids)
    modifies ofRequest`existing, ofCurrent`existing
    ensures r == Created(raw, |raw.keys|, x, c, g).result
    ensures Counts(Created(raw, |raw.keys|, x, c, g).groups, ofRequest, ofCurrent, x.closids)
  {
    hide TaskCreated;
    r := Ok(EmptyDict());
    var k := 0;
    while k < |raw.keys| && r.Ok?
      invariant k <= |raw.keys|
      invariant r == Created(raw, k, x, c, g).result
      invariant Counts(Created(raw, k, x, c, g).groups, ofRequest, ofCurrent, x.closids)
    {
      var id := raw.keys[k];
      if id !in x.tasks {
        r := Failed(InvalidAllocations);
      } else {
        var task := CreateTask(raw.at[id], x, c, ofRequest, ofCurrent, Created(raw, k, x, c, g).groups);
        r := if task.Failed? then task else Ok(r.value.Put(id, Tree(task.value)));
      }
      k := k + 1;
    }
    if r.Failed? {
      CreatedStops(raw, k, |raw.keys|, x, c, g);
    }
  }

  // ----- The round -----

  /** Shares are refused while tasks of several Kubernetes classes run. */
  ghost predicate KubernetesRefuses(raw: Raw, x: Context)
    requires ValidRaw(raw)
  {
    x.mixedQos && exists i :: 0 <= i < |raw.keys| && SHARES in raw.at[raw.keys[i]].at
  }

  method CheckKubernetes(raw: Raw, x: Context) returns (refused: bool)
    requires ValidRaw(raw)
    ensures refused == KubernetesRefuses(raw, x)
  {
    refused := false;
    if x.mixedQos {
      var k := 0;
      while k < |raw.keys| && !refused
        invariant k <= |raw.keys|
        invariant !refused ==> forall i :: 0 <= i < k ==> SHARES !in raw.at[raw.keys[i]].at
        invariant refused ==> KubernetesRefuses(raw, x)
      {
        assert raw.keys[k] in raw.keys;
        refused := SHARES in raw.at[raw.keys[k]].at;
        k := k + 1;
      }
    }
  }

  /** How far the guarded part of the round got: its exception if any, and the values of the two variables. */
  datatype Attempt = Attempt(result: Result<()>, target: Value, changeset: Option<Value>)

  ghost function Merge(wanted: Value, current: Value, x: Context, g: Groups): Attempt {
    var v := Validated(wanted, x.p, x.closids, g);
    if v.result.Failed? then Attempt(v.result, current, None)
    else
      match ValueChange(wanted, current)
      case Failed(e) => Attempt(Failed(e), current, None)
      case Ok(c) => Attempt(Validated(c.target, x.p, x.closids, v.groups).result, c.target, c.changeset)
  }

  ghost function Attempted(wanted: Raw, current: Value, x: Context, g: Groups): Attempt
    requires ValidRaw(wanted)
  {
    if KubernetesRefuses(wanted, x) then Attempt(Failed(InvalidAllocations), current, None)
    else
      var c := Created(wanted, |wanted.keys|, x, OfRequest, g);
      match c.result
      case Failed(e) => Attempt(Failed(e), current, None)
      case Ok(d) => Merge(Tree(d), current, x, c.groups)
  }

  /** What a round does: it raises, or it reports a target and performs the changeset, if there is one. */
  datatype Outcome = Crashed(error: Error) | Finished(accepted: bool, target: Value, performed: Option<Value>)

  function Concluded(a: Attempt, current: Value): Outcome {
    if a.result.Ok? then Finished(true, a.target, a.changeset)
    else if a.result.error.InvalidAllocations? then Finished(false, current, a.changeset)
    else Crashed(a.result.error)
  }

  const NO_GROUPS: Groups := Groups({}, {})

  ghost function Round(wanted: Raw, current: Raw, x: Context): Outcome
    requires ValidRaw(wanted) && ValidRaw(current)
  {
    var c := Created(current, |current.keys|, x, OfCurrent, NO_GROUPS);
    match c.result
    case Failed(e) => Crashed(e)
    case Ok(d) => Concluded(Attempted(wanted, Tree(d), x, c.groups), Tree(d))
  }

  /** The schemata rows that performing a changeset writes. */
  function RowsWritten(changeset: Option<Value>, p: Platform): seq<Write> {
    if changeset.None? then [] else TraceOf(LeavesOf(changeset.value), p).writes
  }

  class AllocationRunner {
    var allocationsCounter: nat
    var allocationsErrors: nat
    /** The changesets performed so far, and the schemata rows written for them. */
    var performed: seq<Value>
    var written: seq<Write>

    constructor ()
      ensures allocationsCounter == 0 && allocationsErrors == 0 && performed == [] && written == []
    {
      allocationsCounter, allocationsErrors, performed, written := 0, 0, [], [];
    }

    /** Validates the request, merges it and validates the result. */
    method MergeRequest(wanted: Value, current: Value, x: Context, ofRequest: RdtGroups, ofCurrent: RdtGroups,
                        ghost g: Groups)
      returns (a: Attempt)
      requires Sane(wanted) && Sane(current) && Counts(g, ofRequest, ofCurrent, x.closids)
      modifies ofRequest`existing, ofCurrent`existing
      ensures a == Merge(wanted, current, x, g) && SaneOption(a.changeset)
    {
      hide Validated;
      hide ValueChange;
      var v := Validate(wanted, x.p, ofRequest, ofCurrent, g);
      if v.Failed? { return Attempt(v, current, None); }
      var change := CalculateChangeset(wanted, current);
      if change.Failed? { return Attempt(Failed(change.error), current, None); }
      TargetIsSane(wanted, current);
      ChangesetIsSane(wanted, current);
      v := Validate(change.value.target, x.p, ofRequest, ofCurrent, Validated(wanted, x.p, x.closids, g).groups);
      return Attempt(v, change.value.target, change.value.changeset);
    }

    method AttemptRequest(wanted: Raw, current: Value, x: Context, ofRequest: RdtGroups, ofCurrent: RdtGroups,
                          ghost g: Groups)
      returns (a: Attempt)
      requires ValidRaw(wanted) && Sane(current) && Counts(g, ofRequest, ofCurrent, x.closids)
      modifies ofRequest`existing, ofCurrent`existing
      ensures a == Attempted(wanted, current, x, g) && SaneOption(a.changeset)
    {
      hide Created;
      hide Merge;
      hide Sane;
      var refused := CheckKubernetes(wanted, x);
      if refused { return Attempt(Failed(InvalidAllocations), current, None); }
      var created := Create(wanted, x, OfRequest, ofRequest, ofCurrent, g);
      if created.Failed? { return Attempt(Failed(created.error), current, None); }
      CreatedIsSane(wanted, |wanted.keys|, x, OfRequest, g);
      a := MergeRequest(Tree(created.value), current, x, ofRequest, ofCurrent,
                        Created(wanted, |wanted.keys|, x, OfRequest, g).groups);
    }

    /** `_iterate_body`: the allocator's answer is `wanted`, the containers' allocations are `current`. */
    method IterateBody(wanted: Raw, current: Raw, x: Context) returns (r: Outcome)
      requires ValidRaw(wanted) && ValidRaw(current)
      modifies this
      ensures r == Round(wanted, current, x)
      ensures performed ==
        old(performed) + if r.Finished? && r.performed.Some? then [r.performed.value] else []
      ensures written == old(written) + if r.Finished? then RowsWritten(r.performed, x.p) else []
      ensures allocationsCounter ==
        old(allocationsCounter) + if r.Finished? && r.accepted then |wanted.keys| else 0
      ensures allocationsErrors == old(allocationsErrors) + if r.Finished? && !r.accepted then 1 else 0
    {
      hide Created;
      hide Attempted;
      hide Sane;
      hide LeavesOf;
      var ofRequest := new RdtGroups(x.closids);
      var ofCurrent := new RdtGroups(x.closids);
      var created := Create(current, x, OfCurrent, ofRequest, ofCurrent, NO_GROUPS);
      if created.Failed? { return Crashed(created.error); }
      CreatedIsSane(current, |current.keys|, x, OfCurrent, NO_GROUPS);
      var values := Tree(created.value);
      var a := AttemptRequest(wanted, values, x, ofRequest, ofCurrent, Created(current, |current.keys|, x, OfCurrent, NO_GROUPS).groups);
      if a.result.Failed? && !a.result.error.InvalidAllocations? { return Crashed(a.result.error); }
      var target := a.target;
      if a.result.Ok? {
        allocationsCounter := allocationsCounter + |wanted.keys|;
      } else {
        allocationsErrors := allocationsErrors + 1;
        target := values;
      }
      if a.changeset.Some? {
        assert [] + LeavesOf(a.changeset.value) == LeavesOf(a.changeset.value);
        var writes := PerformAllocations(a.changeset.value, x.p, ofRequest, ofCurrent, [], []);
        performed, written := performed + [a.changeset.value], written + writes;
      }
      r := Finished(a.result.Ok?, target, a.changeset);
    }
  }

  lemma TaskIsSane(task: Dict<string, AllocationValue>, x: Context, c: Counter, g: Groups)
    requires task.Valid() && TaskCreated(task, x, c, g).result.Ok?
    ensures Sane(Tree(TaskCreated(task, x, c, g).result.value))
  {
    hide Validated;
    hide Sane;
    BuiltIsSane(task, |task.keys|, x.kinds, c);
  }

  lemma PutIsSane(d: Dict<string, Value>, key: string, v: Value)
    requires Sane(Tree(d)) && Sane(v)
    ensures Sane(Tree(d.Put(key, v)))
  {
    var r := d.Put(key, v);
    assert d.Valid();
    forall k | k in r.at ensures Sane(r.at[k]) {
    }
  }

  lemma {:induction false} CreatedIsSane(raw: Raw, k: nat, x: Context, c: Counter, g: Groups)
    requires ValidRaw(raw) && k <= |raw.keys| && Created(raw, k, x, c, g).result.Ok?
    ensures Sane(Tree(Created(raw, k, x, c, g).result.value))
  {
    hide TaskCreated;
    hide Sane;
    if k > 0 {
      CreatedIsSane(raw, k - 1, x, c, g);
      var before := Created(raw, k - 1, x, c, g);
      var task := raw.at[raw.keys[k - 1]];
      TaskIsSane(task, x, c, before.groups);
      PutIsSane(before.result.value, raw.keys[k - 1], Tree(TaskCreated(task, x, c, before.groups).result.value));
    } else {
      NothingIsSane();
    }
  }

  lemma NothingIsSane()
    ensures Sane(Tree(EmptyDict()))
  {
  }

  // ----- Rounds are transactional -----

  lemma TaskHolds(task: Dict<string, AllocationValue>, x: Context, c: Counter, g: Groups)
    requires task.Valid() && WithinLimit(g, x.closids) && TaskCreated(task, x, c, g).result.Ok?
    ensures var d := TaskCreated(task, x, c, g);
      Holds(Tree(d.result.value), x.p, d.groups) && Grows(g, d.groups) && WithinLimit(d.groups, x.closids)
  {
    hide Validated;
    hide Sane;
    hide Holds;
    TaskIsSane(task, x, c, g);
    ValidatedHolds(Tree(TaskCreated(task, x, c, g).result.value), x.p, x.closids, g);
  }

  lemma PutHolds(d: Dict<string, Value>, key: string, v: Value, p: Platform, g: Groups)
    requires Holds(Tree(d), p, g) && Holds(v, p, g)
    ensures Holds(Tree(d.Put(key, v)), p, g)
  {
  }

  lemma {:induction false} CreatedHolds(raw: Raw, k: nat, x: Context, c: Counter, g: Groups)
    requires ValidRaw(raw) && k <= |raw.keys| && Created(raw, k, x, c, g).result.Ok? && WithinLimit(g, x.closids)
    ensures var r := Created(raw, k, x, c, g);
      Holds(Tree(r.result.value), x.p, r.groups) && Grows(g, r.groups) && WithinLimit(r.groups, x.closids)
  {
    hide TaskCreated;
    hide Holds;
    if k > 0 {
      CreatedHolds(raw, k - 1, x, c, g);
      var before := Created(raw, k - 1, x, c, g);
      var task := raw.at[raw.keys[k - 1]];
      var d := TaskCreated(task, x, c, before.groups);
      TaskHolds(task, x, c, before.groups);
      HoldsInMore(Tree(before.result.value), x.p, before.groups, d.groups);
      PutHolds(before.result.value, raw.keys[k - 1], Tree(d.result.value), x.p, d.groups);
    } else {
      NothingHolds(x.p, g);
    }
  }

  lemma NothingHolds(p: Platform, g: Groups)
    ensures Holds(Tree(EmptyDict()), p, g)
  {
  }

  /** Once the request is valid, neither of the two later validations can fail: the merge of two valid trees is
      valid, and its groups are already counted. */
  lemma MergeIsValid(wanted: Value, current: Value, x: Context, g: Groups)
    requires Sane(wanted) && Sane(current) && Holds(wanted, x.p, g) && Holds(current, x.p, g) && WithinLimit(g, x.closids)
    ensures var a, change := Merge(wanted, current, x, g), ValueChange(wanted, current);
      if change.Failed? then a == Attempt(Failed(change.error), current, None)
      else a == Attempt(Ok(()), change.value.target, change.value.changeset) && Holds(change.value.target, x.p, g)
  {
    hide Validated;
    hide ValueChange;
    hide Holds;
    hide Sane;
    ValidatesAgain(wanted, x.p, x.closids, g);
    if ValueChange(wanted, current).Ok? {
      MergedHolds(wanted, current, x.p, g);
      TargetIsSane(wanted, current);
      ValidatesAgain(ValueChange(wanted, current).value.target, x.p, x.closids, g);
    }
  }

  lemma AttemptIsAllOrNothing(wanted: Raw, current: Value, x: Context, g: Groups)
    requires ValidRaw(wanted) && Sane(current) && Holds(current, x.p, g) && WithinLimit(g, x.closids)
    ensures var a := Attempted(wanted, current, x, g);
      if a.result.Failed? then a.target == current && a.changeset.None?
      else exists h :: Holds(a.target, x.p, h) && WithinLimit(h, x.closids)
  {
    hide Merge;
    hide Created;
    hide ValueChange;
    hide Holds;
    hide Sane;
    if !KubernetesRefuses(wanted, x) {
      var c := Created(wanted, |wanted.keys|, x, OfRequest, g);
      if c.result.Ok? {
        CreatedIsSane(wanted, |wanted.keys|, x, OfRequest, g);
        CreatedHolds(wanted, |wanted.keys|, x, OfRequest, g);
        HoldsInMore(current, x.p, g, c.groups);
        MergeIsValid(Tree(c.result.value), current, x, c.groups);
      }
    }
  }

  /** A refused request performs nothing and leaves the target at the current allocations; an accepted one
      has a target that is valid throughout. */
  lemma RoundIsTransactional(wanted: Raw, current: Raw, x: Context)
    requires ValidRaw(wanted) && ValidRaw(current) && Round(wanted, current, x).Finished?
    ensures var r := Round(wanted, current, x);
      var c := Created(current, |current.keys|, x, OfCurrent, NO_GROUPS);
      && c.result.Ok?
      && (if !r.accepted then r.performed.None? && r.target == Tree(c.result.value)
          else exists h :: Holds(r.target, x.p, h) && WithinLimit(h, x.closids))
  {
    hide Created;
    hide Attempted;
    hide Holds;
    hide Sane;
    var c := Created(current, |current.keys|, x, OfCurrent, NO_GROUPS);
    CreatedIsSane(current, |current.keys|, x, OfCurrent, NO_GROUPS);
    CreatedHolds(current, |current.keys|, x, OfCurrent, NO_GROUPS);
    AttemptIsAllOrNothing(wanted, Tree(c.result.value), x, c.groups);
  }

  // ----- The groups of a target -----

  ghost predicate UsesGroup(leaf: Option<AllocationValue>, name: string) {
    leaf.Some? && leaf.value.Rdt? && GroupName(leaf.value) == name
  }

  /** The groups named anywhere in a tree. */
  ghost function GroupNames(v: Value): set<string>
    decreases v, 0
  {
    match v
    case Leaf(leaf) => if leaf.Rdt? then {GroupName(leaf)} else {}
    case Tree(d) => if d.Valid() then NamesUnder(d, |d.keys|) else {}
  }

  ghost function NamesUnder(d: Dict<string, Value>, k: nat): set<string>
    requires d.Valid() && k <= |d.keys|
    decreases d, k
  {
    if k == 0 then {} else NamesUnder(d, k - 1) + GroupNames(d.at[d.keys[k - 1]])
  }

  lemma {:induction false} NameUnder(d: Dict<string, Value>, k: nat, i: nat, name: string)
    requires d.Valid() && i < k <= |d.keys| && name in GroupNames(d.at[d.keys[i]])
    ensures name in NamesUnder(d, k)
    decreases k
  {
    hide GroupNames;
    if i < k - 1 {
      NameUnder(d, k - 1, i, name);
    }
  }

  lemma {:induction false} NamedAtPath(v: Value, path: Path, name: string)
    requires Sane(v) && UsesGroup(At(v, path), name)
    ensures name in GroupNames(v)
    decreases path
  {
    hide NamesUnder;
    if v.Tree? {
      var key := path[0];
      NamedAtPath(v.d.at[key], path[1..], name);
      assert key in v.d.keys;
      var i :| 0 <= i < |v.d.keys| && v.d.keys[i] == key;
      NameUnder(v.d, |v.d.keys|, i, name);
    }
  }

  lemma {:induction false} PathUnder(d: Dict<string, Value>, k: nat, name: string) returns (path: Path)
    requires Sane(Tree(d)) && k <= |d.keys| && name in NamesUnder(d, k)
    ensures UsesGroup(At(Tree(d), path), name)
    decreases d, k
  {
    hide GroupNames;
    var key := d.keys[k - 1];
    assert key in d.at;
    if name in GroupNames(d.at[key]) {
      var rest := PathOf(d.at[key], name);
      path := [key] + rest;
      assert path[1..] == rest;
    } else {
      path := PathUnder(d, k - 1, name);
    }
  }

  lemma {:induction false} PathOf(v: Value, name: string) returns (path: Path)
    requires Sane(v) && name in GroupNames(v)
    ensures UsesGroup(At(v, path), name)
    decreases v
  {
    hide NamesUnder;
    match v
    case Leaf(leaf) =>
      path := [];
    case Tree(d) =>
      path := PathUnder(d, |d.keys|, name);
  }

  /** The groups of current values that a request says nothing about. */
  ghost function GroupsLeftAlone(current: Value, wanted: Value): set<string> {
    set name | name in GroupNames(current) && exists path :: At(wanted, path).None? && UsesGroup(At(current, path), name)
  }

  lemma TargetGroup(target: Option<AllocationValue>, wanted: Option<AllocationValue>, current: Option<AllocationValue>, name: string)
    requires TargetLeaf(target, wanted, current)
    ensures UsesGroup(target, name) <==> UsesGroup(wanted, name) || (wanted.None? && UsesGroup(current, name))
  {
    hide Rdt.Changed;
    hide IsClose;
  }

  /** The groups that exist after a merge are those the request names and those it leaves alone. */
  lemma GroupsOfTarget(wanted: Value, current: Value)
    requires Sane(wanted) && Sane(current) && ValueChange(wanted, current).Ok?
    ensures GroupNames(ValueChange(wanted, current).value.target) == GroupNames(wanted) + GroupsLeftAlone(current, wanted)
  {
    hide ValueChange;
    hide GroupNames;
    hide At;
    hide Sane;
    hide UsesGroup;
    hide TargetLeaf;
    var target := ValueChange(wanted, current).value.target;
    TargetIsSane(wanted, current);
    forall name | name in GroupNames(target) ensures name in GroupNames(wanted) + GroupsLeftAlone(current, wanted) {
      var path := PathOf(target, name);
      MergedAtPath(wanted, current, path);
      TargetGroup(At(target, path), At(wanted, path), At(current, path), name);
      if UsesGroup(At(wanted, path), name) {
        NamedAtPath(wanted, path, name);
      } else {
        NamedAtPath(current, path, name);
      }
    }
    forall name | name in GroupNames(wanted) ensures name in GroupNames(target) {
      var path := PathOf(wanted, name);
      MergedAtPath(wanted, current, path);
      TargetGroup(At(target, path), At(wanted, path), At(current, path), name);
      NamedAtPath(target, path, name);
    }
    forall name | name in GroupsLeftAlone(current, wanted) ensures name in GroupNames(target) {
      var path :| At(wanted, path).None? && UsesGroup(At(current, path), name);
      MergedAtPath(wanted, current, path);
      TargetGroup(At(target, path), At(wanted, path), At(current, path), name);
      NamedAtPath(target, path, name);
    }
  }

  /** A merge keeps the number of groups within the limit exactly when the groups the request names and those
      it leaves alone do: the validations do not check this, since they count the request's groups and the current
      ones apart. */
  lemma TargetWithinLimitIff(wanted: Value, current: Value, limit: nat)
    requires Sane(wanted) && Sane(current) && ValueChange(wanted, current).Ok?
    ensures |GroupNames(ValueChange(wanted, current).value.target)| <= limit <==>
      |GroupNames(wanted) + GroupsLeftAlone(current, wanted)| <= limit
  {
    hide ValueChange;
    GroupsOfTarget(wanted, current);
  }

  /** One task whose only allocation is membership of the group of its own name. */
  function Member(task: string, c: Counter): AllocationValue { Rdt(task, Rows(None, None, None), task, None, c) }

  function OneKey<T>(key: string, v: T): Dict<string, T> { Dict([key], map[key := v]) }

  const RDT: string := "rdt"

  function OneMember(task: string, c: Counter): Value { Tree(OneKey(task, Tree(OneKey(RDT, Leaf(Member(task, c)))))) }

  lemma MemberValidates(task: string, c: Counter, x: Context, g: Groups)
    requires |Seen(g, c) + {task}| <= x.closids
    ensures Validated(Tree(OneKey(RDT, Leaf(Member(task, c)))), x.p, x.closids, g) == Verdict(Ok(()), WithGroup(g, c, task))
  {
    var d := OneKey(RDT, Leaf(Member(task, c)));
    assert d.Valid();
    assert Validated(d.at[RDT], x.p, x.closids, g) == Verdict(Ok(()), WithGroup(g, c, task));
    assert KeysValidated(d, 0, x.p, x.closids, g) == Verdict(Ok(()), g);
    assert KeysValidated(d, 1, x.p, x.closids, g) == Validated(d.at[d.keys[0]], x.p, x.closids, g);
  }

  lemma MemberIsBuilt(task: string, c: Counter, x: Context)
    requires RDT in x.kinds
    ensures OneKey(RDT, Member(task, OfRequest)).Valid()
    ensures BuiltTask(OneKey(RDT, Member(task, OfRequest)), 1, x.kinds, c) == Ok(OneKey(RDT, Leaf(Member(task, c))))
  {
    var d := OneKey(RDT, Member(task, OfRequest));
    assert BuiltTask(d, 0, x.kinds, c) == Ok(EmptyDict());
    assert d.at[d.keys[0]] == Member(task, OfRequest);
    PutFirst(RDT, Leaf(Member(task, c)));
  }

  lemma PutFirst<T>(key: string, v: T)
    ensures EmptyDict<string, T>().Put(key, v) == OneKey(key, v)
  {
    assert [] + [key] == [key] && map[][key := v] == map[key := v];
  }

  lemma MemberAt(task: string, c: Counter)
    ensures At(OneMember(task, c), [task, RDT]) == Some(Member(task, c))
  {
    var path := [task, RDT];
    assert path[1..] == [RDT] && [RDT][1..] == [];
    assert At(Tree(OneKey(RDT, Leaf(Member(task, c)))), [RDT]) == Some(Member(task, c));
  }

  lemma MemberIsCreated(task: string, c: Counter, x: Context, g: Groups)
    requires task in x.tasks && RDT in x.kinds && |Seen(g, c) + {task}| <= x.closids
    ensures var raw := OneKey(task, OneKey(RDT, Member(task, OfRequest)));
      ValidRaw(raw) && Created(raw, 1, x, c, g) == Creation(Ok(OneMember(task, c).d), WithGroup(g, c, task))
  {
    hide Validated;
    hide BuiltTask;
    var kinds := OneKey(RDT, Member(task, OfRequest));
    var raw := OneKey(task, kinds);
    MemberIsBuilt(task, c, x);
    MemberValidates(task, c, x, g);
    assert Created(raw, 0, x, c, g) == Creation(Ok(EmptyDict()), g);
    assert TaskCreated(kinds, x, c, g) == Creation(Ok(OneKey(RDT, Leaf(Member(task, c)))), WithGroup(g, c, task));
    assert raw.at[raw.keys[0]] == kinds;
    PutFirst(task, Tree(OneKey(RDT, Leaf(Member(task, c)))));
  }

  lemma MembersMerge(task: string, other: string)
    requires task != other
    ensures ValueChange(OneMember(task, OfRequest), OneMember(other, OfCurrent)).Ok?
    ensures GroupNames(OneMember(task, OfRequest)) == {task} && GroupNames(OneMember(other, OfCurrent)) == {other}
    ensures GroupsLeftAlone(OneMember(other, OfCurrent), OneMember(task, OfRequest)) == {other}
  {
    hide LeafChange;
    hide GroupNames;
    OneGroup(task, OfRequest);
    OneGroup(other, OfCurrent);
    var w, c := OneMember(task, OfRequest).d, OneMember(other, OfCurrent).d;
    assert KeyChange(w.at[w.keys[0]], c, w.keys[0]).Ok?;
    assert KeysChange(w, c, 0).Ok? && KeysChange(w, c, 1).Ok?;
    var path := [other, RDT];
    MemberAt(other, OfCurrent);
    assert At(Tree(w), path).None? && UsesGroup(At(Tree(c), path), other);
  }

  lemma OneGroup(task: string, c: Counter)
    ensures GroupNames(OneMember(task, c)) == {task} && Sane(OneMember(task, c))
  {
    var inner := OneKey(RDT, Leaf(Member(task, c)));
    var outer := OneKey(task, Tree(inner));
    assert inner.Valid() && outer.Valid();
    assert NamesUnder(inner, 0) == {} && NamesUnder(inner, 1) == {task};
    assert GroupNames(Tree(inner)) == {task};
    assert NamesUnder(outer, 0) == {} && NamesUnder(outer, 1) == {task};
  }

  /** With a single CLOSID, a round that puts one task into a group is accepted while another task keeps the
      group it is in: two groups. */
  lemma LimitMayBeExceeded(task: string, other: string, x: Context)
    requires task != other && task in x.tasks && other in x.tasks && RDT in x.kinds && x.closids == 1 && !x.mixedQos
    ensures var wanted, current := OneKey(task, OneKey(RDT, Member(task, OfRequest))), OneKey(other, OneKey(RDT, Member(other, OfRequest)));
      && ValidRaw(wanted) && ValidRaw(current)
      && var r := Round(wanted, current, x);
         r.Finished? && r.accepted && GroupNames(r.target) == {task, other} && |GroupNames(r.target)| > x.closids
  {
    hide Created;
    hide Merge;
    hide ValueChange;
    hide GroupNames;
    hide Holds;
    var g := WithGroup(NO_GROUPS, OfCurrent, other);
    var h := WithGroup(g, OfRequest, task);
    MemberIsCreated(other, OfCurrent, x, NO_GROUPS);
    MemberIsCreated(task, OfRequest, x, g);
    var w, c := OneMember(task, OfRequest), OneMember(other, OfCurrent);
    OneGroup(task, OfRequest);
    OneGroup(other, OfCurrent);
    MembersHold(task, other, x, h);
    MergeIsValid(w, c, x, h);
    MembersMerge(task, other);
    GroupsOfTarget(w, c);
    assert GroupNames(ValueChange(w, c).value.target) == {task, other};
  }

  lemma MembersHold(task: string, other: string, x: Context, h: Groups)
    requires h == Groups({task}, {other})
    ensures Holds(OneMember(task, OfRequest), x.p, h) && Holds(OneMember(other, OfCurrent), x.p, h)
  {
    assert LeafHolds(Member(task, OfRequest), x.p, h) && LeafHolds(Member(other, OfCurrent), x.p, h);
    assert Holds(Tree(OneKey(RDT, Leaf(Member(task, OfRequest)))), x.p, h);
    assert Holds(Tree(OneKey(RDT, Leaf(Member(other, OfCurrent)))), x.p, h);
  }
}
