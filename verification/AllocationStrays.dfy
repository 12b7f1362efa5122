/** Rows that a round writes to another group than the one they are meant for: a value that has no current counterpart is
    performed as it is, with the group its container is in. wca/allocations.py and wca/resctrl_allocations.py. */
module AllocationStrays {
  import opened Dicts
  import opened AllocationValues
  import opened Allocations
  import opened AllocationValidation
  import opened AllocationWrites
  import opened AllocationRunner
  import opened AllocationEscapes
  import opened AllocationFailures
  import Rdt

  // ----- Where the values of a changeset come from -----

  lemma {:induction false} LeafUnderHasPath(d: Dict<string, Value>, k: nat, i: nat) returns (path: Path)
    requires Sane(Tree(d)) && k <= |d.keys| && i < |LeavesUnder(d, k)|
    ensures At(Tree(d), path) == Some(LeavesUnder(d, k)[i])
    decreases d, k
  {
    hide LeavesOf;
    var key := d.keys[k - 1];
    assert key in d.at;
    if i < |LeavesUnder(d, k - 1)| {
      path := LeafUnderHasPath(d, k - 1, i);
    } else {
      var rest := LeafHasPath(d.at[key], i - |LeavesUnder(d, k - 1)|);
      path := [key] + rest;
      assert path[1..] == rest;
    }
  }

  /** Every value performed is at the end of some path. */
  lemma {:induction false} LeafHasPath(v: Value, i: nat) returns (path: Path)
    requires Sane(v) && i < |LeavesOf(v)|
    ensures At(v, path) == Some(LeavesOf(v)[i])
    decreases v
  {
    hide LeavesUnder;
    match v
    case Leaf(leaf) =>
      path := [];
    case Tree(d) =>
      path := LeafUnderHasPath(d, |d.keys|, i);
  }

  lemma {:induction false} LeafUnder(d: Dict<string, Value>, k: nat, i: nat, leaf: AllocationValue)
    requires d.Valid() && i < k <= |d.keys| && leaf in LeavesOf(d.at[d.keys[i]])
    ensures leaf in LeavesUnder(d, k)
    decreases k
  {
    hide LeavesOf;
    if i < k - 1 {
      LeafUnder(d, k - 1, i, leaf);
    }
  }

  /** Every value at the end of a path is performed. */
  lemma {:induction false} LeafIsPerformed(v: Value, path: Path, leaf: AllocationValue)
    requires Sane(v) && At(v, path) == Some(leaf)
    ensures leaf in LeavesOf(v)
    decreases path
  {
    hide LeavesUnder;
    if v.Tree? {
      var key := path[0];
      LeafIsPerformed(v.d.at[key], path[1..], leaf);
      assert key in v.d.keys;
      var i :| 0 <= i < |v.d.keys| && v.d.keys[i] == key;
      LeafUnder(v.d, |v.d.keys|, i, leaf);
    }
  }

  lemma {:induction false} LeavesFrom(d: Dict<string, Value>, j: nat, k: nat) returns (rest: seq<AllocationValue>)
    requires d.Valid() && j <= k <= |d.keys|
    ensures LeavesUnder(d, k) == LeavesUnder(d, j) + rest
    decreases k
  {
    hide LeavesOf;
    hide LeavesUnder;
    if j == k {
      rest := [];
    } else {
      var before := LeavesFrom(d, j, k - 1);
      var last := LeavesOf(d.at[d.keys[k - 1]]);
      LastLeaves(d, k - 1);
      rest := before + last;
      assert LeavesUnder(d, j) + before + last == LeavesUnder(d, j) + (before + last);
    }
  }

  /** What is under an earlier key of a dictionary is performed before what is under a later one. */
  lemma LeavesInOrder(d: Dict<string, Value>, i: nat, j: nat)
    returns (a: seq<AllocationValue>, b: seq<AllocationValue>, c: seq<AllocationValue>)
    requires d.Valid() && i < j < |d.keys|
    ensures LeavesOf(Tree(d)) == a + LeavesOf(d.at[d.keys[i]]) + b + LeavesOf(d.at[d.keys[j]]) + c
  {
    a := LeavesUnder(d, i);
    b := LeavesFrom(d, i + 1, j);
    c := LeavesFrom(d, j + 1, |d.keys|);
    LastLeaves(d, i);
    LastLeaves(d, j);
  }

  lemma LastLeaves(d: Dict<string, Value>, i: nat)
    requires d.Valid() && i < |d.keys|
    ensures LeavesUnder(d, i + 1) == LeavesUnder(d, i) + LeavesOf(d.at[d.keys[i]])
  {
    hide LeavesOf;
    assert d.keys[i] in d.keys;
  }

  /** Where both trees have an RDT value it is of one container, which is in the group that the current value names. */
  ghost predicate IsMatched(wanted: Option<AllocationValue>, current: Option<AllocationValue>) {
    wanted.Some? && current.Some? && wanted.value.Rdt? && current.value.Rdt? ==>
      wanted.value.container == current.value.container && Home(current.value)
  }

  ghost predicate AllMatched(wanted: Value, current: Value) {
    forall path :: IsMatched(At(wanted, path), At(current, path))
  }

  /** The value is asked for where there is no current one. */
  ghost predicate IsNew(wanted: Value, current: Value, v: AllocationValue) {
    exists path :: At(wanted, path) == Some(v) && At(current, path).None?
  }

  lemma ChangedIsHome(changeset: Option<AllocationValue>, wanted: Option<AllocationValue>, current: Option<AllocationValue>)
    requires ChangesetLeaf(changeset, wanted, current) && IsMatched(wanted, current)
    ensures changeset.Some? && !Home(changeset.value) ==> changeset == wanted && current.None?
  {
    hide RdtChange;
    if changeset.Some? && current.Some? {
      if wanted.value.Rdt? && current.value.Rdt? {
        ChangesetIsHomeIff(wanted.value, current.value);
      } else {
        PlainChange(wanted.value, current.value);
      }
    }
  }

  lemma StrayIsNew(wanted: Value, current: Value, i: nat)
    requires Sane(wanted) && Sane(current) && ValueChange(wanted, current).Ok? && AllMatched(wanted, current)
    requires ValueChange(wanted, current).value.changeset.Some?
    requires var leaves := LeavesOf(ValueChange(wanted, current).value.changeset.value); i < |leaves| && !Home(leaves[i])
    ensures IsNew(wanted, current, LeavesOf(ValueChange(wanted, current).value.changeset.value)[i])
  {
    hide ValueChange;
    hide LeavesOf;
    hide At;
    hide Sane;
    hide IsMatched;
    hide ChangesetLeaf;
    hide Home;
    var changeset := ValueChange(wanted, current).value.changeset.value;
    ChangesetIsSane(wanted, current);
    var path := LeafHasPath(changeset, i);
    MergedAtPath(wanted, current, path);
    ChangedIsHome(Some(LeavesOf(changeset)[i]), At(wanted, path), At(current, path));
  }

  ghost predicate SomeStray(writes: seq<Write>) { exists k :: 0 <= k < |writes| && Strays(writes[k]) }

  /** A value of the changeset that is new, names another group than its container is in, comes first in the group it
      names, and has rows. */
  ghost predicate NewStray(wanted: Value, current: Value, values: seq<AllocationValue>, i: nat, p: Platform) {
    IsStray(values, i, p) && IsNew(wanted, current, values[i])
  }

  /** A merge gives rows to write to another group than the one they are meant for exactly because of values without
      current counterpart that name another group than their container is in. */
  lemma StraysAreNew(wanted: Value, current: Value, p: Platform)
    requires Sane(wanted) && Sane(current) && ValueChange(wanted, current).Ok? && AllMatched(wanted, current)
    ensures var changeset := ValueChange(wanted, current).value.changeset;
      SomeStray(RowsWritten(changeset, p)) <==>
        (changeset.Some? &&
         exists i :: 0 <= i < |LeavesOf(changeset.value)| && NewStray(wanted, current, LeavesOf(changeset.value), i, p))
  {
    hide ValueChange;
    hide LeavesOf;
    hide TraceOf;
    hide Sane;
    hide AllMatched;
    hide IsNew;
    var changeset := ValueChange(wanted, current).value.changeset;
    if changeset.Some? {
      var leaves := LeavesOf(changeset.value);
      StraysIff(leaves, p);
      forall i | 0 <= i < |leaves| ensures IsStray(leaves, i, p) <==> NewStray(wanted, current, leaves, i, p) {
        if IsStray(leaves, i, p) {
          StrayIsNew(wanted, current, i);
        }
      }
    }
  }

  // ----- The rows of a round -----

  lemma {:induction false} AtIsNode(v: Value, path: Path)
    ensures At(v, path) ==
      if NodeAt(v, path).Some? && NodeAt(v, path).value.Leaf? then Some(NodeAt(v, path).value.leaf) else None
    decreases path
  {
    if v.Tree? && path != [] && path[0] in v.d.at {
      AtIsNode(v.d.at[path[0]], path[1..]);
    }
  }

  ghost predicate Has(raw: Raw, task: string, kind: string) { task in raw.at && kind in raw.at[task].at }

  lemma BoxedLeaf(v: Value, raw: Raw, c: Counter, task: string, kind: string)
    requires BoxesTree(v, raw, c)
    ensures At(v, [task, kind]) == if Has(raw, task, kind) then Some(Built(raw.at[task].at[kind], c).leaf) else None
  {
    hide BoxesTree;
    hide NodeAt;
    hide At;
    var path := [task, kind];
    AtIsNode(v, path);
    BoxedAtPath(v, raw, c, path);
    if Has(raw, task, kind) {
      BoxedAt2(v, raw, c, task, kind);
    }
  }

  lemma LeafHasTask(v: Value, raw: Raw, c: Counter, path: Path)
    requires BoxesTree(v, raw, c) && At(v, path).Some?
    ensures |path| == 2 && path == [path[0], path[1]]
  {
    hide BoxesTree;
    hide NodeAt;
    hide At;
    AtIsNode(v, path);
    BoxedAtPath(v, raw, c, path);
  }

  /** Where something is asked of a task that has it, RDT values are of one container, which is in the group that the
      current value names: the rows of a group are read under its own name. */
  ghost predicate RawMatched(wanted: Raw, current: Raw) {
    forall task, kind :: Has(wanted, task, kind) && Has(current, task, kind) ==>
      IsMatched(Some(wanted.at[task].at[kind]), Some(current.at[task].at[kind]))
  }

  ghost predicate AsksAnew(wanted: Raw, current: Raw, task: string, kind: string, v: AllocationValue) {
    Has(wanted, task, kind) && !Has(current, task, kind) && Built(wanted.at[task].at[kind], OfRequest) == Leaf(v)
  }

  /** The value is asked of a task that does not have one of this kind. */
  ghost predicate AskedAnew(wanted: Raw, current: Raw, v: AllocationValue) {
    exists task, kind :: AsksAnew(wanted, current, task, kind, v)
  }

  lemma BoxesMatch(v: Value, wanted: Raw, u: Value, current: Raw)
    requires BoxesTree(v, wanted, OfRequest) && BoxesTree(u, current, OfCurrent) && RawMatched(wanted, current)
    ensures AllMatched(v, u)
  {
    hide BoxesTree;
    hide At;
    forall path ensures IsMatched(At(v, path), At(u, path)) {
      if At(v, path).Some? && At(u, path).Some? {
        LeafHasTask(v, wanted, OfRequest, path);
        BoxedLeaf(v, wanted, OfRequest, path[0], path[1]);
        BoxedLeaf(u, current, OfCurrent, path[0], path[1]);
      }
    }
  }

  lemma NewIsAskedAnew(v: Value, wanted: Raw, u: Value, current: Raw, leaf: AllocationValue)
    requires BoxesTree(v, wanted, OfRequest) && BoxesTree(u, current, OfCurrent)
    ensures IsNew(v, u, leaf) <==> AskedAnew(wanted, current, leaf)
  {
    hide BoxesTree;
    hide At;
    if path :| At(v, path) == Some(leaf) && At(u, path).None? {
      LeafHasTask(v, wanted, OfRequest, path);
      BoxedLeaf(v, wanted, OfRequest, path[0], path[1]);
      BoxedLeaf(u, current, OfCurrent, path[0], path[1]);
      assert AsksAnew(wanted, current, path[0], path[1], leaf);
    }
    if task, kind :| AsksAnew(wanted, current, task, kind, leaf) {
      BoxedLeaf(v, wanted, OfRequest, task, kind);
      BoxedLeaf(u, current, OfCurrent, task, kind);
    }
  }

  /** What an accepted round performs is the changeset of merging what was built. */
  lemma RoundPerforms(wanted: Raw, current: Raw, x: Context) returns (v: Value, u: Value)
    requires ValidRaw(wanted) && ValidRaw(current)
    requires Round(wanted, current, x).Finished? && Round(wanted, current, x).accepted
    ensures Sane(v) && Sane(u) && BoxesTree(v, wanted, OfRequest) && BoxesTree(u, current, OfCurrent)
    ensures ValueChange(v, u).Ok? && Round(wanted, current, x).performed == ValueChange(v, u).value.changeset
    ensures Round(wanted, current, x).target == ValueChange(v, u).value.target
  {
    hide Created;
    hide ValueChange;
    hide Sane;
    hide BoxesTree;
    hide Validated;
    hide KubernetesRefuses;
    var c := Created(current, |current.keys|, x, OfCurrent, NO_GROUPS);
    CreatedIsSane(current, |current.keys|, x, OfCurrent, NO_GROUPS);
    CreatedBoxes(current, |current.keys|, x, OfCurrent, NO_GROUPS);
    BoxedTree(c.result.value, current, OfCurrent);
    var w := Created(wanted, |wanted.keys|, x, OfRequest, c.groups);
    CreatedIsSane(wanted, |wanted.keys|, x, OfRequest, c.groups);
    CreatedBoxes(wanted, |wanted.keys|, x, OfRequest, c.groups);
    BoxedTree(w.result.value, wanted, OfRequest);
    v, u := Tree(w.result.value), Tree(c.result.value);
  }

  /** The value at `i` goes to another group than the one it names, and is asked of a task that does not have one. */
  ghost predicate StrayAskedAnew(wanted: Raw, current: Raw, values: seq<AllocationValue>, i: nat, p: Platform) {
    IsStray(values, i, p) && AskedAnew(wanted, current, values[i])
  }

  /** An accepted round writes rows to another group than the one they are meant for exactly because of values asked of a
      task that has no such value yet, that name another group than their container is in. */
  lemma RoundStraysIff(wanted: Raw, current: Raw, x: Context)
    requires ValidRaw(wanted) && ValidRaw(current) && RawMatched(wanted, current)
    requires Round(wanted, current, x).Finished? && Round(wanted, current, x).accepted
    ensures var performed := Round(wanted, current, x).performed;
      SomeStray(RowsWritten(performed, x.p)) <==>
        (performed.Some? &&
         exists i :: 0 <= i < |LeavesOf(performed.value)| &&
           StrayAskedAnew(wanted, current, LeavesOf(performed.value), i, x.p))
  {
    hide Round;
    hide ValueChange;
    hide LeavesOf;
    hide Sane;
    hide BoxesTree;
    hide AllMatched;
    hide RawMatched;
    hide IsNew;
    hide AskedAnew;
    hide IsStray;
    hide SomeStray;
    var v, u := RoundPerforms(wanted, current, x);
    BoxesMatch(v, wanted, u, current);
    StraysAreNew(v, u, x.p);
    var performed := Round(wanted, current, x).performed;
    if performed.Some? {
      var leaves := LeavesOf(performed.value);
      forall i | 0 <= i < |leaves|
        ensures NewStray(v, u, leaves, i, x.p) <==> StrayAskedAnew(wanted, current, leaves, i, x.p)
      {
        NewIsAskedAnew(v, wanted, u, current, leaves[i]);
      }
    }
  }

  // ----- An example -----

  /** A cache row asked for a group, of a task whose container is in another one. */
  function AskedFrom(home: string, task: string, group: string): AllocationValue {
    Rdt(task, Rows(Some(group), Some(ONE_DOMAIN), None), home, None, OfRequest)
  }

  lemma OneLeaf(key: string, v: Value)
    ensures LeavesOf(Tree(OneKey(key, v))) == LeavesOf(v)
  {
    var d := OneKey(key, v);
    assert LeavesUnder(d, 0) == [] && d.at[d.keys[0]] == v;
    assert LeavesUnder(d, 1) == [] + LeavesOf(v);
  }

  lemma OnlyIsWritten(v: AllocationValue, task: string, p: Platform)
    requires v.Rdt? && LinesOf(v, p) != NO_LINES
    ensures LeavesOf(Tree(OneKey(task, Tree(OneKey(RDT, Leaf(v)))))) == [v]
    ensures TraceOf([v], p).writes == [Write(GroupName(v), v.counter, v.resgroup, LinesOf(v, p))]
  {
    hide LinesOf;
    hide OneKey;
    OneLeaf(RDT, Leaf(v));
    OneLeaf(task, Tree(OneKey(RDT, Leaf(v))));
    assert LeavesOf(Leaf(v)) == [v];
    hide LeavesOf;
    hide LeavesUnder;
    assert [v][..0] == [] && TraceOf([], p) == NO_WRITES;
  }

  lemma OnlyIsBuilt(task: string, v: AllocationValue, x: Context, g: Groups)
    requires v.Rdt? && v.counter.OfRequest? && ValidRaw(Only(task, v))
    requires Created(Only(task, v), 1, x, OfRequest, g).result.Ok?
    ensures Created(Only(task, v), 1, x, OfRequest, g).result.value == OneKey(task, Tree(OneKey(RDT, Leaf(v))))
  {
    hide Validated;
    var kinds := OneKey(RDT, v);
    var raw := OneKey(task, kinds);
    assert raw.at[raw.keys[0]] == kinds && kinds.Valid();
    assert kinds.at[kinds.keys[0]] == v;
    PutFirst(RDT, Leaf(v));
    assert BuiltTask(kinds, 0, x.kinds, OfRequest) == Ok(EmptyDict());
    assert Created(raw, 0, x, OfRequest, g) == Creation(Ok(EmptyDict()), g);
    PutFirst(task, Tree(OneKey(RDT, Leaf(v))));
  }

  lemma NothingIsBuilt(x: Context)
    ensures ValidRaw(EmptyDict()) && Builds(EmptyDict(), x)
    ensures Created(EmptyDict(), 0, x, OfCurrent, NO_GROUPS) == Creation(Ok(EmptyDict()), NO_GROUPS)
  {
    assert {} + NamesIn([]) == {};
  }

  lemma AllNew(d: Dict<string, Value>, task: string, v: Value)
    requires d == OneKey(task, v)
    ensures d.Valid() && ValueChange(Tree(d), Tree(EmptyDict())) == Ok(Change(Tree(d), Some(Tree(d))))
  {
    assert KeyChange(d.at[d.keys[0]], EmptyDict(), d.keys[0]) == Ok(Change(v, Some(v)));
    PutFirst(task, v);
    assert KeysChange(d, EmptyDict(), 0) == Ok(Progress(EmptyDict(), EmptyDict()));
    assert KeysChange(d, EmptyDict(), 1) == Ok(Progress(d, d));
  }

  lemma AskedIsValid(home: string, task: string, group: string)
    ensures LeafValid(AskedFrom(home, task, group), SMALL_PLATFORM)
    ensures LinesOf(AskedFrom(home, task, group), SMALL_PLATFORM) == Lines(Some(ONE_DOMAIN), None)
  {
    hide L3Checked;
    ExampleRowsAreValid();
  }

  /** A round over a task without current allocations, accepted, performs what was asked as it is. */
  lemma OnlyIsPerformed(task: string, v: AllocationValue, x: Context)
    requires task in x.tasks && RDT in x.kinds && LeafValid(v, x.p) && x.closids > 0 && !x.mixedQos
    requires v.Rdt? && v.counter.OfRequest?
    ensures ValidRaw(Only(task, v)) && ValidRaw(EmptyDict())
    ensures var tree := Tree(OneKey(task, Tree(OneKey(RDT, Leaf(v)))));
      Round(Only(task, v), EmptyDict(), x) == Finished(true, tree, Some(tree))
  {
    hide Created;
    hide Builds;
    hide Validated;
    hide ValueChange;
    hide LeafVerdict;
    OnlyBuilds(task, v, x);
    NothingIsBuilt(x);
    NothingClashes(Only(task, v));
    RoundIsAcceptedIff(Only(task, v), EmptyDict(), x);
    OnlyIsBuilt(task, v, x, NO_GROUPS);
    AllNew(OneKey(task, Tree(OneKey(RDT, Leaf(v)))), task, Tree(OneKey(RDT, Leaf(v))));
  }

  lemma NothingClashes(wanted: Raw)
    ensures !RequestClashes(wanted, EmptyDict())
  {
  }

  /** A task of the group `home` has no current allocations, and a cache row is asked for it in another group: the round is
      accepted and reports that row, but it is written to `home`, and the group asked for is as it was. */
  lemma RowGoesAstray(task: string, group: string, home: string, x: Context, before: map<string, string>)
    requires task in x.tasks && RDT in x.kinds && x.p == SMALL_PLATFORM && x.closids > 0 && !x.mixedQos && home != group
    ensures ValidRaw(Only(task, AskedFrom(home, task, group))) && ValidRaw(EmptyDict())
    ensures var v := AskedFrom(home, task, group);
      var r := Round(Only(task, v), EmptyDict(), x);
      && r.Finished? && r.accepted && r.performed.Some? && LeavesOf(r.performed.value) == LeavesOf(r.target) == [v]
      && RowsWritten(r.performed, x.p) == [Write(group, OfRequest, home, Lines(Some(ONE_DOMAIN), None))]
      && !AllReach([v], x.p) && GroupAfter(before, RowsWritten(r.performed, x.p), group, Cache) == before
  {
    hide Round;
    hide LeafVerdict;
    hide LeavesOf;
    hide LinesOf;
    hide TraceOf;
    hide Rdt.Written;
    var v := AskedFrom(home, task, group);
    AskedIsValid(home, task, group);
    OnlyIsPerformed(task, v, x);
    OnlyIsWritten(v, task, x.p);
    var w := Write(group, OfRequest, home, Lines(Some(ONE_DOMAIN), None));
    assert !AllReach([v], x.p) by {
      assert [v][0].Rdt? && !Reaches([v], 0, x.p);
    }
    GroupAfterNext(before, [], w, group, Cache);
    assert [] + [w] == [w] && GroupAfter(before, [], group, Cache) == before;
  }
}
