/** When a round of the allocation loop raises instead of refusing its request: wca/runners/allocation.py catches
    InvalidAllocations only. */
module AllocationFailures {
  import opened Dicts
  import ListFormat
  import opened Schemata
  import opened Text
  import opened AllocationValues
  import opened Allocations
  import opened AllocationValidation
  import opened AllocationRunner
  import opened AllocationEscapes
  import MemoryBandwidth
  import Rdt

  // ----- When a merge fails -----

  /** The part of a tree at the end of a path. */
  function NodeAt(v: Value, path: Path): Option<Value> {
    if path == [] then Some(v)
    else if v.Leaf? || path[0] !in v.d.at then None
    else NodeAt(v.d.at[path[0]], path[1..])
  }

  /** Both trees reach the end of the path, and what they have there cannot be merged: a dictionary and a value, or two
      values whose comparison raises. */
  ghost predicate Clash(wanted: Value, current: Value, path: Path) {
    var w, c := NodeAt(wanted, path), NodeAt(current, path);
    && w.Some? && c.Some?
    && (w.value.Leaf? != c.value.Leaf? || (w.value.Leaf? && LeafChange(w.value.leaf, c.value.leaf).Failed?))
  }

  lemma {:induction false} KeysMerge(wanted: Dict<string, Value>, current: Dict<string, Value>, k: nat)
    requires wanted.Valid() && k <= |wanted.keys|
    ensures KeysChange(wanted, current, k).Failed? <==>
      exists i :: 0 <= i < k && KeyChange(wanted.at[wanted.keys[i]], current, wanted.keys[i]).Failed?
  {
    hide KeyChange;
    if k > 0 {
      KeysMerge(wanted, current, k - 1);
    }
  }

  lemma {:induction false} ClashFails(wanted: Value, current: Value, path: Path)
    requires Sane(wanted) && Sane(current) && Clash(wanted, current, path)
    ensures ValueChange(wanted, current).Failed?
    decreases path
  {
    hide KeysChange;
    hide LeafChange;
    if path != [] {
      var key := path[0];
      ClashFails(wanted.d.at[key], current.d.at[key], path[1..]);
      assert key in wanted.d.keys;
      var i :| 0 <= i < |wanted.d.keys| && wanted.d.keys[i] == key;
      assert KeyChange(wanted.d.at[wanted.d.keys[i]], current.d, wanted.d.keys[i]).Failed?;
      KeysMerge(wanted.d, current.d, |wanted.d.keys|);
    }
  }

  lemma {:induction false} FailureClashes(wanted: Value, current: Value) returns (path: Path)
    requires Sane(wanted) && Sane(current) && ValueChange(wanted, current).Failed?
    ensures Clash(wanted, current, path)
    decreases wanted
  {
    hide KeysChange;
    hide LeafChange;
    path := [];
    if wanted.Tree? && current.Tree? {
      KeysMerge(wanted.d, current.d, |wanted.d.keys|);
      var i :| 0 <= i < |wanted.d.keys| && KeyChange(wanted.d.at[wanted.d.keys[i]], current.d, wanted.d.keys[i]).Failed?;
      var key := wanted.d.keys[i];
      assert key in wanted.d.at;
      var rest := FailureClashes(wanted.d.at[key], current.d.at[key]);
      path := [key] + rest;
      assert path[1..] == rest;
    }
  }

  /** A merge fails exactly when the two trees clash at some path. */
  lemma MergeFailsIff(wanted: Value, current: Value)
    requires Sane(wanted) && Sane(current)
    ensures ValueChange(wanted, current).Failed? <==> exists path :: Clash(wanted, current, path)
  {
    hide ValueChange;
    hide Clash;
    hide Sane;
    if ValueChange(wanted, current).Failed? {
      var path := FailureClashes(wanted, current);
    }
    if path :| Clash(wanted, current, path) {
      ClashFails(wanted, current, path);
    }
  }

  /** The new row is there and the group has none, or the new row names a domain that the group does not have. */
  ghost predicate RowClash(wanted: Option<string>, current: Option<string>) {
    wanted.Some? && (current.None? || !Rdt.NamesOnlyDomainsOf(RowOf(wanted), RowOf(current)))
  }

  lemma ComparedIff(wanted: Option<string>, current: Option<string>)
    requires Parses(wanted) && Parses(current)
    ensures Rdt.Changed(current, wanted).Failed? <==> RowClash(wanted, current)
    ensures Rdt.Changed(current, wanted).Failed? ==> Rdt.Changed(current, wanted) == Failed(AssertionError)
  {
    hide ParseRow;
    hide Rdt.RowsDiffer;
  }

  lemma CheckedParses(v: AllocationValue, p: Platform)
    requires v.Rdt? && LeafValid(v, p)
    ensures RowsParse(v)
  {
    hide ParseRow;
    hide MemoryBandwidth.DomainsExist;
    EmptyParses();
  }

  /** Two valid values cannot be compared exactly when they are of different kinds or, in the same group, their rows clash;
      it is an AssertionError. */
  lemma ValidLeavesClashIff(wanted: AllocationValue, current: AllocationValue, p: Platform)
    requires LeafValid(wanted, p) && LeafValid(current, p)
    ensures LeafChange(wanted, current).Failed? <==>
      (wanted.Number? != current.Number? || wanted.Cores? != current.Cores?) ||
      (wanted.Rdt? && GroupName(wanted) == GroupName(current) &&
       (RowClash(wanted.rows.l3, current.rows.l3) || RowClash(wanted.rows.mb, current.rows.mb)))
    ensures LeafChange(wanted, current).Failed? ==> LeafChange(wanted, current) == Failed(AssertionError)
  {
    hide ListFormat.Decode;
    hide Rdt.Changed;
    hide L3Checked;
    hide MbChecked;
    hide RowClash;
    hide Parses;
    if wanted.Rdt? && current.Rdt? {
      CheckedParses(wanted, p);
      CheckedParses(current, p);
      ComparedIff(wanted.rows.l3, current.rows.l3);
      ComparedIff(wanted.rows.mb, current.rows.mb);
    }
  }

  lemma {:induction false} MergeRaisesNoRefusal(wanted: Value, current: Value, p: Platform, g: Groups)
    requires Sane(wanted) && Sane(current) && Holds(wanted, p, g) && Holds(current, p, g)
    requires ValueChange(wanted, current).Failed?
    ensures ValueChange(wanted, current) == Failed(AssertionError)
    decreases wanted
  {
    hide KeysChange;
    hide LeafChange;
    hide LeafValid;
    match (wanted, current)
    case (Leaf(w), Leaf(c)) =>
      ValidLeavesClashIff(w, c, p);
    case (Tree(w), Tree(c)) =>
      KeysRaise(w, c, |w.keys|, p, g);
    case _ =>
  }

  lemma {:induction false} KeysRaise(wanted: Dict<string, Value>, current: Dict<string, Value>, k: nat, p: Platform, g: Groups)
    requires Sane(Tree(wanted)) && Sane(Tree(current)) && Holds(Tree(wanted), p, g) && Holds(Tree(current), p, g)
    requires k <= |wanted.keys| && KeysChange(wanted, current, k).Failed?
    ensures KeysChange(wanted, current, k) == Failed(AssertionError)
    decreases wanted, k
  {
    hide ValueChange;
    if k > 0 {
      var key := wanted.keys[k - 1];
      assert key in wanted.at;
      if KeysChange(wanted, current, k - 1).Failed? {
        KeysRaise(wanted, current, k - 1, p, g);
      } else {
        MergeRaisesNoRefusal(wanted.at[key], current.at[key], p, g);
      }
    }
  }

  // ----- When a round raises -----

  /** Two valid values cannot be compared: they are of different kinds or, in the same group, their rows clash. */
  ghost predicate ValuesClash(wanted: AllocationValue, current: AllocationValue) {
    || wanted.Number? != current.Number? || wanted.Cores? != current.Cores?
    || (wanted.Rdt? && GroupName(wanted) == GroupName(current) &&
        (RowClash(wanted.rows.l3, current.rows.l3) || RowClash(wanted.rows.mb, current.rows.mb)))
  }

  ghost predicate ClashAt(wanted: Raw, current: Raw, task: string, kind: string) {
    && task in wanted.at && kind in wanted.at[task].at && task in current.at && kind in current.at[task].at
    && ValuesClash(wanted.at[task].at[kind], current.at[task].at[kind])
  }

  /** Something asked of a task cannot be compared with what the task has. */
  ghost predicate RequestClashes(wanted: Raw, current: Raw) {
    exists task, kind :: ClashAt(wanted, current, task, kind)
  }

  ghost predicate BoxesTree(v: Value, raw: Raw, c: Counter) {
    && v.Tree? && v.d.at.Keys == raw.at.Keys
    && forall task :: task in raw.at ==> BoxesTask(v.d.at[task], raw.at[task], c)
  }

  lemma BoxedTree(d: Dict<string, Value>, raw: Raw, c: Counter)
    requires ValidRaw(raw) && BoxesRaw(d, raw, |raw.keys|, c)
    ensures BoxesTree(Tree(d), raw, c)
  {
    hide BoxesTask;
    forall task ensures task in raw.at <==> task in d.at {
    }
    forall task | task in raw.at ensures BoxesTask(d.at[task], raw.at[task], c) {
      var i :| 0 <= i < |raw.keys| && raw.keys[i] == task;
    }
  }

  lemma BoxedLeavesClash(wanted: AllocationValue, current: AllocationValue, p: Platform)
    requires LeafValid(Built(wanted, OfRequest).leaf, p) && LeafValid(Built(current, OfCurrent).leaf, p)
    ensures LeafChange(Built(wanted, OfRequest).leaf, Built(current, OfCurrent).leaf).Failed? <==>
      ValuesClash(wanted, current)
  {
    hide LeafChange;
    hide LeafVerdict;
    hide RowClash;
    ValidLeavesClashIff(Built(wanted, OfRequest).leaf, Built(current, OfCurrent).leaf, p);
  }

  lemma BoxedAtPath(v: Value, raw: Raw, c: Counter, path: Path)
    requires BoxesTree(v, raw, c)
    ensures var n := NodeAt(v, path);
      && (|path| < 2 && n.Some? ==> n.value.Tree?)
      && (|path| > 2 ==> n.None?)
      && (|path| == 2 && n.Some? ==> path[0] in raw.at && path[1] in raw.at[path[0]].at
                                     && n.value == Built(raw.at[path[0]].at[path[1]], c))
  {
    hide Built;
    if path != [] && path[0] in v.d.at {
      var u := v.d.at[path[0]];
      assert NodeAt(v, path) == NodeAt(u, path[1..]);
      if |path| > 1 && path[1] in u.d.at {
        BuiltIsLeaf(raw.at[path[0]].at[path[1]], c);
        assert NodeAt(u, path[1..]) == NodeAt(u.d.at[path[1]], path[1..][1..]);
      }
    }
  }

  lemma BuiltIsLeaf(v: AllocationValue, c: Counter)
    ensures Built(v, c).Leaf?
  {
  }

  lemma BoxedAt2(v: Value, raw: Raw, c: Counter, task: string, kind: string)
    requires BoxesTree(v, raw, c) && task in raw.at && kind in raw.at[task].at
    ensures NodeAt(v, [task, kind]) == Some(Built(raw.at[task].at[kind], c))
  {
    hide Built;
    var path := [task, kind];
    assert path[1..] == [kind] && [kind][1..] == [];
    var u := v.d.at[task];
    assert NodeAt(v, path) == NodeAt(u, [kind]);
    assert NodeAt(u, [kind]) == NodeAt(u.d.at[kind], []);
  }

  lemma HeldIsValid(v: Value, raw: Raw, c: Counter, p: Platform, g: Groups, task: string, kind: string)
    requires BoxesTree(v, raw, c) && Holds(v, p, g) && task in raw.at && kind in raw.at[task].at
    ensures LeafValid(Built(raw.at[task].at[kind], c).leaf, p)
  {
    hide LeafVerdict;
    var u := v.d.at[task];
    assert Holds(u, p, g);
    assert Holds(u.d.at[kind], p, g);
  }

  lemma BoxedClashIff(v: Value, wanted: Raw, u: Value, current: Raw, p: Platform, g: Groups)
    requires BoxesTree(v, wanted, OfRequest) && BoxesTree(u, current, OfCurrent) && Holds(v, p, g) && Holds(u, p, g)
    ensures (exists path :: Clash(v, u, path)) <==> RequestClashes(wanted, current)
  {
    hide NodeAt;
    hide LeafChange;
    hide LeafVerdict;
    hide Holds;
    hide BoxesTree;
    hide ValuesClash;
    if path :| Clash(v, u, path) {
      BoxedAtPath(v, wanted, OfRequest, path);
      BoxedAtPath(u, current, OfCurrent, path);
      HeldIsValid(v, wanted, OfRequest, p, g, path[0], path[1]);
      HeldIsValid(u, current, OfCurrent, p, g, path[0], path[1]);
      BoxedLeavesClash(wanted.at[path[0]].at[path[1]], current.at[path[0]].at[path[1]], p);
      assert ClashAt(wanted, current, path[0], path[1]);
    }
    if task, kind :| ClashAt(wanted, current, task, kind) {
      BoxedAt2(v, wanted, OfRequest, task, kind);
      BoxedAt2(u, current, OfCurrent, task, kind);
      HeldIsValid(v, wanted, OfRequest, p, g, task, kind);
      HeldIsValid(u, current, OfCurrent, p, g, task, kind);
      BoxedLeavesClash(wanted.at[task].at[kind], current.at[task].at[kind], p);
      assert Clash(v, u, [task, kind]);
    }
  }

  /** The merge of what was built: it raises, an AssertionError, exactly when the request clashes. */
  lemma MergeEscapesIff(v: Value, wanted: Raw, u: Value, current: Raw, x: Context, g: Groups)
    requires Sane(v) && Sane(u) && Holds(v, x.p, g) && Holds(u, x.p, g) && WithinLimit(g, x.closids)
    requires BoxesTree(v, wanted, OfRequest) && BoxesTree(u, current, OfCurrent)
    ensures Merge(v, u, x, g).result == if RequestClashes(wanted, current) then Failed(AssertionError) else Ok(())
  {
    hide Merge;
    hide ValueChange;
    hide Holds;
    hide Sane;
    hide Clash;
    hide BoxesTree;
    hide RequestClashes;
    MergeIsValid(v, u, x, g);
    MergeFailsIff(v, u);
    BoxedClashIff(v, wanted, u, current, x.p, g);
    if ValueChange(v, u).Failed? {
      MergeRaisesNoRefusal(v, u, x.p, g);
    }
  }

  /** What is there once the current allocations were read. */
  ghost predicate IsCurrent(u: Value, current: Raw, x: Context, g: Groups) {
    && Sane(u) && Holds(u, x.p, g) && BoxesTree(u, current, OfCurrent) && WithinLimit(g, x.closids) && g.ofRequest == {}
  }

  lemma AttemptEscapesIff(wanted: Raw, u: Value, current: Raw, x: Context, g: Groups)
    requires ValidRaw(wanted) && IsCurrent(u, current, x, g)
    ensures Escaped(Attempted(wanted, u, x, g).result) <==>
      !KubernetesRefuses(wanted, x) && (BuildEscapes(wanted, x) || (Builds(wanted, x) && RequestClashes(wanted, current)))
    ensures !KubernetesRefuses(wanted, x) && Builds(wanted, x) ==>
      Attempted(wanted, u, x, g).result == if RequestClashes(wanted, current) then Failed(AssertionError) else Ok(())
  {
    hide Created;
    hide Merge;
    hide Holds;
    hide Sane;
    hide BoxesTree;
    hide RequestClashes;
    hide Builds;
    hide BuildEscapes;
    BuildingIff(wanted, x, OfRequest, g);
    var c := Created(wanted, |wanted.keys|, x, OfRequest, g);
    if c.result.Ok? {
      var v := Tree(c.result.value);
      CreatedIsSane(wanted, |wanted.keys|, x, OfRequest, g);
      CreatedHolds(wanted, |wanted.keys|, x, OfRequest, g);
      CreatedBoxes(wanted, |wanted.keys|, x, OfRequest, g);
      BoxedTree(c.result.value, wanted, OfRequest);
      HoldsInMore(u, x.p, g, c.groups);
      MergeEscapesIff(v, wanted, u, current, x, c.groups);
    }
  }

  lemma CurrentIsThere(current: Raw, x: Context)
    requires ValidRaw(current) && Builds(current, x)
    ensures var c := Created(current, |current.keys|, x, OfCurrent, NO_GROUPS);
      c.result.Ok? && IsCurrent(Tree(c.result.value), current, x, c.groups)
  {
    hide Created;
    hide Holds;
    hide Sane;
    hide BoxesTree;
    hide Builds;
    hide BuildEscapes;
    BuildingIff(current, x, OfCurrent, NO_GROUPS);
    CreatedIsSane(current, |current.keys|, x, OfCurrent, NO_GROUPS);
    CreatedHolds(current, |current.keys|, x, OfCurrent, NO_GROUPS);
    CreatedBoxes(current, |current.keys|, x, OfCurrent, NO_GROUPS);
    BoxedTree(Created(current, |current.keys|, x, OfCurrent, NO_GROUPS).result.value, current, OfCurrent);
  }

  ghost predicate AsksForShares(raw: Raw) { exists task :: task in raw.at && "cpu_shares" in raw.at[task].at }

  /** Kubernetes refuses exactly the requests that ask for shares while tasks of several classes run. */
  lemma KubernetesRefusesIff(raw: Raw, x: Context)
    requires ValidRaw(raw)
    ensures KubernetesRefuses(raw, x) <==> x.mixedQos && AsksForShares(raw)
  {
    assert forall i :: 0 <= i < |raw.keys| ==> raw.keys[i] in raw.keys;
    if task :| task in raw.at && "cpu_shares" in raw.at[task].at {
      var i :| 0 <= i < |raw.keys| && raw.keys[i] == task;
    }
  }

  /** A request refused by Kubernetes performs nothing, whatever it asks for. */
  lemma KubernetesRefusal(wanted: Raw, current: Raw, x: Context)
    requires ValidRaw(wanted) && ValidRaw(current) && Builds(current, x) && x.mixedQos && AsksForShares(wanted)
    ensures var r := Round(wanted, current, x); r.Finished? && !r.accepted && r.performed.None?
  {
    hide Created;
    hide Builds;
    hide Merge;
    KubernetesRefusesIff(wanted, x);
    BuildingIff(current, x, OfCurrent, NO_GROUPS);
  }

  /** A round raises exactly when the current allocations cannot be built or Kubernetes does not refuse the request first and
      either building it raises something else than InvalidAllocations or it can be built, but clashes with the current
      allocations. */
  lemma RoundRaisesIff(wanted: Raw, current: Raw, x: Context)
    requires ValidRaw(wanted) && ValidRaw(current)
    ensures Round(wanted, current, x).Crashed? <==>
      !Builds(current, x) ||
      (!(x.mixedQos && AsksForShares(wanted)) &&
       (BuildEscapes(wanted, x) || (Builds(wanted, x) && RequestClashes(wanted, current))))
  {
    hide Created;
    hide Attempted;
    hide IsCurrent;
    hide Builds;
    hide BuildEscapes;
    hide RequestClashes;
    hide KubernetesRefuses;
    hide AsksForShares;
    KubernetesRefusesIff(wanted, x);
    BuildingIff(current, x, OfCurrent, NO_GROUPS);
    if Builds(current, x) {
      CurrentIsThere(current, x);
      var c := Created(current, |current.keys|, x, OfCurrent, NO_GROUPS);
      AttemptEscapesIff(wanted, Tree(c.result.value), current, x, c.groups);
    }
  }

  /** A round is accepted exactly when the current allocations and the request can be built, Kubernetes does not refuse it
      and it does not clash. */
  lemma RoundIsAcceptedIff(wanted: Raw, current: Raw, x: Context)
    requires ValidRaw(wanted) && ValidRaw(current)
    ensures var r := Round(wanted, current, x);
      r.Finished? && r.accepted <==>
        Builds(current, x) && !(x.mixedQos && AsksForShares(wanted)) && Builds(wanted, x) && !RequestClashes(wanted, current)
  {
    hide Created;
    hide Merge;
    hide IsCurrent;
    hide Builds;
    hide BuildEscapes;
    hide RequestClashes;
    hide KubernetesRefuses;
    hide AsksForShares;
    KubernetesRefusesIff(wanted, x);
    BuildingIff(current, x, OfCurrent, NO_GROUPS);
    if Builds(current, x) {
      CurrentIsThere(current, x);
      var c := Created(current, |current.keys|, x, OfCurrent, NO_GROUPS);
      AttemptEscapesIff(wanted, Tree(c.result.value), current, x, c.groups);
      CountsNoRequest(Tree(c.result.value), current, x, c.groups);
      BuildingIff(wanted, x, OfRequest, c.groups);
    }
  }

  lemma CountsNoRequest(u: Value, current: Raw, x: Context, g: Groups)
    requires IsCurrent(u, current, x, g)
    ensures Seen(g, OfRequest) == {}
  {
  }

  /** Where both can be built, a clash is an AssertionError. */
  lemma ClashIsAssertionError(wanted: Raw, current: Raw, x: Context)
    requires ValidRaw(wanted) && ValidRaw(current) && Builds(current, x) && Builds(wanted, x)
    requires !(x.mixedQos && AsksForShares(wanted))
    ensures RequestClashes(wanted, current) ==> Round(wanted, current, x) == Crashed(AssertionError)
  {
    hide Created;
    hide Attempted;
    hide IsCurrent;
    hide Builds;
    hide RequestClashes;
    hide KubernetesRefuses;
    hide AsksForShares;
    KubernetesRefusesIff(wanted, x);
    CurrentIsThere(current, x);
    var c := Created(current, |current.keys|, x, OfCurrent, NO_GROUPS);
    AttemptEscapesIff(wanted, Tree(c.result.value), current, x, c.groups);
  }

  // ----- An example -----

  const NO_VALUE: string := "L3:0"

  lemma NoValueIsMalformed()
    ensures ParseRow(NO_VALUE) == Failed(ValueError)
  {
    FindAfter("L3", ':', "0");
    assert "L3" + [':'] + "0" == NO_VALUE && NO_VALUE[3..] == "0";
    SplitWhole("0", ';');
    assert Collected(ParsedDomains(["0"]), 0) == Ok([]);
  }

  lemma MalformedVerdict(task: string, p: Platform)
    requires p.cacheControl
    ensures LeafVerdict(CacheOnly(task, NO_VALUE, OfRequest), p) == Failed(ValueError)
  {
    hide ParseRow;
    NoValueIsMalformed();
    assert MemoryBandwidth.StartsWith(NO_VALUE, Rdt.L3);
  }

  lemma MalformedIsRefused(leaf: AllocationValue, x: Context, g: Groups)
    requires LeafVerdict(leaf, x.p) == Failed(ValueError)
    ensures Validated(Tree(OneKey(RDT, Leaf(leaf))), x.p, x.closids, g).result == Failed(ValueError)
  {
    hide LeafVerdict;
    var d := OneKey(RDT, Leaf(leaf));
    assert KeysValidated(d, 0, x.p, x.closids, g) == Verdict(Ok(()), g);
    assert Validated(d.at[RDT], x.p, x.closids, g).result == Failed(ValueError);
    assert KeysValidated(d, 1, x.p, x.closids, g).result == Failed(ValueError);
  }

  lemma MalformedIsCreated(task: string, x: Context, g: Groups)
    requires task in x.tasks && RDT in x.kinds && x.p.cacheControl
    ensures var raw := OneKey(task, OneKey(RDT, CacheOnly(task, NO_VALUE, OfRequest)));
      ValidRaw(raw) && Created(raw, 1, x, OfRequest, g).result == Failed(ValueError)
  {
    hide LeafVerdict;
    var leaf := CacheOnly(task, NO_VALUE, OfRequest);
    var kinds := OneKey(RDT, leaf);
    var raw := OneKey(task, kinds);
    MalformedVerdict(task, x.p);
    assert BuiltTask(kinds, 0, x.kinds, OfRequest) == Ok(EmptyDict());
    PutFirst(RDT, Leaf(leaf));
    assert BuiltTask(kinds, 1, x.kinds, OfRequest) == Ok(OneKey(RDT, Leaf(leaf)));
    MalformedIsRefused(leaf, x, g);
    hide Validated;
    assert Created(raw, 0, x, OfRequest, g) == Creation(Ok(EmptyDict()), g);
  }

  /** One value for one task. */
  function Only(task: string, v: AllocationValue): Raw { OneKey(task, OneKey(RDT, v)) }

  /** A request whose only row lacks a value raises a ValueError out of the round, whatever the current allocations. */
  lemma MalformedRowEscapes(task: string, current: Raw, x: Context)
    requires task in x.tasks && RDT in x.kinds && x.p.cacheControl && !x.mixedQos && ValidRaw(current) && Builds(current, x)
    ensures var wanted := Only(task, CacheOnly(task, NO_VALUE, OfRequest));
      ValidRaw(wanted) && Round(wanted, current, x) == Crashed(ValueError)
  {
    hide Created;
    hide Builds;
    BuildingIff(current, x, OfCurrent, NO_GROUPS);
    MalformedIsCreated(task, x, Created(current, |current.keys|, x, OfCurrent, NO_GROUPS).groups);
  }

  lemma OnePasses(v: AllocationValue, x: Context)
    requires LeafValid(v, x.p) && x.closids > 0
    ensures Passes([v], x, {})
  {
    LeafPassesIff(v, x.p);
    NamesOfOne(v);
    hide LeafPasses;
    hide NamesIn;
  }

  lemma OnlyAsks(task: string, v: AllocationValue)
    ensures ValidRaw(Only(task, v)) && Asked(Only(task, v), 1) == [v]
  {
    var raw := Only(task, v);
    assert raw.at[task].Valid() && raw.Valid();
    assert Asked(raw, 0) == [] && ValuesOf(raw.at[raw.keys[0]]) == [v];
  }

  lemma OnlyIsKnown(task: string, v: AllocationValue, x: Context)
    requires task in x.tasks && RDT in x.kinds && ValidRaw(Only(task, v))
    ensures Known(Only(task, v), 1, x)
  {
    assert Supported(Only(task, v).at[task], 1, x);
  }

  lemma OnlyBuilds(task: string, v: AllocationValue, x: Context)
    requires task in x.tasks && RDT in x.kinds && LeafValid(v, x.p) && x.closids > 0
    ensures ValidRaw(Only(task, v)) && Builds(Only(task, v), x)
  {
    hide LeafVerdict;
    hide Passes;
    hide Known;
    hide Asked;
    OnlyAsks(task, v);
    OnlyIsKnown(task, v, x);
    OnePasses(v, x);
  }

  lemma NamesOfOne(v: AllocationValue)
    ensures |{} + NamesIn([v])| <= 1
  {
    assert [v][..0] == [] && NamesIn([]) == {};
    assert {} + NamesIn([v]) == NamesIn([v]);
  }

  /** A group has a row for the first domain only, and a request of the same task names both: the round raises an
      AssertionError. */
  lemma UnknownDomainEscapes(task: string, x: Context)
    requires task in x.tasks && RDT in x.kinds && x.p == SMALL_PLATFORM && x.closids > 0 && !x.mixedQos
    ensures var wanted := Only(task, CacheOnly(task, BOTH_DOMAINS, OfRequest));
      var current := Only(task, CacheOnly(task, ONE_DOMAIN, OfCurrent));
      ValidRaw(wanted) && ValidRaw(current) && Round(wanted, current, x) == Crashed(AssertionError)
  {
    hide Round;
    hide Builds;
    hide L3Checked;
    hide ParseRow;
    hide Rdt.NamesOnlyDomainsOf;
    var w, c := CacheOnly(task, BOTH_DOMAINS, OfRequest), CacheOnly(task, ONE_DOMAIN, OfCurrent);
    ExampleRowsAreValid();
    OnlyBuilds(task, w, x);
    OnlyBuilds(task, c, x);
    BothDomainsParse();
    OneDomainParses();
    ExampleRows();
    assert RowOf(Some(BOTH_DOMAINS)) == Both() && RowOf(Some(ONE_DOMAIN)) == One();
    assert ClashAt(Only(task, w), Only(task, c), task, RDT);
    ClashIsAssertionError(Only(task, w), Only(task, c), x);
  }
}
