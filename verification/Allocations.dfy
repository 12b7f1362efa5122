/** The tree of allocations, task by task and kind by kind: wca/allocations.py, `AllocationsDict`. A request is
    merged into the current allocations; what comes out is the target and the changes to apply. */
module Allocations {
  import opened Dicts
  import opened AllocationValues

  datatype Value = Leaf(leaf: AllocationValue) | Tree(d: Dict<string, Value>)

  /** Every dictionary of the tree is one. */
  ghost predicate Sane(v: Value) {
    v.Tree? ==> v.d.Valid() && forall k :: k in v.d.at ==> Sane(v.d.at[k])
  }

  type Path = seq<string>

  /** The leaf at the end of a path. */
  function At(v: Value, path: Path): Option<AllocationValue> {
    if v.Leaf? then if path == [] then Some(v.leaf) else None
    else if path == [] || path[0] !in v.d.at then None
    else At(v.d.at[path[0]], path[1..])
  }

  // ----- calculate_changeset -----

  datatype Progress = Progress(target: Dict<string, Value>, changeset: Dict<string, Value>)

  /** What one key of the request adds to the target and to the changeset. */
  function WithKey(before: Progress, key: string, change: Change<Value>): Progress {
    Progress(before.target.Put(key, change.target),
          if change.changeset.None? then before.changeset else before.changeset.Put(key, change.changeset.value))
  }

  ghost function KeyChange(wanted: Value, current: Dict<string, Value>, key: string): Result<Change<Value>>
    decreases wanted, 1, 0
  {
    if key !in current.at then Ok(Change(wanted, Some(wanted))) else ValueChange(wanted, current.at[key])
  }

  ghost function KeysChange(wanted: Dict<string, Value>, current: Dict<string, Value>, k: nat): Result<Progress>
    requires wanted.Valid() && k <= |wanted.keys|
    decreases wanted, 0, k
  {
    if k == 0 then Ok(Progress(current, EmptyDict()))
    else
      match KeysChange(wanted, current, k - 1)
      case Failed(e) => Failed(e)
      case Ok(before) =>
        match KeyChange(wanted.at[wanted.keys[k - 1]], current, wanted.keys[k - 1])
        case Failed(e) => Failed(e)
        case Ok(change) => Ok(WithKey(before, wanted.keys[k - 1], change))
  }

  function Finished(d: Progress): Change<Value> {
    Change(Tree(d.target), if d.changeset.keys == [] then None else Some(Tree(d.changeset)))
  }

  function FromLeaf(c: Change<AllocationValue>): Change<Value> {
    Change(Leaf(c.target), if c.changeset.None? then None else Some(Leaf(c.changeset.value)))
  }

  ghost function ValueChange(wanted: Value, current: Value): Result<Change<Value>>
    decreases wanted, 0, 0
  {
    match (wanted, current)
    case (Leaf(w), Leaf(c)) =>
      (match LeafChange(w, c)
       case Failed(e) => Failed(e)
       case Ok(change) => Ok(FromLeaf(change)))
    case (Tree(w), Tree(c)) =>
      if !w.Valid() then Failed(AssertionError)
      else
        (match KeysChange(w, c, |w.keys|)
         case Failed(e) => Failed(e)
         case Ok(d) => Ok(Finished(d)))
    case _ => Failed(AssertionError)
  }

  /** The body of the loop over the keys of the request. */
  method CalculateKey(wanted: Value, current: Dict<string, Value>, key: string) returns (r: Result<Change<Value>>)
    requires Sane(wanted)
    ensures r == KeyChange(wanted, current, key)
    decreases wanted, 1, 0
  {
    if key !in current.at {
      r := Ok(Change(wanted, Some(wanted)));
    } else {
      r := CalculateChangeset(wanted, current.at[key]);
    }
  }

  method CalculateKeys(wanted: Dict<string, Value>, current: Dict<string, Value>) returns (r: Result<Progress>)
    requires wanted.Valid() && forall key :: key in wanted.at ==> Sane(wanted.at[key])
    ensures r == KeysChange(wanted, current, |wanted.keys|)
    decreases wanted, 0, 0
  {
    hide KeyChange;
    hide Sane;
    r := Ok(Progress(current, EmptyDict()));
    var k := 0;
    while k < |wanted.keys| && r.Ok?
      invariant k <= |wanted.keys|
      invariant r == KeysChange(wanted, current, k)
    {
      var key := wanted.keys[k];
      var change := CalculateKey(wanted.at[key], current, key);
      r := if change.Failed? then Failed(change.error) else Ok(WithKey(r.value, key, change.value));
      k := k + 1;
    }
    if r.Failed? {
      FailureIsFinal(wanted, current, k, |wanted.keys|);
    }
  }

  lemma {:induction false} FailureIsFinal(wanted: Dict<string, Value>, current: Dict<string, Value>, j: nat, k: nat)
    requires wanted.Valid() && j <= k <= |wanted.keys| && KeysChange(wanted, current, j).Failed?
    ensures KeysChange(wanted, current, k) == KeysChange(wanted, current, j)
    decreases k
  {
    hide KeyChange;
    if j < k {
      FailureIsFinal(wanted, current, j, k - 1);
    }
  }

  method CalculateChangeset(wanted: Value, current: Value) returns (r: Result<Change<Value>>)
    requires Sane(wanted)
    ensures r == ValueChange(wanted, current)
    decreases wanted, 0, 0
  {
    hide KeysChange;
    hide LeafChange;
    match (wanted, current)
    case (Leaf(w), Leaf(c)) =>
      var change := CalculateLeafChangeset(w, c);
      r := if change.Failed? then Failed(change.error) else Ok(FromLeaf(change.value));
    case (Tree(w), Tree(c)) =>
      var d := CalculateKeys(w, c);
      r := if d.Failed? then Failed(d.error) else Ok(Finished(d.value));
    case _ =>
      r := Failed(AssertionError);
  }

  // ----- The dictionaries of a merge -----

  /** The first `k` keys of the request are merged, all others are as they were. */
  ghost predicate Reflects(d: Progress, wanted: Dict<string, Value>, current: Dict<string, Value>, k: nat)
    requires wanted.Valid() && k <= |wanted.keys|
  {
    && d.target.Valid() && d.changeset.Valid()
    && (forall i :: 0 <= i < k ==> IsMerged(d, wanted, current, wanted.keys[i]))
    && (forall key :: key !in wanted.keys[..k] ==> IsKept(d, current, key))
  }

  ghost predicate IsMerged(d: Progress, wanted: Dict<string, Value>, current: Dict<string, Value>, key: string)
    requires key in wanted.at
  {
    && KeyChange(wanted.at[key], current, key).Ok?
    && var change := KeyChange(wanted.at[key], current, key).value;
       && key in d.target.at && d.target.at[key] == change.target
       && (key in d.changeset.at <==> change.changeset.Some?)
       && (key in d.changeset.at ==> d.changeset.at[key] == change.changeset.value)
  }

  ghost predicate IsKept(d: Progress, current: Dict<string, Value>, key: string) {
    && (key in d.target.at <==> key in current.at)
    && (key in current.at ==> key in d.target.at && d.target.at[key] == current.at[key])
    && key !in d.changeset.at
  }

  lemma OneMoreKey(before: Progress, wanted: Dict<string, Value>, current: Dict<string, Value>, k: nat)
    requires wanted.Valid() && k < |wanted.keys| && Reflects(before, wanted, current, k)
    requires KeyChange(wanted.at[wanted.keys[k]], current, wanted.keys[k]).Ok?
    ensures Reflects(WithKey(before, wanted.keys[k], KeyChange(wanted.at[wanted.keys[k]], current, wanted.keys[k]).value),
                     wanted, current, k + 1)
  {
    hide KeyChange;
    var last := wanted.keys[k];
    var d := WithKey(before, last, KeyChange(wanted.at[last], current, last).value);
    assert last !in wanted.keys[..k];
    assert IsKept(before, current, last);
    forall i | 0 <= i < k + 1 ensures IsMerged(d, wanted, current, wanted.keys[i]) {
      if i < k {
        assert IsMerged(before, wanted, current, wanted.keys[i]) && wanted.keys[i] != last;
      }
    }
    forall key | key !in wanted.keys[..k + 1] ensures IsKept(d, current, key) {
      assert wanted.keys[..k + 1] == wanted.keys[..k] + [last];
      assert IsKept(before, current, key);
    }
  }

  lemma {:induction false} MergeReflects(wanted: Dict<string, Value>, current: Dict<string, Value>, k: nat)
    requires wanted.Valid() && current.Valid() && k <= |wanted.keys| && KeysChange(wanted, current, k).Ok?
    ensures Reflects(KeysChange(wanted, current, k).value, wanted, current, k)
    decreases k
  {
    hide KeyChange;
    hide Reflects;
    hide WithKey;
    if k > 0 {
      MergeReflects(wanted, current, k - 1);
      OneMoreKey(KeysChange(wanted, current, k - 1).value, wanted, current, k - 1);
    } else {
      NothingMerged(wanted, current);
    }
  }

  lemma NothingMerged(wanted: Dict<string, Value>, current: Dict<string, Value>)
    requires wanted.Valid() && current.Valid()
    ensures Reflects(Progress(current, EmptyDict()), wanted, current, 0)
  {
  }

  /** What merging does to one key of two dictionaries. */
  lemma MergedAtKey(wanted: Dict<string, Value>, current: Dict<string, Value>, key: string)
    requires wanted.Valid() && current.Valid() && KeysChange(wanted, current, |wanted.keys|).Ok?
    ensures var d := KeysChange(wanted, current, |wanted.keys|).value;
      && d.target.Valid() && d.changeset.Valid()
      && (if key in wanted.at then IsMerged(d, wanted, current, key) else IsKept(d, current, key))
  {
    hide KeysChange;
    hide IsMerged;
    hide IsKept;
    MergeReflects(wanted, current, |wanted.keys|);
    assert wanted.keys[..|wanted.keys|] == wanted.keys;
    if key in wanted.at {
      assert key in wanted.keys;
      var i :| 0 <= i < |wanted.keys| && wanted.keys[i] == key;
    }
  }

  // ----- What a merge does at every path -----

  /** The target of a merge is again a tree of dictionaries. */
  lemma {:induction false} TargetIsSane(wanted: Value, current: Value)
    requires Sane(wanted) && Sane(current) && ValueChange(wanted, current).Ok?
    ensures Sane(ValueChange(wanted, current).value.target)
    decreases wanted
  {
    hide KeysChange;
    hide LeafChange;
    if wanted.Tree? {
      var t := KeysChange(wanted.d, current.d, |wanted.d.keys|).value.target;
      MergedAtKey(wanted.d, current.d, "");
      forall key | key in t.at ensures Sane(t.at[key]) {
        MergedAtKey(wanted.d, current.d, key);
        if key in wanted.d.at && key in current.d.at {
          TargetIsSane(wanted.d.at[key], current.d.at[key]);
        }
      }
    }
  }

  ghost predicate SaneOption(v: Option<Value>) { v.Some? ==> Sane(v.value) }

  /** So is the changeset. */
  lemma {:induction false} ChangesetIsSane(wanted: Value, current: Value)
    requires Sane(wanted) && Sane(current) && ValueChange(wanted, current).Ok?
    ensures SaneOption(ValueChange(wanted, current).value.changeset)
    decreases wanted
  {
    hide KeysChange;
    hide LeafChange;
    if wanted.Tree? {
      var c := KeysChange(wanted.d, current.d, |wanted.d.keys|).value.changeset;
      MergedAtKey(wanted.d, current.d, "");
      forall key | key in c.at ensures Sane(c.at[key]) {
        MergedAtKey(wanted.d, current.d, key);
        if key in wanted.d.at && key in current.d.at {
          ChangesetIsSane(wanted.d.at[key], current.d.at[key]);
        }
      }
    }
  }

  /** A leaf of the target: the merged leaf where both have one, otherwise the one there is. */
  ghost predicate TargetLeaf(target: Option<AllocationValue>, wanted: Option<AllocationValue>,
                             current: Option<AllocationValue>)
  {
    if wanted.None? then target == current
    else if current.None? then target == wanted
    else (LeafChange(wanted.value, current.value).Ok? && target == Some(LeafChange(wanted.value, current.value).value.target))
  }

  /** A leaf of the changeset: what the request adds or changes. */
  ghost predicate ChangesetLeaf(changeset: Option<AllocationValue>, wanted: Option<AllocationValue>,
                                current: Option<AllocationValue>)
  {
    if wanted.None? then changeset.None?
    else if current.None? then changeset == wanted
    else (LeafChange(wanted.value, current.value).Ok? && changeset == LeafChange(wanted.value, current.value).value.changeset)
  }

  function AtOption(v: Option<Value>, path: Path): Option<AllocationValue> {
    if v.None? then None else At(v.value, path)
  }

  /** A merge treats every leaf on its own, at any depth. */
  lemma {:induction false} MergedAtPath(wanted: Value, current: Value, path: Path)
    requires Sane(wanted) && Sane(current) && ValueChange(wanted, current).Ok?
    ensures var c := ValueChange(wanted, current).value;
      && TargetLeaf(At(c.target, path), At(wanted, path), At(current, path))
      && ChangesetLeaf(AtOption(c.changeset, path), At(wanted, path), At(current, path))
    decreases path
  {
    hide KeysChange;
    hide LeafChange;
    if wanted.Tree? && path != [] {
      var key := path[0];
      MergedAtKey(wanted.d, current.d, key);
      if key in wanted.d.at && key in current.d.at {
        MergedAtPath(wanted.d.at[key], current.d.at[key], path[1..]);
      }
    }
  }

  // ----- The changeset is what is missing -----

  /** Applying a changeset: its leaves replace those of `current`, all other leaves stay. */
  ghost function Overlay(changes: Value, current: Value): Value
    decreases changes, 0, 0
  {
    if changes.Tree? && current.Tree? && changes.d.Valid()
    then Tree(OverlayKeys(changes.d, current.d, |changes.d.keys|)) else changes
  }

  ghost function OverlayKeys(changes: Dict<string, Value>, current: Dict<string, Value>, k: nat): Dict<string, Value>
    requires changes.Valid() && k <= |changes.keys|
    decreases changes, 0, k
  {
    if k == 0 then current
    else
      var key := changes.keys[k - 1];
      OverlayKeys(changes, current, k - 1).Put(key, OverlayKey(changes.at[key], current, key))
  }

  ghost function OverlayKey(change: Value, current: Dict<string, Value>, key: string): Value
    decreases change, 1, 0
  {
    if key in current.at then Overlay(change, current.at[key]) else change
  }

  /** Numbers and lists only. */
  ghost predicate Plain(v: Value) {
    match v
    case Leaf(leaf) => !leaf.Rdt?
    case Tree(d) => forall k :: k in d.at ==> Plain(d.at[k])
  }

  /** A merge loses nothing: its changeset laid over the current value is its target. */
  ghost predicate Completes(change: Change<Value>, current: Value) {
    if change.changeset.None? then change.target == current
    else Overlay(change.changeset.value, current) == change.target
  }

  ghost predicate CompletesKey(change: Change<Value>, current: Dict<string, Value>, key: string) {
    if change.changeset.None? then key in current.at && change.target == current.at[key]
    else OverlayKey(change.changeset.value, current, key) == change.target
  }

  lemma {:induction false} OverlayOfPrefix(changes: Dict<string, Value>, key: string, value: Value,
                                           current: Dict<string, Value>, k: nat)
    requires changes.Valid() && key !in changes.at && k <= |changes.keys|
    ensures OverlayKeys(changes.Put(key, value), current, k) == OverlayKeys(changes, current, k)
    decreases k
  {
    hide OverlayKey;
    if k > 0 {
      OverlayOfPrefix(changes, key, value, current, k - 1);
      assert changes.keys[k - 1] in changes.at;
    }
  }

  lemma PutSame(d: Dict<string, Value>, key: string)
    requires key in d.at
    ensures d.Put(key, d.at[key]) == d
  {
    assert d.at[key := d.at[key]] == d.at;
  }

  lemma KeyCompletes(before: Progress, key: string, change: Change<Value>, current: Dict<string, Value>)
    requires before.target.Valid() && before.changeset.Valid() && IsKept(before, current, key)
    requires OverlayKeys(before.changeset, current, |before.changeset.keys|) == before.target
    requires CompletesKey(change, current, key)
    ensures var d := WithKey(before, key, change);
      OverlayKeys(d.changeset, current, |d.changeset.keys|) == d.target
  {
    hide OverlayKey;
    if change.changeset.None? {
      PutSame(before.target, key);
    } else {
      OverlayOfPrefix(before.changeset, key, change.changeset.value, current, |before.changeset.keys|);
    }
  }

  lemma {:induction false} KeysComplete(wanted: Dict<string, Value>, current: Dict<string, Value>, k: nat)
    requires wanted.Valid() && current.Valid() && k <= |wanted.keys| && KeysChange(wanted, current, k).Ok?
    requires forall i :: 0 <= i < k ==>
      (KeyChange(wanted.at[wanted.keys[i]], current, wanted.keys[i]).Ok?
       && CompletesKey(KeyChange(wanted.at[wanted.keys[i]], current, wanted.keys[i]).value, current, wanted.keys[i]))
    ensures var d := KeysChange(wanted, current, k).value;
      d.changeset.Valid() && OverlayKeys(d.changeset, current, |d.changeset.keys|) == d.target
    decreases k
  {
    hide KeyChange;
    hide CompletesKey;
    hide WithKey;
    MergeReflects(wanted, current, k);
    if k > 0 {
      KeysComplete(wanted, current, k - 1);
      MergeReflects(wanted, current, k - 1);
      var before, key := KeysChange(wanted, current, k - 1).value, wanted.keys[k - 1];
      assert key !in wanted.keys[..k - 1];
      assert IsKept(before, current, key);
      KeyCompletes(before, key, KeyChange(wanted.at[key], current, key).value, current);
    }
  }

  /** For numbers and lists at any depth: the changeset laid over the current allocations gives the target, and
      without a changeset the target is the current allocations. */
  lemma {:induction false} OverlayIsTarget(wanted: Value, current: Value)
    requires Sane(wanted) && Sane(current) && Plain(wanted) && ValueChange(wanted, current).Ok?
    ensures Completes(ValueChange(wanted, current).value, current)
    decreases wanted, 0
  {
    hide KeysChange;
    hide LeafChange;
    hide OverlayKeys;
    match (wanted, current)
    case (Leaf(w), Leaf(c)) =>
      PlainChange(w, c);
    case (Tree(w), Tree(c)) =>
      MergeReflects(w, c, |w.keys|);
      forall i | 0 <= i < |w.keys|
        ensures KeyChange(w.at[w.keys[i]], c, w.keys[i]).Ok?
          && CompletesKey(KeyChange(w.at[w.keys[i]], c, w.keys[i]).value, c, w.keys[i])
      {
        MergedAtKey(w, c, w.keys[i]);
        KeyIsCompleted(w.at[w.keys[i]], c, w.keys[i]);
      }
      KeysComplete(w, c, |w.keys|);
      EmptyOverlay(KeysChange(w, c, |w.keys|).value.changeset, c);
  }

  lemma EmptyOverlay(changes: Dict<string, Value>, current: Dict<string, Value>)
    ensures changes.Valid() && changes.keys == [] ==> OverlayKeys(changes, current, |changes.keys|) == current
  {
  }

  lemma {:induction false} KeyIsCompleted(wanted: Value, current: Dict<string, Value>, key: string)
    requires Sane(wanted) && current.Valid() && (key in current.at ==> Sane(current.at[key])) && Plain(wanted)
    requires KeyChange(wanted, current, key).Ok?
    ensures CompletesKey(KeyChange(wanted, current, key).value, current, key)
    decreases wanted, 1
  {
    hide ValueChange;
    hide Overlay;
    if key in current.at {
      OverlayIsTarget(wanted, current.at[key]);
    }
  }

  lemma LeafReached(wanted: AllocationValue, current: AllocationValue)
    requires !wanted.Rdt? && LeafChange(wanted, current).Ok?
      && LeafChange(wanted, current).value.target == current
    ensures LeafChange(wanted, current).value.changeset.None?
  {
    if wanted.Number? {
      CloseToItself(wanted.value, wanted.sensitivity);
    }
  }

  /** A changeset is only given when the target differs from the current allocations. */
  lemma {:induction false} ReachedIsUnchanged(wanted: Value, current: Value)
    requires Sane(wanted) && Sane(current) && Plain(wanted) && ValueChange(wanted, current).Ok?
    requires ValueChange(wanted, current).value.target == current
    ensures ValueChange(wanted, current).value.changeset.None?
    decreases wanted
  {
    hide KeysChange;
    hide LeafChange;
    match (wanted, current)
    case (Leaf(w), Leaf(c)) =>
      LeafReached(w, c);
    case (Tree(w), Tree(c)) =>
      var d := KeysChange(w, c, |w.keys|).value;
      forall key: string ensures key !in d.changeset.at {
        MergedAtKey(w, c, key);
        if key in w.at {
          ReachedIsUnchanged(w.at[key], c.at[key]);
        }
      }
      MergedAtKey(w, c, "");
      FirstKeyIsAKey(d.changeset);
  }

  lemma FirstKeyIsAKey(d: Dict<string, Value>)
    requires d.Valid()
    ensures d.keys == [] || d.keys[0] in d.at
  {
  }

  /** The changeset is missing exactly when nothing has to change. */
  lemma NoChangesetIffReached(wanted: Value, current: Value)
    requires Sane(wanted) && Sane(current) && Plain(wanted) && ValueChange(wanted, current).Ok?
    ensures var c := ValueChange(wanted, current).value; c.changeset.None? <==> c.target == current
  {
    OverlayIsTarget(wanted, current);
    if ValueChange(wanted, current).value.target == current {
      ReachedIsUnchanged(wanted, current);
    }
  }

  // ----- Asking twice -----

  /** Every list can be decoded and every row parsed. */
  ghost predicate LeafIsReadable(leaf: AllocationValue) {
    RowsParse(leaf) && LeafChange(leaf, leaf).Ok?
  }

  ghost predicate Readable(v: Value) {
    match v
    case Leaf(leaf) => LeafIsReadable(leaf)
    case Tree(d) => forall k :: k in d.at ==> Readable(d.at[k])
  }

  ghost predicate Unchanged(r: Result<Change<Value>>) { r.Ok? && r.value.changeset.None? }

  lemma {:induction false} UnchangedKeys(wanted: Dict<string, Value>, current: Dict<string, Value>, k: nat)
    requires wanted.Valid() && current.Valid() && k <= |wanted.keys|
    requires forall i :: 0 <= i < k ==> Unchanged(KeyChange(wanted.at[wanted.keys[i]], current, wanted.keys[i]))
    ensures KeysChange(wanted, current, k).Ok? && KeysChange(wanted, current, k).value.changeset == EmptyDict()
    decreases k
  {
    hide KeyChange;
    if k > 0 {
      UnchangedKeys(wanted, current, k - 1);
    }
  }

  lemma UnchangedTree(wanted: Dict<string, Value>, current: Dict<string, Value>)
    requires wanted.Valid() && current.Valid()
    requires forall i :: 0 <= i < |wanted.keys| ==> Unchanged(KeyChange(wanted.at[wanted.keys[i]], current, wanted.keys[i]))
    ensures Unchanged(ValueChange(Tree(wanted), Tree(current)))
  {
    hide KeyChange;
    hide KeysChange;
    UnchangedKeys(wanted, current, |wanted.keys|);
  }

  lemma {:induction false} SelfUnchanged(v: Value)
    requires Sane(v) && Readable(v)
    ensures Unchanged(ValueChange(v, v))
    decreases v
  {
    hide LeafChange;
    match v
    case Leaf(leaf) =>
      LeafUnchanged(leaf);
    case Tree(d) =>
      forall i | 0 <= i < |d.keys| ensures Unchanged(KeyChange(d.at[d.keys[i]], d, d.keys[i])) {
        assert d.keys[i] in d.at;
        SelfUnchanged(d.at[d.keys[i]]);
      }
      UnchangedTree(d, d);
  }

  lemma LeafUnchanged(leaf: AllocationValue)
    requires LeafIsReadable(leaf)
    ensures LeafChange(leaf, leaf).Ok? && LeafChange(leaf, leaf).value.changeset.None?
  {
    hide RowsParse;
    if leaf.Rdt? {
      SettledByParsing(leaf);
    } else if leaf.Number? {
      CloseToItself(leaf.value, leaf.sensitivity);
    }
  }

  /** Every kind of leaf, any depth: once the target is reached, the same request needs no changeset. */
  lemma {:induction false} RequestSettles(wanted: Value, current: Value)
    requires Sane(wanted) && Sane(current) && Readable(wanted) && ValueChange(wanted, current).Ok?
    ensures Unchanged(ValueChange(wanted, ValueChange(wanted, current).value.target))
    decreases wanted
  {
    hide LeafChange;
    hide KeysChange;
    match (wanted, current)
    case (Leaf(w), Leaf(c)) =>
      LeafSettles(w, c);
    case (Tree(w), Tree(c)) =>
      var t := KeysChange(w, c, |w.keys|).value.target;
      MergedAtKey(w, c, "");
      forall i | 0 <= i < |w.keys| ensures Unchanged(KeyChange(w.at[w.keys[i]], t, w.keys[i])) {
        var key := w.keys[i];
        assert key in w.at;
        MergedAtKey(w, c, key);
        if key in c.at {
          RequestSettles(w.at[key], c.at[key]);
        } else {
          SelfUnchanged(w.at[key]);
        }
      }
      UnchangedTree(w, t);
  }
}
