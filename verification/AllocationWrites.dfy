/** Performing the RDT values of a changeset, wca/resctrl_allocations.py: which schemata rows are written for which
    group. Every value asks the RDTGroups object it was given whether its group was written already. */
module AllocationWrites {
  import opened Dicts
  import opened AllocationValues
  import opened Allocations
  import opened AllocationValidation
  import opened Schemata
  import Rdt

  /** The rows written in one go, the cache row first. */
  datatype Lines = Lines(l3: Option<string>, mb: Option<string>) {
    function Text(resource: Resource): Option<string> { if resource.Cache? then l3 else mb }
  }

  const NO_LINES: Lines := Lines(None, None)

  /** Rows written for the group `name`, as decided by one of the two objects. */
  datatype Write = Write(name: string, counter: Counter, resgroup: string, lines: Lines)

  /** The groups marked as written, and the writes so far. */
  datatype Trace = Trace(done: Groups, writes: seq<Write>)

  const NO_WRITES: Trace := Trace(Groups({}, {}), [])

  /** The rows of a value that the platform controls. */
  function LinesOf(v: AllocationValue, p: Platform): Lines
    requires v.Rdt?
  {
    Lines(if Truthy(v.rows.l3) && p.cacheControl then v.rows.l3 else None,
          if Truthy(v.rows.mb) && p.mbControl then v.rows.mb else None)
  }

  function Performed(t: Trace, v: AllocationValue, p: Platform): Trace {
    if !v.Rdt? || GroupName(v) in Seen(t.done, v.counter) then t
    else
      Trace(WithGroup(t.done, v.counter, GroupName(v)),
            if LinesOf(v, p) == NO_LINES then t.writes
            else t.writes + [Write(GroupName(v), v.counter, v.resgroup, LinesOf(v, p))])
  }

  /** Values performed one after the other. */
  function TraceOf(values: seq<AllocationValue>, p: Platform): Trace {
    if values == [] then NO_WRITES else Performed(TraceOf(values[..|values| - 1], p), values[|values| - 1], p)
  }

  /** The leaves of a tree in the order in which `perform_allocations` meets them. */
  function LeavesOf(v: Value): seq<AllocationValue>
    decreases v, 0
  {
    match v
    case Leaf(leaf) => [leaf]
    case Tree(d) => LeavesUnder(d, |d.keys|)
  }

  function LeavesUnder(d: Dict<string, Value>, k: nat): seq<AllocationValue>
    requires k <= |d.keys|
    decreases d, k
  {
    if k == 0 then []
    else LeavesUnder(d, k - 1) + if d.keys[k - 1] in d.at then LeavesOf(d.at[d.keys[k - 1]]) else []
  }

  // ----- perform_allocations -----

  ghost predicate Marks(done: Groups, ofRequest: RdtGroups, ofCurrent: RdtGroups)
    reads ofRequest, ofCurrent
  {
    ofRequest != ofCurrent && done == Groups(ofRequest.alreadyExecuted, ofCurrent.alreadyExecuted)
  }

  lemma TraceOfNext(values: seq<AllocationValue>, v: AllocationValue, p: Platform)
    ensures TraceOf(values + [v], p) == Performed(TraceOf(values, p), v, p)
  {
    assert (values + [v])[..|values|] == values;
  }

  /** `RDTAllocationValue.perform_allocations`, apart from moving processes; other values write no rows. */
  method PerformValue(v: AllocationValue, p: Platform, ofRequest: RdtGroups, ofCurrent: RdtGroups,
                      before: seq<Write>, ghost t: Trace)
    returns (writes: seq<Write>)
    requires Marks(t.done, ofRequest, ofCurrent) && before == t.writes
    modifies ofRequest`alreadyExecuted, ofCurrent`alreadyExecuted
    ensures var after := Performed(t, v, p); Marks(after.done, ofRequest, ofCurrent) && writes == after.writes
  {
    writes := before;
    if v.Rdt? {
      var write: bool;
      if v.counter.OfRequest? {
        write := ofRequest.ShouldPerformSchemataWrite(GroupName(v));
      } else {
        write := ofCurrent.ShouldPerformSchemataWrite(GroupName(v));
      }
      if write {
        var lines := NO_LINES;
        if Truthy(v.rows.l3) && p.cacheControl {
          lines := lines.(l3 := v.rows.l3);
        }
        if Truthy(v.rows.mb) && p.mbControl {
          lines := lines.(mb := v.rows.mb);
        }
        if lines != NO_LINES {
          writes := writes + [Write(GroupName(v), v.counter, v.resgroup, lines)];
        }
      } else {
        assert WithGroup(t.done, v.counter, GroupName(v)) == t.done;
      }
    }
  }

  method PerformKeys(d: Dict<string, Value>, p: Platform, ofRequest: RdtGroups, ofCurrent: RdtGroups,
                     before: seq<Write>, ghost earlier: seq<AllocationValue>)
    returns (writes: seq<Write>)
    requires d.Valid() && forall k :: k in d.at ==> Sane(d.at[k])
    requires Marks(TraceOf(earlier, p).done, ofRequest, ofCurrent) && before == TraceOf(earlier, p).writes
    modifies ofRequest`alreadyExecuted, ofCurrent`alreadyExecuted
    ensures var after := TraceOf(earlier + LeavesUnder(d, |d.keys|), p);
      Marks(after.done, ofRequest, ofCurrent) && writes == after.writes
    decreases d, 1
  {
    hide TraceOf;
    hide LeavesOf;
    hide Sane;
    writes := before;
    assert earlier + [] == earlier;
    for k := 0 to |d.keys|
      invariant Marks(TraceOf(earlier + LeavesUnder(d, k), p).done, ofRequest, ofCurrent)
      invariant writes == TraceOf(earlier + LeavesUnder(d, k), p).writes
    {
      assert d.keys[k] in d.keys;
      writes := PerformAllocations(d.at[d.keys[k]], p, ofRequest, ofCurrent, writes, earlier + LeavesUnder(d, k));
      assert earlier + LeavesUnder(d, k + 1) == earlier + LeavesUnder(d, k) + LeavesOf(d.at[d.keys[k]]);
    }
  }

  /** `perform_allocations` of a tree. */
  method PerformAllocations(v: Value, p: Platform, ofRequest: RdtGroups, ofCurrent: RdtGroups, before: seq<Write>,
                            ghost earlier: seq<AllocationValue>)
    returns (writes: seq<Write>)
    requires Sane(v)
    requires Marks(TraceOf(earlier, p).done, ofRequest, ofCurrent) && before == TraceOf(earlier, p).writes
    modifies ofRequest`alreadyExecuted, ofCurrent`alreadyExecuted
    ensures var after := TraceOf(earlier + LeavesOf(v), p); Marks(after.done, ofRequest, ofCurrent) && writes == after.writes
    decreases v, 0
  {
    hide TraceOf;
    hide Performed;
    match v
    case Leaf(leaf) =>
      TraceOfNext(earlier, leaf, p);
      writes := PerformValue(leaf, p, ofRequest, ofCurrent, before, TraceOf(earlier, p));
    case Tree(d) =>
      writes := PerformKeys(d, p, ofRequest, ofCurrent, before, earlier);
  }

  // ----- Which values are written -----

  /** The first value of its group that asks its object. */
  ghost predicate IsFirst(values: seq<AllocationValue>, i: nat) {
    && i < |values| && values[i].Rdt?
    && forall j :: 0 <= j < i && values[j].Rdt? && values[j].counter == values[i].counter ==>
         GroupName(values[j]) != GroupName(values[i])
  }

  ghost predicate IsWriteOf(w: Write, v: AllocationValue, p: Platform) {
    v.Rdt? && LinesOf(v, p) != NO_LINES && w == Write(GroupName(v), v.counter, v.resgroup, LinesOf(v, p))
  }

  lemma {:induction false} DoneMeans(values: seq<AllocationValue>, p: Platform, c: Counter, name: string)
    ensures name in Seen(TraceOf(values, p).done, c) <==>
      exists i :: 0 <= i < |values| && values[i].Rdt? && values[i].counter == c && GroupName(values[i]) == name
  {
    hide LinesOf;
    if values != [] {
      DoneMeans(values[..|values| - 1], p, c, name);
    }
  }

  /** What is written is exactly the rows of the first value of every group for either object, where it has rows. */
  lemma {:induction false} WrittenIff(values: seq<AllocationValue>, p: Platform, w: Write)
    ensures w in TraceOf(values, p).writes <==> exists i :: 0 <= i < |values| && IsFirst(values, i) && IsWriteOf(w, values[i], p)
  {
    hide LinesOf;
    if values != [] {
      var init, last := values[..|values| - 1], values[|values| - 1];
      WrittenIff(init, p, w);
      if last.Rdt? {
        DoneMeans(init, p, last.counter, GroupName(last));
        LastIsFirst(values, p);
      }
      FirstInPrefix(values, p, w);
    }
  }

  lemma LastIsFirst(values: seq<AllocationValue>, p: Platform)
    requires values != [] && values[|values| - 1].Rdt?
    ensures var init, last := values[..|values| - 1], values[|values| - 1];
      IsFirst(values, |values| - 1) <==> !(exists i :: 0 <= i < |init| && init[i].Rdt? && init[i].counter == last.counter
                                                     && GroupName(init[i]) == GroupName(last))
  {
    var init, last := values[..|values| - 1], values[|values| - 1];
    if !IsFirst(values, |values| - 1) {
      var j :| 0 <= j < |values| - 1 && values[j].Rdt? && values[j].counter == last.counter
        && GroupName(values[j]) == GroupName(last);
      assert init[j] == values[j];
    }
  }

  lemma FirstInPrefix(values: seq<AllocationValue>, p: Platform, w: Write)
    requires values != []
    ensures var init := values[..|values| - 1];
      (exists i :: 0 <= i < |values| && IsFirst(values, i) && IsWriteOf(w, values[i], p)) <==>
      (exists i :: 0 <= i < |init| && IsFirst(init, i) && IsWriteOf(w, init[i], p)) ||
      (IsFirst(values, |values| - 1) && IsWriteOf(w, values[|values| - 1], p))
  {
    hide IsWriteOf;
    var init := values[..|values| - 1];
    forall i | 0 <= i < |init| ensures IsFirst(values, i) <==> IsFirst(init, i) {
      assert init[i] == values[i];
    }
    if i :| 0 <= i < |init| && IsFirst(init, i) && IsWriteOf(w, init[i], p) {
      assert IsFirst(values, i) && values[i] == init[i];
    }
    if i :| 0 <= i < |init| && IsFirst(values, i) && IsWriteOf(w, values[i], p) {
      assert IsFirst(init, i) && values[i] == init[i];
    }
  }

  /** A group is written at most once by each of the two objects, hence at most twice in a round. */
  ghost predicate OncePerObject(writes: seq<Write>) {
    forall i, j :: 0 <= i < j < |writes| ==> writes[i].name != writes[j].name || writes[i].counter != writes[j].counter
  }

  lemma SeenWith(g: Groups, c: Counter, name: string, d: Counter, other: string)
    ensures other in Seen(WithGroup(g, c, name), d) <==> other in Seen(g, d) || (d == c && other == name)
  {
  }

  /** Every group written is marked by the object that decided it. */
  ghost predicate AllDone(t: Trace) {
    forall i :: 0 <= i < |t.writes| ==> t.writes[i].name in Seen(t.done, t.writes[i].counter)
  }

  lemma PerformedIsDone(t: Trace, v: AllocationValue, p: Platform)
    requires AllDone(t)
    ensures AllDone(Performed(t, v, p))
  {
    hide LinesOf;
    hide Seen;
    hide WithGroup;
    var after := Performed(t, v, p);
    forall i | 0 <= i < |after.writes| ensures after.writes[i].name in Seen(after.done, after.writes[i].counter) {
      if v.Rdt? {
        SeenWith(t.done, v.counter, GroupName(v), after.writes[i].counter, after.writes[i].name);
      }
      assert i < |t.writes| ==> after.writes[i] == t.writes[i];
    }
  }

  lemma {:induction false} WritesAreDone(values: seq<AllocationValue>, p: Platform)
    ensures AllDone(TraceOf(values, p))
  {
    hide AllDone;
    hide Performed;
    if values != [] {
      WritesAreDone(values[..|values| - 1], p);
      PerformedIsDone(TraceOf(values[..|values| - 1], p), values[|values| - 1], p);
    } else {
      assert AllDone(NO_WRITES) by { NothingDone(); }
    }
  }

  lemma NothingDone()
    ensures AllDone(NO_WRITES)
  {
  }

  lemma {:induction false} WrittenOncePerObject(values: seq<AllocationValue>, p: Platform)
    ensures OncePerObject(TraceOf(values, p).writes)
  {
    hide LinesOf;
    if values != [] {
      WrittenOncePerObject(values[..|values| - 1], p);
      WritesAreDone(values[..|values| - 1], p);
    }
  }

  // ----- Whether every value's rows reach its group -----

  /** Rows equal to those of the value are written to the group it names. */
  ghost predicate Reaches(values: seq<AllocationValue>, i: nat, p: Platform)
    requires i < |values| && values[i].Rdt?
  {
    exists w :: w in TraceOf(values, p).writes && w.resgroup == GroupName(values[i]) && w.lines == LinesOf(values[i], p)
  }

  ghost predicate AllReach(values: seq<AllocationValue>, p: Platform) {
    forall i :: 0 <= i < |values| && values[i].Rdt? && LinesOf(values[i], p) != NO_LINES ==> Reaches(values, i, p)
  }

  /** Value `j` comes first in its group for its object, is kept in the group that value `i` names, and has the rows of
      value `i`. */
  ghost predicate SpeaksFor(values: seq<AllocationValue>, j: nat, i: nat, p: Platform)
    requires i < |values| && values[i].Rdt?
  {
    IsFirst(values, j) && values[j].resgroup == GroupName(values[i]) && LinesOf(values[j], p) == LinesOf(values[i], p)
  }

  lemma ReachesIff(values: seq<AllocationValue>, i: nat, p: Platform)
    requires i < |values| && values[i].Rdt? && LinesOf(values[i], p) != NO_LINES
    ensures Reaches(values, i, p) <==> exists j :: 0 <= j < |values| && SpeaksFor(values, j, i, p)
  {
    hide TraceOf;
    hide LinesOf;
    hide IsFirst;
    if Reaches(values, i, p) {
      var w :| w in TraceOf(values, p).writes && w.resgroup == GroupName(values[i]) && w.lines == LinesOf(values[i], p);
      WrittenIff(values, p, w);
      var j :| 0 <= j < |values| && IsFirst(values, j) && IsWriteOf(w, values[j], p);
      FirstIsRdt(values, j);
      assert SpeaksFor(values, j, i, p);
    }
    if j :| 0 <= j < |values| && SpeaksFor(values, j, i, p) {
      FirstIsRdt(values, j);
      var w := Write(GroupName(values[j]), values[j].counter, values[j].resgroup, LinesOf(values[j], p));
      assert IsWriteOf(w, values[j], p);
      WrittenIff(values, p, w);
    }
  }

  lemma FirstIsRdt(values: seq<AllocationValue>, j: nat)
    ensures IsFirst(values, j) ==> j < |values| && values[j].Rdt?
  {
  }

  /** The rows of every value reach the group it names if and only if every value with rows has the rows of a value that
      is kept in that group and comes first in its own group for one of the two objects. */
  lemma AllReachIff(values: seq<AllocationValue>, p: Platform)
    ensures AllReach(values, p) <==>
      forall i :: 0 <= i < |values| && values[i].Rdt? && LinesOf(values[i], p) != NO_LINES ==>
        exists j :: 0 <= j < |values| && SpeaksFor(values, j, i, p)
  {
    hide LinesOf;
    hide Reaches;
    hide SpeaksFor;
    forall i | 0 <= i < |values| && values[i].Rdt? && LinesOf(values[i], p) != NO_LINES
      ensures Reaches(values, i, p) <==> exists j :: 0 <= j < |values| && SpeaksFor(values, j, i, p)
    {
      ReachesIff(values, i, p);
    }
  }

  // ----- Rows that go astray -----

  /** A value is kept in the group it names: rows are marked under the one and written to the other. */
  predicate Home(v: AllocationValue) { v.Rdt? ==> v.resgroup == GroupName(v) }

  ghost predicate Strays(w: Write) { w.resgroup != w.name }

  ghost predicate IsStray(values: seq<AllocationValue>, i: nat, p: Platform) {
    IsFirst(values, i) && LinesOf(values[i], p) != NO_LINES && !Home(values[i])
  }

  /** Rows go to another group than the one they are meant for exactly when a value that comes first in its group and has
      rows is not kept in the group it names. */
  lemma StraysIff(values: seq<AllocationValue>, p: Platform)
    ensures (exists k :: 0 <= k < |TraceOf(values, p).writes| && Strays(TraceOf(values, p).writes[k])) <==>
      exists i :: 0 <= i < |values| && IsStray(values, i, p)
  {
    hide TraceOf;
    hide LinesOf;
    var writes := TraceOf(values, p).writes;
    if k :| 0 <= k < |writes| && Strays(writes[k]) {
      WrittenIff(values, p, writes[k]);
      var i :| 0 <= i < |values| && IsFirst(values, i) && IsWriteOf(writes[k], values[i], p);
      assert IsStray(values, i, p);
    }
    if i :| 0 <= i < |values| && IsStray(values, i, p) {
      FirstIsRdt(values, i);
      var w := Write(GroupName(values[i]), values[i].counter, values[i].resgroup, LinesOf(values[i], p));
      assert IsWriteOf(w, values[i], p);
      WrittenIff(values, p, w);
      var k :| 0 <= k < |writes| && writes[k] == w;
      assert Strays(writes[k]);
    }
  }

  /** For one container, what the comparison of two values gives to perform is kept in the group it names exactly when it
      moves there or the current value is. */
  lemma ChangesetIsHomeIff(wanted: AllocationValue, current: AllocationValue)
    requires wanted.Rdt? && current.Rdt? && wanted.container == current.container && RdtChange(wanted, current).Ok?
    ensures var changeset := RdtChange(wanted, current).value.changeset;
      changeset.Some? ==> (Home(changeset.value) <==> GroupName(wanted) != GroupName(current) || Home(current))
  {
    hide Rdt.Changed;
  }

  // ----- A value alone in its group -----

  /** The domain values of a group after the rows written to it, one after the other. */
  ghost function GroupAfter(before: map<string, string>, writes: seq<Write>, name: string, resource: Resource): map<string, string> {
    if writes == [] then before
    else
      var earlier, last := GroupAfter(before, writes[..|writes| - 1], name, resource), writes[|writes| - 1];
      if last.resgroup != name || !Truthy(last.lines.Text(resource)) then earlier
      else
        var row := RowOf(last.lines.Text(resource));
        Rdt.Written(earlier, row, |row|)
  }

  /** The value names the group or is kept in it. */
  ghost predicate Touches(v: AllocationValue, name: string) { v.Rdt? && (GroupName(v) == name || v.resgroup == name) }

  /** No value but the one at `i` names the group or is kept in it. */
  ghost predicate NoOtherTouches(values: seq<AllocationValue>, i: nat, name: string) {
    forall j :: 0 <= j < |values| && j != i ==> !Touches(values[j], name)
  }

  lemma GroupAfterNext(before: map<string, string>, writes: seq<Write>, w: Write, name: string, resource: Resource)
    ensures w.resgroup != name ==> GroupAfter(before, writes + [w], name, resource) == GroupAfter(before, writes, name, resource)
    ensures w.resgroup == name && !Truthy(w.lines.Text(resource)) ==>
      GroupAfter(before, writes + [w], name, resource) == GroupAfter(before, writes, name, resource)
    ensures w.resgroup == name && Truthy(w.lines.Text(resource)) ==>
      var row := RowOf(w.lines.Text(resource));
      GroupAfter(before, writes + [w], name, resource) == Rdt.Written(GroupAfter(before, writes, name, resource), row, |row|)
  {
    hide RowOf;
    hide Rdt.Written;
    assert (writes + [w])[..|writes|] == writes;
  }

  lemma OtherGroup(t: Trace, v: AllocationValue, p: Platform, before: map<string, string>, name: string, resource: Resource)
    requires !Touches(v, name)
    ensures GroupAfter(before, Performed(t, v, p).writes, name, resource) == GroupAfter(before, t.writes, name, resource)
  {
    hide LinesOf;
    hide GroupAfter;
    if v.Rdt? {
      GroupAfterNext(before, t.writes, Write(GroupName(v), v.counter, v.resgroup, LinesOf(v, p)), name, resource);
    }
  }

  /** A group that no value names or is kept in is left as it is. */
  lemma {:induction false} UntouchedGroup(values: seq<AllocationValue>, p: Platform, before: map<string, string>,
                                          name: string, resource: Resource)
    requires forall j :: 0 <= j < |values| ==> !Touches(values[j], name)
    ensures GroupAfter(before, TraceOf(values, p).writes, name, resource) == before
  {
    hide Performed;
    hide Touches;
    if values != [] {
      UntouchedGroup(values[..|values| - 1], p, before, name, resource);
      OtherGroup(TraceOf(values[..|values| - 1], p), values[|values| - 1], p, before, name, resource);
    }
  }

  /** A group that one value names and is kept in gets the rows of that value that the platform controls. */
  lemma {:induction false} GroupOfOne(values: seq<AllocationValue>, i: nat, p: Platform, before: map<string, string>,
                                      resource: Resource)
    requires i < |values| && values[i].Rdt? && Home(values[i]) && NoOtherTouches(values, i, GroupName(values[i]))
    ensures var text := LinesOf(values[i], p).Text(resource);
      GroupAfter(before, TraceOf(values, p).writes, GroupName(values[i]), resource)
        == if Truthy(text) then Rdt.Written(before, RowOf(text), |RowOf(text)|) else before
    decreases |values|
  {
    hide LinesOf;
    hide GroupAfter;
    hide RowOf;
    hide Rdt.Written;
    var init, last, name := values[..|values| - 1], values[|values| - 1], GroupName(values[i]);
    if i < |init| {
      GroupOfOne(init, i, p, before, resource);
      OtherGroup(TraceOf(init, p), last, p, before, name, resource);
    } else {
      UntouchedGroup(init, p, before, name, resource);
      DoneMeans(init, p, last.counter, name);
      assert forall j :: 0 <= j < |init| ==> !Touches(init[j], name);
      GroupAfterNext(before, TraceOf(init, p).writes, Write(name, last.counter, last.resgroup, LinesOf(last, p)), name, resource);
    }
  }

  /** What the diff of one value says about its group, `AfterWrite`, is what the group holds after the round, if the current
      value is kept in the group it names, no other value of the changeset names that group or is kept in it, and the
      platform controls the rows. */
  lemma AloneIsRight(wanted: AllocationValue, current: AllocationValue, row: Row, resource: Resource,
                     values: seq<AllocationValue>, i: nat, p: Platform)
    requires wanted.Rdt? && current.Rdt? && GroupName(wanted) == GroupName(current) && RdtChange(wanted, current).Ok?
    requires wanted.container == current.container && Home(current)
    requires if resource.Cache? then p.cacheControl else p.mbControl
    requires var changeset := RdtChange(wanted, current).value.changeset;
      if changeset.Some? then i < |values| && values[i] == changeset.value && NoOtherTouches(values, i, GroupName(wanted))
      else forall j :: 0 <= j < |values| ==> !Touches(values[j], GroupName(wanted))
    ensures GroupAfter(Rdt.Written(map[], row, |row|), TraceOf(values, p).writes, GroupName(wanted), resource)
      == AfterWrite(row, RdtChange(wanted, current).value, resource)
  {
    hide TraceOf;
    hide GroupAfter;
    hide RowOf;
    hide Rdt.Written;
    hide Rdt.Changed;
    hide Touches;
    if RdtChange(wanted, current).value.changeset.Some? {
      GroupOfOne(values, i, p, Rdt.Written(map[], row, |row|), resource);
    } else {
      UntouchedGroup(values, p, Rdt.Written(map[], row, |row|), GroupName(wanted), resource);
    }
  }

  /** In the same group: nothing moves, and of the two rows only those asked for and reported as changed are written. */
  lemma StaysPut(wanted: AllocationValue, current: AllocationValue, resource: Resource)
    requires wanted.Rdt? && current.Rdt? && GroupName(wanted) == GroupName(current) && RdtChange(wanted, current).Ok?
    ensures var change := RdtChange(wanted, current).value;
      && change.target.Rdt? && change.target.source == None && GroupName(change.target) == GroupName(current)
      && (change.changeset.Some? ==>
            && change.changeset.value.Rdt? && change.changeset.value.source == None
            && change.changeset.value.rows.name == wanted.rows.name && change.changeset.value.resgroup == current.resgroup
            && change.changeset.value.container == current.container && change.changeset.value.counter == current.counter
            && resource.Text(change.changeset.value.rows) in {None, resource.Text(wanted.rows)})
  {
    hide Rdt.Changed;
  }

  // ----- A value that moves into a group -----

  /** What is performed when the two groups differ: the rows asked for, in the group asked for, coming from the current one. */
  lemma MoveCarries(wanted: AllocationValue, current: AllocationValue, resource: Resource)
    requires wanted.Rdt? && current.Rdt? && GroupName(wanted) != GroupName(current)
    ensures RdtChange(wanted, current).Ok? && RdtChange(wanted, current).value.target == wanted
    ensures var changeset := RdtChange(wanted, current).value.changeset;
      && changeset.Some? && changeset.value.Rdt?
      && resource.Text(changeset.value.rows) == resource.Text(wanted.rows)
      && GroupName(changeset.value) == changeset.value.resgroup == GroupName(wanted)
      && changeset.value.source == Some(GroupName(current))
      && changeset.value.container == wanted.container && changeset.value.counter == wanted.counter
  {
  }

  /** If no other value touches the group moved to, every domain of the row asked for has the value asked for there once the
      changeset was performed, and every other domain is as it was; cache and bandwidth alike. */
  lemma MoveIsRight(wanted: AllocationValue, current: AllocationValue, resource: Resource, values: seq<AllocationValue>, i: nat,
                    p: Platform, before: map<string, string>, id: string)
    requires wanted.Rdt? && current.Rdt? && GroupName(wanted) != GroupName(current)
    requires i < |values| && RdtChange(wanted, current) == Ok(Change(wanted, Some(values[i])))
    requires NoOtherTouches(values, i, GroupName(wanted))
    requires if resource.Cache? then p.cacheControl else p.mbControl
    ensures var row := RowOf(resource.Text(wanted.rows));
      var after := GroupAfter(before, TraceOf(values, p).writes, GroupName(wanted), resource);
      && (HasId(row, id) ==> id in after && after[id] == Lookup(row, id).value)
      && (!HasId(row, id) ==> (id in after <==> id in before) && (id in before ==> after[id] == before[id]))
  {
    hide TraceOf;
    hide GroupAfter;
    hide ParseRow;
    MoveCarries(wanted, current, resource);
    GroupOfOne(values, i, p, before, resource);
    var row := RowOf(resource.Text(wanted.rows));
    EmptyParses();
    Rdt.WrittenIsOverride(before, row, |row|, id);
    assert row[..|row|] == row;
  }

  // ----- Two tasks in one group -----

  /** A task in a control group, with the cache row it has or asks for. */
  function InGroup(task: string, name: string, row: Option<string>, counter: Counter): AllocationValue {
    Rdt(task, Rows(Some(name), row, None), name, None, counter)
  }

  /** What moving a task into another group gives to perform. */
  function Moved(task: string, to: string, row: Option<string>, from: string): AllocationValue {
    Rdt(task, Rows(Some(to), row, None), to, Some(from), OfRequest)
  }

  lemma MoveIsChange(task: string, to: string, row: Option<string>, from: string, had: Option<string>)
    requires to != from
    ensures var r := RdtChange(InGroup(task, to, row, OfRequest), InGroup(task, from, had, OfCurrent));
      r.Ok? && r.value.changeset == Some(Moved(task, to, row, from))
  {
  }

  lemma TraceOfTwo(a: AllocationValue, b: AllocationValue, p: Platform)
    ensures TraceOf([a, b], p) == Performed(Performed(NO_WRITES, a, p), b, p)
  {
    assert [a, b][..1] == [a] && [a][..0] == [];
    assert TraceOf([], p) == NO_WRITES && TraceOf([a], p) == Performed(NO_WRITES, a, p);
  }

  /** Two tasks move into a group and only the second brings a row: the first marks the group, and the row of the
      second is never written. */
  lemma RowsMayBeLost(first: string, second: string, to: string, row: string, from: string, p: Platform)
    requires row != "" && p.cacheControl
    ensures var values := [Moved(first, to, None, from), Moved(second, to, Some(row), from)];
      TraceOf(values, p).writes == [] && !AllReach(values, p)
  {
    var values := [Moved(first, to, None, from), Moved(second, to, Some(row), from)];
    TraceOfTwo(values[0], values[1], p);
    assert LinesOf(values[0], p) == NO_LINES && LinesOf(values[1], p) == Lines(Some(row), None);
    assert values[1].Rdt? && !Reaches(values, 1, p);
  }

  /** A task changes the row of its group while another moves into it: the group is written twice, once for either
      object. */
  lemma GroupMayBeWrittenTwice(stays: string, moves: string, to: string, from: string, other: string, p: Platform)
    requires to != from && other != "" && p.cacheControl
    ensures var changed := RdtChange(InGroup(stays, to, Some(ONE_DOMAIN), OfRequest), InGroup(stays, to, Some(BOTH_DOMAINS), OfCurrent));
      && changed.Ok? && changed.value.changeset.Some?
      && var values := [changed.value.changeset.value, Moved(moves, to, Some(other), from)];
         TraceOf(values, p).writes == [Write(to, OfCurrent, to, Lines(Some(ONE_DOMAIN), None)), Write(to, OfRequest, to, Lines(Some(other), None))]
  {
    hide RdtChange;
    var a, b := InGroup(stays, to, Some(ONE_DOMAIN), OfCurrent), Moved(moves, to, Some(other), from);
    StayIsChange(stays, to);
    TraceOfTwo(a, b, p);
    assert LinesOf(a, p) == Lines(Some(ONE_DOMAIN), None) && LinesOf(b, p) == Lines(Some(other), None);
  }

  lemma StayIsChange(task: string, to: string)
    ensures RdtChange(InGroup(task, to, Some(ONE_DOMAIN), OfRequest), InGroup(task, to, Some(BOTH_DOMAINS), OfCurrent)).Ok?
    ensures RdtChange(InGroup(task, to, Some(ONE_DOMAIN), OfRequest), InGroup(task, to, Some(BOTH_DOMAINS), OfCurrent)).value.changeset
      == Some(InGroup(task, to, Some(ONE_DOMAIN), OfCurrent))
  {
    ExampleIsChanged();
    NothingChanged();
    hide Rdt.Changed;
  }

  lemma NothingChanged()
    ensures Rdt.Changed(None, None) == Ok(false)
  {
  }
}
