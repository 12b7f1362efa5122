/** When building a request raises something else than InvalidAllocations, in terms of what was asked for: values are
    checked in order, task by task, and the first one that does not pass decides. */
module AllocationEscapes {
  import opened Dicts
  import ListFormat
  import opened Schemata
  import opened AllocationValues
  import opened Allocations
  import opened AllocationValidation
  import opened AllocationRunner
  import MemoryBandwidth
  import Rdt

  // ----- One value -----

  /** A cache row that is looked at and raises a ValueError. */
  ghost predicate CacheEscapes(l3: Option<string>, p: Platform) {
    l3 != None && l3 != Some("") && p.cacheControl && Rdt.L3Unreadable(l3.value, p.sockets, p.cbmMask, p.minCbmBits)
  }

  ghost predicate CachePasses(l3: Option<string>, p: Platform) {
    l3 == None || l3 == Some("") || (p.cacheControl && Rdt.L3Accepted(l3.value, p.sockets, p.cbmMask, p.minCbmBits))
  }

  /** A bandwidth row that is looked at and cannot be parsed. */
  ghost predicate BandwidthEscapes(mb: Option<string>, p: Platform) {
    && mb != None && mb != Some("") && p.mbControl
    && MemoryBandwidth.StartsWith(mb.value, MemoryBandwidth.MB) && ParseRow(mb.value).Failed?
  }

  /** A list that is not empty but lists nothing, a cache row that is unreadable, or a bandwidth row that cannot be
      parsed next to a cache row that passes. */
  ghost predicate LeafEscapes(v: AllocationValue, p: Platform) {
    match v
    case Number(_, _, _, _, _) => false
    case Cores(text, _) => ListsNothing(text)
    case Rdt(_, rows, _, _, _) => CacheEscapes(rows.l3, p) || (CachePasses(rows.l3, p) && BandwidthEscapes(rows.mb, p))
  }

  /** The exception that escapes. */
  function Escaping(v: AllocationValue): Error { if v.Cores? then IndexError else ValueError }

  ghost predicate Escaped<T>(r: Result<T>) { r.Failed? && !r.error.InvalidAllocations? }

  lemma CacheEscapesIff(l3: Option<string>, p: Platform)
    ensures L3Checked(l3, p).Ok? <==> CachePasses(l3, p)
    ensures Escaped(L3Checked(l3, p)) <==> CacheEscapes(l3, p)
    ensures CacheEscapes(l3, p) ==> L3Checked(l3, p) == Failed(ValueError)
  {
    hide Rdt.L3Verdict;
    hide Rdt.L3Accepted;
    hide Rdt.L3Unreadable;
    if Truthy(l3) {
      Rdt.L3VerdictIff(l3.value, p.sockets, p.cbmMask, p.minCbmBits);
    }
  }

  lemma BandwidthEscapesIff(mb: Option<string>, p: Platform)
    ensures Escaped(MbChecked(mb, p)) <==> BandwidthEscapes(mb, p)
    ensures BandwidthEscapes(mb, p) ==> MbChecked(mb, p) == Failed(ValueError)
  {
    hide ParseRow;
    hide MemoryBandwidth.DomainsExist;
    if Truthy(mb) {
      ParseInvertsPrint(mb.value, []);
    }
  }

  /** Validating a value raises something else than InvalidAllocations exactly for these, a ValueError or an IndexError. */
  lemma LeafEscapesIff(v: AllocationValue, p: Platform)
    ensures Escaped(LeafVerdict(v, p)) <==> LeafEscapes(v, p)
    ensures LeafEscapes(v, p) ==> LeafVerdict(v, p) == Failed(Escaping(v))
  {
    hide CoresVerdict;
    hide L3Checked;
    hide MbChecked;
    hide CachePasses;
    hide CacheEscapes;
    hide BandwidthEscapes;
    hide ListsNothing;
    if v.Cores? {
      RefusedProperlyIff(v);
    } else if v.Rdt? {
      CacheEscapesIff(v.rows.l3, p);
      BandwidthEscapesIff(v.rows.mb, p);
    }
  }

  ghost predicate BandwidthPasses(mb: Option<string>, p: Platform) {
    mb == None || mb == Some("") || (p.mbControl && MemoryBandwidth.MbAccepted(mb.value, p.sockets, p.mbMinimum))
  }

  /** A number within its bounds, where swap is off if that is needed; an empty list or one that lists some cpus, all of them
      there; rows that are accepted on a platform that controls them. */
  ghost predicate LeafPasses(v: AllocationValue, p: Platform) {
    match v
    case Number(value, lowest, highest, _, needsNoSwap) =>
      && (lowest.Some? ==> lowest.value <= value)
      && (highest.Some? ==> value <= highest.value)
      && !(needsNoSwap && p.swap)
    case Cores(text, last) =>
      && ListFormat.Decode(text).Ok? && !ListsNothing(text)
      && forall x :: x in ListFormat.Decode(text).value ==> 0 <= x <= last
    case Rdt(_, rows, _, _, _) => CachePasses(rows.l3, p) && BandwidthPasses(rows.mb, p)
  }

  lemma CoresPassIff(v: AllocationValue)
    requires v.Cores?
    ensures CoresVerdict(v).Ok? <==> LeafPasses(v, SMALL_PLATFORM)
  {
    hide ListFormat.Decode;
    RefusedProperlyIff(v);
    NothingIsRead();
    ListFormat.ListsNothingIff(v.text);
    hide ListsNothing;
  }

  lemma NothingIsRead()
    ensures ListFormat.Decode("") == Ok({})
  {
  }

  lemma BandwidthPassesIff(mb: Option<string>, p: Platform)
    ensures MbChecked(mb, p).Ok? <==> BandwidthPasses(mb, p)
  {
    hide MemoryBandwidth.Normalized;
    hide MemoryBandwidth.MbAccepted;
    if Truthy(mb) {
      MemoryBandwidth.NormalizedIff(mb.value, p.sockets, p.mbMinimum, p.mbGranularity);
    }
  }

  /** Validating a value succeeds exactly for these. */
  lemma LeafPassesIff(v: AllocationValue, p: Platform)
    ensures LeafValid(v, p) <==> LeafPasses(v, p)
  {
    hide CoresVerdict;
    hide L3Checked;
    hide MbChecked;
    hide CachePasses;
    hide BandwidthPasses;
    hide ListFormat.Decode;
    hide ListsNothing;
    if v.Cores? {
      CoresPassIff(v);
    } else if v.Rdt? {
      CacheEscapesIff(v.rows.l3, p);
      BandwidthPassesIff(v.rows.mb, p);
    }
  }

  // ----- Values in a row -----

  /** The groups that values name. */
  ghost function NamesIn(values: seq<AllocationValue>): set<string> {
    if values == [] then {}
    else NamesIn(values[..|values| - 1]) + if values[|values| - 1].Rdt? then {GroupName(values[|values| - 1])} else {}
  }

  /** All values are valid, and with the groups counted before they do not name too many. */
  ghost predicate Passes(values: seq<AllocationValue>, x: Context, before: set<string>) {
    (forall i :: 0 <= i < |values| ==> LeafPasses(values[i], x.p)) && |before + NamesIn(values)| <= x.closids
  }

  /** Everything before value `n` passes, but that value raises something else than InvalidAllocations. */
  ghost predicate EscapesAt(values: seq<AllocationValue>, n: nat, x: Context, before: set<string>) {
    n < |values| && Passes(values[..n], x, before) && LeafEscapes(values[n], x.p)
  }

  /** Values validated one after the other. */
  ghost function Checked(values: seq<AllocationValue>, x: Context, c: Counter, g: Groups): Verdict {
    if values == [] then Verdict(Ok(()), g)
    else
      var before := Checked(values[..|values| - 1], x, c, g);
      if before.result.Failed? then before
      else LeafValidated(Built(values[|values| - 1], c).leaf, x.p, x.closids, before.groups)
  }

  function WithNames(g: Groups, c: Counter, names: set<string>): Groups {
    if c.OfRequest? then g.(ofRequest := g.ofRequest + names) else g.(ofCurrent := g.ofCurrent + names)
  }

  lemma {:induction false} NoMore<T>(s: set<T>, t: set<T>)
    requires s <= t
    ensures |s| <= |t|
    decreases s
  {
    if s != {} {
      var e :| e in s;
      NoMore(s - {e}, t - {e});
    }
  }

  lemma BuiltVerdict(v: AllocationValue, c: Counter, p: Platform)
    ensures var leaf := Built(v, c).leaf;
      && LeafVerdict(leaf, p) == LeafVerdict(v, p)
      && (leaf.Rdt? <==> v.Rdt?)
      && (v.Rdt? ==> GroupName(leaf) == GroupName(v) && leaf.counter == c)
  {
    hide L3Checked;
    hide MbChecked;
  }

  lemma PrefixPasses(values: seq<AllocationValue>, x: Context, before: set<string>)
    requires values != []
    ensures Passes(values, x, before) ==>
      Passes(values[..|values| - 1], x, before) && LeafPasses(values[|values| - 1], x.p)
  {
    hide LeafPasses;
    var init := values[..|values| - 1];
    if Passes(values, x, before) {
      forall i | 0 <= i < |init| ensures LeafPasses(init[i], x.p) {
        assert init[i] == values[i];
      }
      NoMore(before + NamesIn(init), before + NamesIn(values));
    }
  }

  lemma LastPasses(values: seq<AllocationValue>, x: Context, before: set<string>)
    requires values != [] && Passes(values[..|values| - 1], x, before) && LeafPasses(values[|values| - 1], x.p)
    ensures Passes(values, x, before) <==> |before + NamesIn(values)| <= x.closids
    ensures !values[|values| - 1].Rdt? ==> Passes(values, x, before)
  {
    hide LeafPasses;
    SameNamesIn(values);
    hide NamesIn;
    var init := values[..|values| - 1];
    forall i | 0 <= i < |values| ensures LeafPasses(values[i], x.p) {
      assert i < |init| ==> init[i] == values[i];
    }
  }

  lemma SameNamesIn(values: seq<AllocationValue>)
    requires values != []
    ensures !values[|values| - 1].Rdt? ==> NamesIn(values) == NamesIn(values[..|values| - 1])
  {
  }

  /** Values pass one after the other exactly when they pass together. */
  lemma {:induction false} CheckedIff(values: seq<AllocationValue>, x: Context, c: Counter, g: Groups)
    requires |Seen(g, c)| <= x.closids
    ensures Checked(values, x, c, g).result.Ok? <==> Passes(values, x, Seen(g, c))
    ensures Checked(values, x, c, g).result.Ok? ==> Checked(values, x, c, g).groups == WithNames(g, c, NamesIn(values))
  {
    hide LeafVerdict;
    hide LeafPasses;
    hide Passes;
    hide NamesIn;
    if values != [] {
      var init, last := values[..|values| - 1], values[|values| - 1];
      CheckedIff(init, x, c, g);
      LeafPassesIff(last, x.p);
      PrefixPasses(values, x, Seen(g, c));
      if Checked(init, x, c, g).result.Ok? {
        BuiltVerdict(last, c, x.p);
        LeafPassesIff(last, x.p);
        if LeafValid(last, x.p) {
          LastPasses(values, x, Seen(g, c));
          assert init + [last] == values;
          LastCounts(init, last, c, g);
        }
      }
    } else {
      NothingChecked(x, c, g);
    }
  }

  lemma NothingChecked(x: Context, c: Counter, g: Groups)
    requires |Seen(g, c)| <= x.closids
    ensures Passes([], x, Seen(g, c)) && WithNames(g, c, NamesIn([])) == g
  {
    assert Seen(g, c) + {} == Seen(g, c);
  }

  lemma LastCounts(init: seq<AllocationValue>, last: AllocationValue, c: Counter, g: Groups)
    ensures var names := NamesIn(init + [last]);
      && names == NamesIn(init) + (if last.Rdt? then {GroupName(last)} else {})
      && (last.Rdt? ==> WithGroup(WithNames(g, c, NamesIn(init)), c, GroupName(last)) == WithNames(g, c, names))
      && Seen(WithNames(g, c, names), c) == Seen(g, c) + names
  {
    assert (init + [last])[..|init|] == init;
  }

  ghost predicate SomeEscapes(values: seq<AllocationValue>, x: Context, before: set<string>) {
    exists n :: 0 <= n < |values| && EscapesAt(values, n, x, before)
  }

  lemma EscapesInPrefix(values: seq<AllocationValue>, x: Context, before: set<string>)
    requires values != []
    ensures var init := values[..|values| - 1];
      SomeEscapes(values, x, before) <==>
        SomeEscapes(init, x, before) || (Passes(init, x, before) && LeafEscapes(values[|values| - 1], x.p))
  {
    hide Passes;
    hide LeafEscapes;
    var init := values[..|values| - 1];
    forall n | 0 <= n < |init| ensures EscapesAt(values, n, x, before) <==> EscapesAt(init, n, x, before) {
      assert init[..n] == values[..n] && init[n] == values[n];
    }
    if n :| 0 <= n < |init| && EscapesAt(init, n, x, before) {
      assert EscapesAt(values, n, x, before);
    }
    if n :| 0 <= n < |init| && EscapesAt(values, n, x, before) {
      assert EscapesAt(init, n, x, before);
    }
    assert EscapesAt(values, |values| - 1, x, before) <==> Passes(init, x, before) && LeafEscapes(values[|values| - 1], x.p);
  }

  lemma EscapingIsInvalid(values: seq<AllocationValue>, x: Context, before: set<string>)
    requires SomeEscapes(values, x, before)
    ensures !Passes(values, x, before)
  {
    hide LeafVerdict;
    hide LeafEscapes;
    var n :| 0 <= n < |values| && EscapesAt(values, n, x, before);
    LeafEscapesIff(values[n], x.p);
    LeafPassesIff(values[n], x.p);
    hide LeafPasses;
    assert !LeafValid(values[n], x.p);
  }

  /** Validating values in a row raises something else than InvalidAllocations exactly when one of them does and everything
      before it passes. */
  lemma {:induction false} CheckedEscapesIff(values: seq<AllocationValue>, x: Context, c: Counter, g: Groups)
    requires |Seen(g, c)| <= x.closids
    ensures Escaped(Checked(values, x, c, g).result) <==> SomeEscapes(values, x, Seen(g, c))
  {
    hide LeafVerdict;
    hide LeafEscapes;
    hide Passes;
    hide SomeEscapes;
    if values != [] {
      var init, last := values[..|values| - 1], values[|values| - 1];
      CheckedEscapesIff(init, x, c, g);
      CheckedIff(init, x, c, g);
      EscapesInPrefix(values, x, Seen(g, c));
      BuiltVerdict(last, c, x.p);
      LeafEscapesIff(last, x.p);
    } else {
      NothingEscapes(x, Seen(g, c));
    }
  }

  lemma NothingEscapes(x: Context, before: set<string>)
    ensures !SomeEscapes([], x, before)
  {
  }

  lemma {:induction false} CheckedStops(values: seq<AllocationValue>, more: seq<AllocationValue>, x: Context, c: Counter,
                                        g: Groups)
    requires Checked(values, x, c, g).result.Failed?
    ensures Checked(values + more, x, c, g) == Checked(values, x, c, g)
    decreases |more|
  {
    hide LeafValidated;
    if more != [] {
      CheckedStops(values, more[..|more| - 1], x, c, g);
      assert (values + more)[..|values + more| - 1] == values + more[..|more| - 1];
    } else {
      assert values + more == values;
    }
  }

  // ----- The values of a request -----

  function ValuesOf(task: Dict<string, AllocationValue>): (r: seq<AllocationValue>)
    requires task.Valid()
    ensures |r| == |task.keys| && forall j :: 0 <= j < |r| ==> task.keys[j] in task.at && r[j] == task.at[task.keys[j]]
  {
    seq(|task.keys|, j requires 0 <= j < |task.keys| => task.at[task.keys[j]])
  }

  /** What is asked for the first `k` tasks, in the order in which it is built and validated. */
  ghost function Asked(raw: Raw, k: nat): seq<AllocationValue>
    requires ValidRaw(raw) && k <= |raw.keys|
  {
    if k == 0 then [] else Asked(raw, k - 1) + ValuesOf(raw.at[raw.keys[k - 1]])
  }

  ghost predicate Supported(task: Dict<string, AllocationValue>, k: nat, x: Context)
    requires k <= |task.keys|
  {
    forall j :: 0 <= j < k ==> task.keys[j] in x.kinds
  }

  /** The first `k` tasks have a container, and are asked for supported kinds of allocation only. */
  ghost predicate Known(raw: Raw, k: nat, x: Context)
    requires ValidRaw(raw) && k <= |raw.keys|
  {
    forall i :: 0 <= i < k ==>
      raw.keys[i] in x.tasks && raw.keys[i] in raw.at && Supported(raw.at[raw.keys[i]], |raw.at[raw.keys[i]].keys|, x)
  }

  /** The dictionary holds the first `k` values, boxed. */
  ghost predicate Boxes(d: Dict<string, Value>, task: Dict<string, AllocationValue>, k: nat, c: Counter)
    requires task.Valid() && k <= |task.keys|
  {
    && d.Valid() && d.keys == task.keys[..k]
    && forall j :: 0 <= j < k ==> task.keys[j] in d.at && d.at[task.keys[j]] == Built(ValuesOf(task)[j], c)
  }

  lemma NewKey<V, W>(a: Dict<string, V>, d: Dict<string, W>, k: nat)
    requires a.Valid() && d.Valid() && k < |a.keys| && d.keys == a.keys[..k]
    ensures a.keys[k] !in d.at && a.keys[..k + 1] == a.keys[..k] + [a.keys[k]]
    ensures forall j :: 0 <= j < k ==> a.keys[j] != a.keys[k]
  {
  }

  lemma BoxesOneMore(d: Dict<string, Value>, task: Dict<string, AllocationValue>, k: nat, c: Counter)
    requires task.Valid() && k < |task.keys| && Boxes(d, task, k, c)
    ensures Boxes(d.Put(task.keys[k], Built(ValuesOf(task)[k], c)), task, k + 1, c)
  {
    hide Built;
    NewKey(task, d, k);
    hide Dict.Valid;
  }

  lemma NoneBoxed(task: Dict<string, AllocationValue>, c: Counter)
    requires task.Valid()
    ensures Boxes(EmptyDict(), task, 0, c)
  {
  }

  lemma {:induction false} BuiltIff(task: Dict<string, AllocationValue>, k: nat, x: Context, c: Counter)
    requires task.Valid() && k <= |task.keys|
    ensures var r := BuiltTask(task, k, x.kinds, c);
      if Supported(task, k, x) then r.Ok? && Boxes(r.value, task, k, c) else r == Failed(InvalidAllocations)
  {
    hide Boxes;
    hide Built;
    if k > 0 {
      BuiltIff(task, k - 1, x, c);
      if Supported(task, k, x) {
        assert ValuesOf(task)[k - 1] == task.at[task.keys[k - 1]];
        BoxesOneMore(BuiltTask(task, k - 1, x.kinds, c).value, task, k - 1, c);
      }
    } else {
      NoneBoxed(task, c);
    }
  }

  /** Validating a boxed task goes on where the tasks before it stopped. */
  lemma {:induction false} KeysAreChecked(d: Dict<string, Value>, task: Dict<string, AllocationValue>, k: nat,
                                          earlier: seq<AllocationValue>, x: Context, c: Counter, g: Groups)
    requires task.Valid() && Boxes(d, task, |task.keys|, c) && k <= |task.keys|
    requires Checked(earlier, x, c, g).result.Ok?
    ensures d.Valid() && d.keys == task.keys
    ensures KeysValidated(d, k, x.p, x.closids, Checked(earlier, x, c, g).groups)
      == Checked(earlier + ValuesOf(task)[..k], x, c, g)
    decreases k
  {
    hide LeafValidated;
    hide Boxes;
    BoxesAll(d, task, c);
    var values := ValuesOf(task);
    if k > 0 {
      KeysAreChecked(d, task, k - 1, earlier, x, c, g);
      NextChecked(earlier, values, k, x, c, g);
      BoxedAt(d, task, k - 1, c);
    } else {
      assert earlier + values[..0] == earlier;
      var r := Checked(earlier, x, c, g).result;
      assert r == Ok(r.value) && r.value == ();
    }
  }

  lemma NextChecked(earlier: seq<AllocationValue>, values: seq<AllocationValue>, k: nat, x: Context, c: Counter, g: Groups)
    requires 0 < k <= |values|
    ensures var before := Checked(earlier + values[..k - 1], x, c, g);
      Checked(earlier + values[..k], x, c, g) == if before.result.Failed? then before
        else LeafValidated(Built(values[k - 1], c).leaf, x.p, x.closids, before.groups)
  {
    hide LeafValidated;
    var now := earlier + values[..k];
    assert now[..|now| - 1] == earlier + values[..k - 1] && now[|now| - 1] == values[k - 1];
  }

  lemma BoxedAt(d: Dict<string, Value>, task: Dict<string, AllocationValue>, j: nat, c: Counter)
    requires task.Valid() && j < |task.keys| && Boxes(d, task, |task.keys|, c)
    ensures d.Valid() && d.keys == task.keys && d.at[d.keys[j]] == Built(ValuesOf(task)[j], c)
  {
  }

  lemma BoxesAll(d: Dict<string, Value>, task: Dict<string, AllocationValue>, c: Counter)
    requires task.Valid() && Boxes(d, task, |task.keys|, c)
    ensures d.Valid() && d.keys == task.keys
  {
  }

  lemma TaskIsChecked(task: Dict<string, AllocationValue>, earlier: seq<AllocationValue>, x: Context, c: Counter, g: Groups)
    requires task.Valid() && Checked(earlier, x, c, g).result.Ok?
    ensures var r := TaskCreated(task, x, c, Checked(earlier, x, c, g).groups);
      if Supported(task, |task.keys|, x)
      then (var v := Checked(earlier + ValuesOf(task), x, c, g);
            r.groups == v.groups && (if v.result.Ok? then r.result.Ok? && Boxes(r.result.value, task, |task.keys|, c)
                                     else r.result == Failed(v.result.error)))
      else r.result == Failed(InvalidAllocations)
  {
    hide Checked;
    hide KeysValidated;
    hide BuiltTask;
    hide Boxes;
    BuiltIff(task, |task.keys|, x, c);
    if Supported(task, |task.keys|, x) {
      var d := BuiltTask(task, |task.keys|, x.kinds, c).value;
      KeysAreChecked(d, task, |task.keys|, earlier, x, c, g);
      assert ValuesOf(task)[..|task.keys|] == ValuesOf(task);
      BoxesAll(d, task, c);
    }
  }

  // ----- Building a request -----

  /** What is asked for the first `i` tasks, all of them known, has a value that escapes. */
  ghost predicate EscapesBy(raw: Raw, i: nat, x: Context, before: set<string>)
    requires ValidRaw(raw)
  {
    0 < i <= |raw.keys| && Known(raw, i, x) && SomeEscapes(Asked(raw, i), x, before)
  }

  ghost predicate EscapesUpTo(raw: Raw, k: nat, x: Context, before: set<string>)
    requires ValidRaw(raw) && k <= |raw.keys|
  {
    exists i :: 0 < i <= k && EscapesBy(raw, i, x, before)
  }

  lemma OneMoreTask(raw: Raw, k: nat, x: Context, before: set<string>)
    requires ValidRaw(raw) && 0 < k <= |raw.keys|
    ensures raw.keys[k - 1] in raw.at
    ensures var task := raw.at[raw.keys[k - 1]];
      Known(raw, k, x) <==> Known(raw, k - 1, x) && raw.keys[k - 1] in x.tasks && Supported(task, |task.keys|, x)
    ensures EscapesUpTo(raw, k, x, before) <==> EscapesUpTo(raw, k - 1, x, before) || EscapesBy(raw, k, x, before)
  {
    hide EscapesBy;
    hide Supported;
    assert raw.keys[k - 1] in raw.keys;
  }

  lemma NothingAsked(raw: Raw, x: Context, c: Counter, g: Groups)
    requires ValidRaw(raw)
    ensures Asked(raw, 0) == [] && Checked([], x, c, g) == Verdict(Ok(()), g)
    ensures Known(raw, 0, x) && !EscapesUpTo(raw, 0, x, Seen(g, c))
  {
  }

  /** Once a task was refused, the tasks behind it make no difference. */
  lemma RefusalIsFinal(raw: Raw, k: nat, x: Context, c: Counter, g: Groups)
    requires ValidRaw(raw) && 0 < k <= |raw.keys| && |Seen(g, c)| <= x.closids
    requires !(Known(raw, k - 1, x) && Checked(Asked(raw, k - 1), x, c, g).result.Ok?)
    ensures !(Known(raw, k, x) && Checked(Asked(raw, k), x, c, g).result.Ok?)
    ensures EscapesUpTo(raw, k, x, Seen(g, c)) ==> EscapesUpTo(raw, k - 1, x, Seen(g, c))
  {
    hide Checked;
    hide Supported;
    hide SomeEscapes;
    OneMoreTask(raw, k, x, Seen(g, c));
    if Known(raw, k, x) {
      CheckedStops(Asked(raw, k - 1), ValuesOf(raw.at[raw.keys[k - 1]]), x, c, g);
      CheckedEscapesIff(Asked(raw, k), x, c, g);
      CheckedEscapesIff(Asked(raw, k - 1), x, c, g);
      NothingAsked(raw, x, c, g);
      if EscapesBy(raw, k, x, Seen(g, c)) {
        assert EscapesBy(raw, k - 1, x, Seen(g, c));
      }
    }
  }

  lemma NextIsChecked(raw: Raw, k: nat, x: Context, c: Counter, g: Groups)
    requires ValidRaw(raw) && 0 < k <= |raw.keys| && |Seen(g, c)| <= x.closids
    requires Known(raw, k - 1, x) && Checked(Asked(raw, k - 1), x, c, g).result.Ok?
    requires Created(raw, k - 1, x, c, g).result.Ok?
    requires Created(raw, k - 1, x, c, g).groups == Checked(Asked(raw, k - 1), x, c, g).groups
    ensures var r := Created(raw, k, x, c, g);
      if Known(raw, k, x)
      then r.result.Ok? == Checked(Asked(raw, k), x, c, g).result.Ok? && r.groups == Checked(Asked(raw, k), x, c, g).groups
        && (r.result.Failed? ==> r.result.error == Checked(Asked(raw, k), x, c, g).result.error)
      else r.result == Failed(InvalidAllocations)
    ensures EscapesUpTo(raw, k, x, Seen(g, c)) <==>
      EscapesUpTo(raw, k - 1, x, Seen(g, c)) || (Known(raw, k, x) && Escaped(Checked(Asked(raw, k), x, c, g).result))
  {
    hide TaskCreated;
    hide Checked;
    hide Supported;
    hide SomeEscapes;
    hide EscapesUpTo;
    hide Boxes;
    OneMoreTask(raw, k, x, Seen(g, c));
    TaskIsChecked(raw.at[raw.keys[k - 1]], Asked(raw, k - 1), x, c, g);
    CheckedEscapesIff(Asked(raw, k), x, c, g);
  }

  lemma {:induction false} CreatedIff(raw: Raw, k: nat, x: Context, c: Counter, g: Groups)
    requires ValidRaw(raw) && k <= |raw.keys| && |Seen(g, c)| <= x.closids
    ensures var r := Created(raw, k, x, c, g);
      && (r.result.Ok? <==> Known(raw, k, x) && Checked(Asked(raw, k), x, c, g).result.Ok?)
      && (r.result.Ok? ==> r.groups == Checked(Asked(raw, k), x, c, g).groups)
      && (Escaped(r.result) <==> EscapesUpTo(raw, k, x, Seen(g, c)))
  {
    hide TaskCreated;
    hide Checked;
    hide Known;
    hide EscapesUpTo;
    hide Asked;
    if k > 0 {
      CreatedIff(raw, k - 1, x, c, g);
      if Created(raw, k - 1, x, c, g).result.Ok? {
        NextIsChecked(raw, k, x, c, g);
      } else {
        RefusalIsFinal(raw, k, x, c, g);
        if EscapesUpTo(raw, k - 1, x, Seen(g, c)) {
          MoreEscapes(raw, k, x, Seen(g, c));
        }
      }
    } else {
      NothingAsked(raw, x, c, g);
    }
  }

  lemma MoreEscapes(raw: Raw, k: nat, x: Context, before: set<string>)
    requires ValidRaw(raw) && 0 < k <= |raw.keys| && EscapesUpTo(raw, k - 1, x, before)
    ensures EscapesUpTo(raw, k, x, before)
  {
    hide EscapesBy;
  }

  /** A request can be built: its tasks and kinds are known, all values are valid and do not name too many groups. */
  ghost predicate Builds(raw: Raw, x: Context)
    requires ValidRaw(raw)
  {
    Known(raw, |raw.keys|, x) && Passes(Asked(raw, |raw.keys|), x, {})
  }

  /** Some value asked for makes building raise something else than InvalidAllocations: it escapes, all tasks up to its own
      are known, and all values before it are valid and do not name too many groups. */
  ghost predicate BuildEscapes(raw: Raw, x: Context)
    requires ValidRaw(raw)
  {
    EscapesUpTo(raw, |raw.keys|, x, {})
  }

  /** Building succeeds, or raises something else than InvalidAllocations, exactly under these conditions on what is
      asked. */
  lemma BuildingIff(raw: Raw, x: Context, c: Counter, g: Groups)
    requires ValidRaw(raw) && Seen(g, c) == {}
    ensures var r := Created(raw, |raw.keys|, x, c, g);
      && (r.result.Ok? <==> Builds(raw, x))
      && (r.result.Ok? ==> r.groups == WithNames(g, c, NamesIn(Asked(raw, |raw.keys|))))
      && (Escaped(r.result) <==> BuildEscapes(raw, x))
  {
    hide Created;
    hide Checked;
    hide Known;
    hide EscapesUpTo;
    hide Passes;
    CreatedIff(raw, |raw.keys|, x, c, g);
    CheckedIff(Asked(raw, |raw.keys|), x, c, g);
  }

  // ----- What is built -----

  ghost predicate BoxesTask(v: Value, task: Dict<string, AllocationValue>, c: Counter) {
    && v.Tree? && v.d.at.Keys == task.at.Keys
    && forall kind :: kind in task.at ==> v.d.at[kind] == Built(task.at[kind], c)
  }

  /** The tree holds the values of the first `k` tasks, boxed. */
  ghost predicate BoxesRaw(d: Dict<string, Value>, raw: Raw, k: nat, c: Counter)
    requires ValidRaw(raw) && k <= |raw.keys|
  {
    && d.Valid() && d.keys == raw.keys[..k]
    && forall i :: 0 <= i < k ==>
         raw.keys[i] in d.at && raw.keys[i] in raw.at && BoxesTask(d.at[raw.keys[i]], raw.at[raw.keys[i]], c)
  }

  lemma BoxedTask(d: Dict<string, Value>, task: Dict<string, AllocationValue>, c: Counter)
    requires task.Valid() && Boxes(d, task, |task.keys|, c)
    ensures BoxesTask(Tree(d), task, c)
  {
    forall kind ensures kind in task.at <==> kind in d.at {
    }
    forall kind | kind in task.at ensures d.at[kind] == Built(task.at[kind], c) {
      var j :| 0 <= j < |task.keys| && task.keys[j] == kind;
    }
  }

  lemma BoxesOneMoreTask(d: Dict<string, Value>, raw: Raw, k: nat, v: Value, c: Counter)
    requires ValidRaw(raw) && k < |raw.keys| && BoxesRaw(d, raw, k, c)
    requires raw.keys[k] in raw.at && BoxesTask(v, raw.at[raw.keys[k]], c)
    ensures BoxesRaw(d.Put(raw.keys[k], v), raw, k + 1, c)
  {
    hide BoxesTask;
    NewKey(raw, d, k);
    hide Dict.Valid;
  }

  lemma NoTaskBoxed(raw: Raw, c: Counter)
    requires ValidRaw(raw)
    ensures BoxesRaw(EmptyDict(), raw, 0, c)
  {
  }

  lemma {:induction false} CreatedBoxes(raw: Raw, k: nat, x: Context, c: Counter, g: Groups)
    requires ValidRaw(raw) && k <= |raw.keys| && Created(raw, k, x, c, g).result.Ok?
    ensures BoxesRaw(Created(raw, k, x, c, g).result.value, raw, k, c)
  {
    hide Boxes;
    hide BoxesRaw;
    hide BoxesTask;
    hide BuiltTask;
    hide Validated;
    if k > 0 {
      CreatedBoxes(raw, k - 1, x, c, g);
      var task := raw.at[raw.keys[k - 1]];
      BuiltIff(task, |task.keys|, x, c);
      BoxedTask(BuiltTask(task, |task.keys|, x.kinds, c).value, task, c);
      var before, d := Created(raw, k - 1, x, c, g).result.value, BuiltTask(task, |task.keys|, x.kinds, c).value;
      BoxesOneMoreTask(before, raw, k - 1, Tree(d), c);
    } else {
      NoTaskBoxed(raw, c);
    }
  }
}
