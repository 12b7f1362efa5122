/** Validating a tree of allocations, and counting the resctrl groups it uses: `validate` of wca/allocations.py,
    wca/cgroups_allocations.py and wca/resctrl_allocations.py. */
module AllocationValidation {
  import opened Dicts
  import ListFormat
  import Text
  import opened AllocationValues
  import opened Allocations
  import MemoryBandwidth
  import Rdt


  // ----- Leaves -----

  method ValidateCores(v: AllocationValue) returns (r: Result<()>)
    requires v.Cores?
    ensures r == CoresVerdict(v)
  {
    hide ListFormat.Decode;
    var cores := ListFormat.DecodeListformat(v.text);
    if cores.Failed? { return Failed(InvalidAllocations); }
    if v.text == "" { return Ok(()); }
    if cores.value == {} { return Failed(IndexError); }
    if exists x :: x in cores.value && (x < 0 || x > v.last) { return Failed(InvalidAllocations); }
    return Ok(());
  }

  /** A text that is not empty and lists nothing: it is blank, or every part has more than one dash or is a range that ends
      before it starts. */
  predicate ListsNothing(text: string) {
    text != "" && (ListFormat.IsBlank(text) ||
                   forall i :: 0 <= i < |Text.Split(text, ',')| ==> ListFormat.PartListsNothing(Text.Split(text, ',')[i]))
  }

  /** A list is refused properly, with InvalidAllocations or not at all, if and only if it is empty or lists something. */
  lemma RefusedProperlyIff(v: AllocationValue)
    requires v.Cores?
    ensures CoresVerdict(v) == Failed(IndexError) <==> ListsNothing(v.text)
    ensures CoresVerdict(v).Failed? && !ListsNothing(v.text) ==> CoresVerdict(v) == Failed(InvalidAllocations)
  {
    hide ListFormat.Decode;
    ListFormat.ListsNothingIff(v.text);
  }

  /** For instance a blank, a part with two dashes, and a range the wrong way round. */
  lemma ImproperlyRefused(last: int)
    ensures CoresVerdict(Cores(" ", last)) == Failed(IndexError)
    ensures CoresVerdict(Cores("1-2-3", last)) == Failed(IndexError)
    ensures CoresVerdict(Cores("3-1", last)) == Failed(IndexError)
  {
    hide ListFormat.Decode;
    BlankDecodes();
    ListFormat.TwoDashesListNothing();
    ListFormat.BackwardRangeListsNothing();
  }

  lemma BlankDecodes()
    ensures ListFormat.Decode(" ") == Ok({})
  {
    assert Text.LStrip(" ", Text.IsSpace) == "" by {
      assert " "[1..] == "";
    }
  }

  method ValidateL3(l3: Option<string>, p: Platform) returns (r: Result<()>)
    ensures r == L3Checked(l3, p)
  {
    hide Rdt.L3Verdict;
    if !Truthy(l3) { return Ok(()); }
    if !p.cacheControl { return Failed(InvalidAllocations); }
    r := Rdt.ValidateL3String(l3.value, p.sockets, p.cbmMask, p.minCbmBits);
  }

  method ValidateMb(mb: Option<string>, p: Platform) returns (r: Result<()>)
    ensures r == MbChecked(mb, p)
  {
    hide MemoryBandwidth.Normalized;
    if !Truthy(mb) { return Ok(()); }
    if !p.mbControl { return Failed(InvalidAllocations); }
    var normalized := MemoryBandwidth.NormalizeMbString(mb.value, p.sockets, p.mbMinimum, p.mbGranularity);
    return if normalized.Failed? then Failed(normalized.error) else Ok(());
  }

  // ----- Counting groups -----

  /** The groups seen so far by the two RDTGroups objects of a round. */
  datatype Groups = Groups(ofRequest: set<string>, ofCurrent: set<string>)

  function Seen(g: Groups, c: Counter): set<string> { if c.OfRequest? then g.ofRequest else g.ofCurrent }

  function WithGroup(g: Groups, c: Counter, name: string): Groups {
    if c.OfRequest? then Groups(g.ofRequest + {name}, g.ofCurrent)
    else Groups(g.ofRequest, g.ofCurrent + {name})
  }

  class RdtGroups {
    const limit: nat
    var existing: set<string>
    var alreadyExecuted: set<string>

    constructor (limit: nat)
      ensures this.limit == limit && existing == {} && alreadyExecuted == {}
    {
      this.limit := limit;
      existing, alreadyExecuted := {}, {};
    }

    /** `should_perform_schemata_write`. */
    method ShouldPerformSchemataWrite(name: string) returns (write: bool)
      modifies this`alreadyExecuted
      ensures write == (name !in old(alreadyExecuted))
      ensures alreadyExecuted == old(alreadyExecuted) + {name}
    {
      write := name !in alreadyExecuted;
      alreadyExecuted := alreadyExecuted + {name};
    }

    /** `validate`. */
    method Validate(name: string) returns (ok: bool)
      modifies this`existing
      ensures existing == old(existing) + {name}
      ensures ok == (|existing| <= limit)
    {
      existing := existing + {name};
      ok := |existing| <= limit;
    }
  }

  ghost predicate Counts(g: Groups, ofRequest: RdtGroups, ofCurrent: RdtGroups, limit: nat)
    reads ofRequest, ofCurrent
  {
    && ofRequest != ofCurrent && ofRequest.limit == ofCurrent.limit == limit
    && g == Groups(ofRequest.existing, ofCurrent.existing)
  }

  /** What validating a leaf returns, and the groups seen afterwards. */
  datatype Verdict = Verdict(result: Result<()>, groups: Groups)

  ghost function LeafValidated(v: AllocationValue, p: Platform, limit: nat, g: Groups): Verdict {
    if LeafVerdict(v, p).Failed? || !v.Rdt? then Verdict(LeafVerdict(v, p), g)
    else
      var after := WithGroup(g, v.counter, GroupName(v));
      Verdict(if |Seen(after, v.counter)| <= limit then Ok(()) else Failed(InvalidAllocations), after)
  }

  ghost function Validated(v: Value, p: Platform, limit: nat, g: Groups): Verdict
    decreases v, 0
  {
    match v
    case Leaf(leaf) => LeafValidated(leaf, p, limit, g)
    case Tree(d) => if d.Valid() then KeysValidated(d, |d.keys|, p, limit, g) else Verdict(Ok(()), g)
  }

  ghost function KeysValidated(d: Dict<string, Value>, k: nat, p: Platform, limit: nat, g: Groups): Verdict
    requires d.Valid() && k <= |d.keys|
    decreases d, k
  {
    if k == 0 then Verdict(Ok(()), g)
    else
      var before := KeysValidated(d, k - 1, p, limit, g);
      if before.result.Failed? then before else Validated(d.at[d.keys[k - 1]], p, limit, before.groups)
  }

  method ValidateLeaf(v: AllocationValue, p: Platform, ofRequest: RdtGroups, ofCurrent: RdtGroups, ghost g: Groups)
    returns (r: Result<()>)
    requires Counts(g, ofRequest, ofCurrent, ofRequest.limit)
    modifies ofRequest`existing, ofCurrent`existing
    ensures r == LeafValidated(v, p, ofRequest.limit, g).result
    ensures Counts(LeafValidated(v, p, ofRequest.limit, g).groups, ofRequest, ofCurrent, ofRequest.limit)
  {
    hide CoresVerdict;
    hide L3Checked;
    hide MbChecked;
    match v
    case Number(value, lowest, highest, _, needsNoSwap) =>
      r := if (lowest.Some? && value < lowest.value) || (highest.Some? && value > highest.value)
             || (needsNoSwap && p.swap) then Failed(InvalidAllocations) else Ok(());
    case Cores(_, _) =>
      r := ValidateCores(v);
    case Rdt(_, rows, _, _, counter) =>
      r := ValidateL3(rows.l3, p);
      if r.Ok? {
        r := ValidateMb(rows.mb, p);
      }
      if r.Ok? {
        var ok: bool;
        if counter.OfRequest? {
          ok := ofRequest.Validate(GroupName(v));
        } else {
          ok := ofCurrent.Validate(GroupName(v));
        }
        r := if ok then Ok(()) else Failed(InvalidAllocations);
      }
  }

  lemma {:induction false} FailureIsFinal(d: Dict<string, Value>, j: nat, k: nat, p: Platform, limit: nat, g: Groups)
    requires d.Valid() && j <= k <= |d.keys| && KeysValidated(d, j, p, limit, g).result.Failed?
    ensures KeysValidated(d, k, p, limit, g) == KeysValidated(d, j, p, limit, g)
    decreases k
  {
    hide Validated;
    if j < k {
      FailureIsFinal(d, j, k - 1, p, limit, g);
    }
  }

  method ValidateKeys(d: Dict<string, Value>, p: Platform, ofRequest: RdtGroups, ofCurrent: RdtGroups, ghost g: Groups)
    returns (r: Result<()>)
    requires d.Valid() && (forall k :: k in d.at ==> Sane(d.at[k]))
    requires Counts(g, ofRequest, ofCurrent, ofRequest.limit)
    modifies ofRequest`existing, ofCurrent`existing
    ensures r == KeysValidated(d, |d.keys|, p, ofRequest.limit, g).result
    ensures Counts(KeysValidated(d, |d.keys|, p, ofRequest.limit, g).groups, ofRequest, ofCurrent, ofRequest.limit)
    decreases d, 1
  {
    hide Validated;
    hide Sane;
    r := Ok(());
    var k := 0;
    while k < |d.keys| && r.Ok?
      invariant k <= |d.keys|
      invariant r == KeysValidated(d, k, p, ofRequest.limit, g).result
      invariant Counts(KeysValidated(d, k, p, ofRequest.limit, g).groups, ofRequest, ofCurrent, ofRequest.limit)
    {
      r := Validate(d.at[d.keys[k]], p, ofRequest, ofCurrent, KeysValidated(d, k, p, ofRequest.limit, g).groups);
      k := k + 1;
    }
    if r.Failed? {
      FailureIsFinal(d, k, |d.keys|, p, ofRequest.limit, g);
    }
  }

  /** `validate` of a tree: every leaf in order, until one raises. */
  method Validate(v: Value, p: Platform, ofRequest: RdtGroups, ofCurrent: RdtGroups, ghost g: Groups)
    returns (r: Result<()>)
    requires Sane(v) && Counts(g, ofRequest, ofCurrent, ofRequest.limit)
    modifies ofRequest`existing, ofCurrent`existing
    ensures r == Validated(v, p, ofRequest.limit, g).result
    ensures Counts(Validated(v, p, ofRequest.limit, g).groups, ofRequest, ofCurrent, ofRequest.limit)
    decreases v, 0
  {
    hide LeafValidated;
    match v
    case Leaf(leaf) =>
      r := ValidateLeaf(leaf, p, ofRequest, ofCurrent, g);
    case Tree(d) =>
      r := ValidateKeys(d, p, ofRequest, ofCurrent, g);
  }

  // ----- What a successful validation says -----

  /** Every leaf is valid and its group has been counted. */
  ghost predicate Holds(v: Value, p: Platform, g: Groups) {
    match v
    case Leaf(leaf) => LeafHolds(leaf, p, g)
    case Tree(d) => forall k :: k in d.at ==> Holds(d.at[k], p, g)
  }

  ghost predicate LeafHolds(leaf: AllocationValue, p: Platform, g: Groups) {
    LeafValid(leaf, p) && (leaf.Rdt? ==> GroupName(leaf) in Seen(g, leaf.counter))
  }

  ghost predicate Grows(g: Groups, h: Groups) { g.ofRequest <= h.ofRequest && g.ofCurrent <= h.ofCurrent }

  ghost predicate WithinLimit(g: Groups, limit: nat) { |g.ofRequest| <= limit && |g.ofCurrent| <= limit }

  lemma {:induction false} HoldsInMore(v: Value, p: Platform, g: Groups, h: Groups)
    requires Holds(v, p, g) && Grows(g, h)
    ensures Holds(v, p, h)
    decreases v
  {
    hide LeafValid;
    if v.Tree? {
      forall k | k in v.d.at ensures Holds(v.d.at[k], p, h) {
        HoldsInMore(v.d.at[k], p, g, h);
      }
    }
  }

  /** A leaf that is already counted validates without counting anything. */
  lemma LeafAgain(leaf: AllocationValue, p: Platform, limit: nat, g: Groups)
    requires LeafHolds(leaf, p, g) && WithinLimit(g, limit)
    ensures LeafValidated(leaf, p, limit, g) == Verdict(Ok(()), g)
  {
    hide LeafVerdict;
    assert LeafVerdict(leaf, p) == Ok(()) by {
      var r := LeafVerdict(leaf, p);
      assert r == Ok(r.value) && r.value == ();
    }
    if leaf.Rdt? {
      var name := GroupName(leaf);
      assert Seen(g, leaf.counter) + {name} == Seen(g, leaf.counter);
    }
  }

  lemma {:induction false} KeysAgain(d: Dict<string, Value>, k: nat, p: Platform, limit: nat, g: Groups)
    requires d.Valid() && k <= |d.keys| && WithinLimit(g, limit)
    requires forall key :: key in d.at ==> Holds(d.at[key], p, g) && Sane(d.at[key])
    ensures KeysValidated(d, k, p, limit, g) == Verdict(Ok(()), g)
    decreases d, k
  {
    hide Holds;
    hide Sane;
    hide Validated;
    if k > 0 {
      KeysAgain(d, k - 1, p, limit, g);
      assert d.keys[k - 1] in d.at;
      ValidatesAgain(d.at[d.keys[k - 1]], p, limit, g);
    }
  }

  /** Valid leaves in counted groups always validate, and count nothing new. */
  lemma {:induction false} ValidatesAgain(v: Value, p: Platform, limit: nat, g: Groups)
    requires Sane(v) && Holds(v, p, g) && WithinLimit(g, limit)
    ensures Validated(v, p, limit, g) == Verdict(Ok(()), g)
    decreases v
  {
    hide KeysValidated;
    hide LeafValidated;
    hide LeafHolds;
    match v
    case Leaf(leaf) =>
      LeafAgain(leaf, p, limit, g);
    case Tree(d) =>
      KeysAgain(d, |d.keys|, p, limit, g);
  }

  lemma LeafValidates(leaf: AllocationValue, p: Platform, limit: nat, g: Groups)
    requires LeafValidated(leaf, p, limit, g).result.Ok? && WithinLimit(g, limit)
    ensures var h := LeafValidated(leaf, p, limit, g).groups; LeafHolds(leaf, p, h) && Grows(g, h) && WithinLimit(h, limit)
  {
    hide LeafVerdict;
  }

  ghost predicate KeysHold(d: Dict<string, Value>, k: nat, p: Platform, g: Groups)
    requires d.Valid() && k <= |d.keys|
  {
    forall i :: 0 <= i < k ==> Holds(d.at[d.keys[i]], p, g)
  }

  lemma KeysHoldInMore(d: Dict<string, Value>, k: nat, p: Platform, g: Groups, h: Groups)
    requires d.Valid() && k <= |d.keys| && KeysHold(d, k, p, g) && Grows(g, h)
    ensures KeysHold(d, k, p, h)
  {
    hide Holds;
    forall i | 0 <= i < k ensures Holds(d.at[d.keys[i]], p, h) {
      HoldsInMore(d.at[d.keys[i]], p, g, h);
    }
  }

  lemma {:induction false} KeysValidate(d: Dict<string, Value>, k: nat, p: Platform, limit: nat, g: Groups)
    requires d.Valid() && k <= |d.keys| && WithinLimit(g, limit) && KeysValidated(d, k, p, limit, g).result.Ok?
    requires forall key :: key in d.at ==> Sane(d.at[key])
    ensures var h := KeysValidated(d, k, p, limit, g).groups; KeysHold(d, k, p, h) && Grows(g, h) && WithinLimit(h, limit)
    decreases d, k
  {
    hide Validated;
    hide Holds;
    hide Sane;
    if k > 0 {
      KeysValidate(d, k - 1, p, limit, g);
      var before := KeysValidated(d, k - 1, p, limit, g).groups;
      var h := KeysValidated(d, k, p, limit, g).groups;
      assert d.keys[k - 1] in d.at;
      ValidatedHolds(d.at[d.keys[k - 1]], p, limit, before);
      KeysHoldInMore(d, k - 1, p, before, h);
    }
  }

  /** A successful validation says that every leaf is valid and counted, within the limit. */
  lemma {:induction false} ValidatedHolds(v: Value, p: Platform, limit: nat, g: Groups)
    requires Sane(v) && WithinLimit(g, limit) && Validated(v, p, limit, g).result.Ok?
    ensures var h := Validated(v, p, limit, g).groups; Holds(v, p, h) && Grows(g, h) && WithinLimit(h, limit)
    decreases v
  {
    hide KeysValidated;
    hide LeafValidated;
    hide LeafHolds;
    match v
    case Leaf(leaf) =>
      LeafValidates(leaf, p, limit, g);
    case Tree(d) =>
      KeysValidate(d, |d.keys|, p, limit, g);
      AllKeysHold(d, p, KeysValidated(d, |d.keys|, p, limit, g).groups);
  }

  lemma AllKeysHold(d: Dict<string, Value>, p: Platform, g: Groups)
    requires d.Valid() && KeysHold(d, |d.keys|, p, g)
    ensures Holds(Tree(d), p, g)
  {
    forall key | key in d.at ensures Holds(d.at[key], p, g) {
      var i :| 0 <= i < |d.keys| && d.keys[i] == key;
    }
  }

  // ----- Merging keeps validity -----

  lemma MergedLeafHolds(wanted: AllocationValue, current: AllocationValue, p: Platform, g: Groups)
    requires LeafHolds(wanted, p, g) && LeafHolds(current, p, g) && LeafChange(wanted, current).Ok?
    ensures LeafHolds(LeafChange(wanted, current).value.target, p, g)
  {
    hide LeafValid;
    hide LeafChange;
    MergedLeafIsValid(wanted, current, p);
  }

  /** Merging a valid request into valid current allocations gives valid allocations in counted groups. */
  lemma {:induction false} MergedHolds(wanted: Value, current: Value, p: Platform, g: Groups)
    requires Sane(wanted) && Sane(current) && Holds(wanted, p, g) && Holds(current, p, g)
    requires ValueChange(wanted, current).Ok?
    ensures Holds(ValueChange(wanted, current).value.target, p, g)
    decreases wanted
  {
    hide KeysChange;
    hide LeafChange;
    hide LeafHolds;
    match (wanted, current)
    case (Leaf(w), Leaf(c)) =>
      MergedLeafHolds(w, c, p, g);
    case (Tree(w), Tree(c)) =>
      var t := KeysChange(w, c, |w.keys|).value.target;
      forall key | key in t.at ensures Holds(t.at[key], p, g) {
        MergedAtKey(w, c, key);
        if key in w.at && key in c.at {
          MergedHolds(w.at[key], c.at[key], p, g);
        }
      }
  }
}
