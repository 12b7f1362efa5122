/** The leaves of an allocation tree: numbers, cpu and node lists, RDT rows. wca/allocations.py,
    wca/cgroups_allocations.py and wca/resctrl_allocations.py. Numbers are exact. */
module AllocationValues {
  import opened Dicts
  import ListFormat
  import opened Schemata
  import opened Text
  import opened LeadingZeros
  import opened Numbers
  import Cbm
  import MemoryBandwidth
  import Rdt

  /** What a value is checked against; the counter names the RDTGroups object that its constructor was given. */
  datatype Platform = Platform(sockets: int, cbmMask: string, minCbmBits: string, mbMinimum: int,
                               mbGranularity: int, cacheControl: bool, mbControl: bool, swap: bool)

  datatype Rows = Rows(name: Option<string>, l3: Option<string>, mb: Option<string>)

  /** Which shared RDTGroups object counts the groups of a value: the one made for the request or the one made
      for the current allocations. */
  datatype Counter = OfRequest | OfCurrent

  datatype AllocationValue =
    | Number(value: real, lowest: Option<real>, highest: Option<real>, sensitivity: real, needsNoSwap: bool)
    | Cores(text: string, last: int)
    | Rdt(container: string, rows: Rows, resgroup: string, source: Option<string>, counter: Counter)

  /** `get_resgroup_name`. */
  function GroupName(v: AllocationValue): string
    requires v.Rdt?
  {
    if v.rows.name.Some? then v.rows.name.value else v.container
  }

  // ----- Comparing numbers -----

  function Abs(x: real): real { if x < 0.0 then -x else x }

  function Max(x: real, y: real): real { if x < y then y else x }

  /** `math.isclose(a, b, abs_tol=sensitivity)`, whose relative tolerance is one in a billion. */
  predicate IsClose(a: real, b: real, sensitivity: real) {
    a == b || Abs(a - b) <= Max(0.000000001 * Max(Abs(a), Abs(b)), sensitivity)
  }

  // ----- calculate_changeset of the leaves -----

  /** The merged value and, if anything changes, the value to apply. */
  datatype Change<T> = Change(target: T, changeset: Option<T>)

  /** The changed value replaces the current one and is applied; otherwise the current one stays. */
  function Replace(wanted: AllocationValue, current: AllocationValue, changed: bool): Change<AllocationValue> {
    if changed then Change(wanted, Some(wanted)) else Change(current, None)
  }

  predicate Truthy(s: Option<string>) { s.Some? && s.value != "" }

  /** Python's `a or b`. */
  function Or(a: Option<string>, b: Option<string>): Option<string> { if Truthy(a) then a else b }

  function Merged(wanted: Rows, current: Rows): Rows {
    Rows(current.name, Or(wanted.l3, current.l3), Or(wanted.mb, current.mb))
  }

  ghost function RdtChange(wanted: AllocationValue, current: AllocationValue): Result<Change<AllocationValue>>
    requires wanted.Rdt? && current.Rdt?
  {
    if GroupName(current) != GroupName(wanted) then
      Ok(Change(wanted, Some(wanted.(resgroup := GroupName(wanted), source := Some(GroupName(current))))))
    else
      match Rdt.Changed(current.rows.l3, wanted.rows.l3)
      case Failed(e) => Failed(e)
      case Ok(l3Changed) =>
        match Rdt.Changed(current.rows.mb, wanted.rows.mb)
        case Failed(e) => Failed(e)
        case Ok(mbChanged) =>
          var target := current.(rows := Merged(wanted.rows, current.rows), source := None);
          var l3 := if l3Changed then wanted.rows.l3 else None;
          var mb := if mbChanged then wanted.rows.mb else None;
          Ok(Change(target,
                    if Truthy(l3) || Truthy(mb)
                    then Some(current.(rows := Rows(wanted.rows.name, l3, mb), source := None)) else None))
  }

  ghost function LeafChange(wanted: AllocationValue, current: AllocationValue): Result<Change<AllocationValue>> {
    if wanted.Number? && current.Number? then
      Ok(Replace(wanted, current, !IsClose(wanted.value, current.value, wanted.sensitivity)))
    else if wanted.Cores? && current.Cores? then
      match ListFormat.Decode(wanted.text)
      case Failed(e) => Failed(e)
      case Ok(a) =>
        match ListFormat.Decode(current.text)
        case Failed(e) => Failed(e)
        case Ok(b) => Ok(Replace(wanted, current, a != b))
    else if wanted.Rdt? && current.Rdt? then RdtChange(wanted, current)
    else Failed(AssertionError)
  }

  method CalculateRdtChangeset(wanted: AllocationValue, current: AllocationValue) returns (r: Result<Change<AllocationValue>>)
    requires wanted.Rdt? && current.Rdt?
    ensures r == RdtChange(wanted, current)
  {
    hide Rdt.Changed;
    var wantedGroup, currentGroup := GroupName(wanted), GroupName(current);
    if currentGroup != wantedGroup {
      return Ok(Change(wanted, Some(wanted.(resgroup := wantedGroup, source := Some(currentGroup)))));
    }
    var target := current.(rows := Merged(wanted.rows, current.rows), source := None);
    var l3: Option<string>, mb: Option<string> := None, None;
    var changed := Rdt.IsRdtSuballocationChanged(current.rows.l3, wanted.rows.l3);
    if changed.Failed? { return Failed(changed.error); }
    if changed.value { l3 := wanted.rows.l3; }
    changed := Rdt.IsRdtSuballocationChanged(current.rows.mb, wanted.rows.mb);
    if changed.Failed? { return Failed(changed.error); }
    if changed.value { mb := wanted.rows.mb; }
    if Truthy(l3) || Truthy(mb) {
      r := Ok(Change(target, Some(current.(rows := Rows(wanted.rows.name, l3, mb), source := None))));
    } else {
      r := Ok(Change(target, None));
    }
  }

  method CalculateLeafChangeset(wanted: AllocationValue, current: AllocationValue) returns (r: Result<Change<AllocationValue>>)
    ensures r == LeafChange(wanted, current)
  {
    hide ListFormat.Decode;
    hide RdtChange;
    if wanted.Number? && current.Number? {
      r := Ok(Replace(wanted, current, !IsClose(wanted.value, current.value, wanted.sensitivity)));
    } else if wanted.Cores? && current.Cores? {
      var a := ListFormat.DecodeListformat(wanted.text);
      if a.Failed? { return Failed(a.error); }
      var b := ListFormat.DecodeListformat(current.text);
      if b.Failed? { return Failed(b.error); }
      r := Ok(Replace(wanted, current, a.value != b.value));
    } else if wanted.Rdt? && current.Rdt? {
      r := CalculateRdtChangeset(wanted, current);
    } else {
      r := Failed(AssertionError);
    }
  }

  // ----- Laws of the leaves -----

  /** Further apart than the sensitivity and than a billionth of either. */
  ghost predicate FarApart(a: real, b: real, sensitivity: real) {
    && (a - b > sensitivity || b - a > sensitivity)
    && (a > b ==> 1000000000.0 * (a - b) > a && 1000000000.0 * (a - b) > -a
                  && 1000000000.0 * (a - b) > b && 1000000000.0 * (a - b) > -b)
    && (b > a ==> 1000000000.0 * (b - a) > a && 1000000000.0 * (b - a) > -a
                  && 1000000000.0 * (b - a) > b && 1000000000.0 * (b - a) > -b)
  }

  lemma CloseIffNotFar(a: real, b: real, sensitivity: real)
    ensures IsClose(a, b, sensitivity) <==> a == b || !FarApart(a, b, sensitivity)
  {
  }

  /** A number changes exactly when it is far from the current one, a list exactly when it denotes another set. */
  lemma PlainChangesIff(wanted: AllocationValue, current: AllocationValue)
    requires !wanted.Rdt? && LeafChange(wanted, current).Ok?
    ensures var changed := LeafChange(wanted, current).value.changeset.Some?;
      if wanted.Number? then
        current.Number? && (changed <==> wanted.value != current.value && FarApart(wanted.value, current.value, wanted.sensitivity))
      else
        current.Cores? && (changed <==> ListFormat.Decode(wanted.text) != ListFormat.Decode(current.text))
  {
    hide ListFormat.Decode;
    hide IsClose;
    hide FarApart;
    if wanted.Number? {
      CloseIffNotFar(wanted.value, current.value, wanted.sensitivity);
    }
  }

  /** Numbers and lists: the changeset is the target, or nothing when the target is the current value. */
  lemma PlainChange(wanted: AllocationValue, current: AllocationValue)
    requires !wanted.Rdt? && LeafChange(wanted, current).Ok?
    ensures var c := LeafChange(wanted, current).value;
      if c.changeset.Some? then c.changeset.value == c.target == wanted else c.target == current
  {
    hide ListFormat.Decode;
    hide IsClose;
  }

  lemma CloseToItself(a: real, sensitivity: real)
    ensures IsClose(a, a, sensitivity)
  {
  }

  lemma {:induction false} RowUnchanged(row: Row)
    requires DistinctIds(row)
    ensures Rdt.NamesOnlyDomainsOf(row, row) && !Rdt.RowsDiffer(row, row)
  {
    forall i | 0 <= i < |row| ensures HasId(row, row[i].id) && !Rdt.Differs(row, row[i]) {
      var v := Lookup(row, row[i].id);
      assert HasId(row, row[i].id);
      var j :| 0 <= j < |row| && row[j] == Entry(row[i].id, v.value);
    }
  }

  ghost predicate Parses(text: Option<string>) { text.Some? ==> ParseRow(text.value).Ok? }

  lemma TextUnchanged(text: Option<string>)
    requires Parses(text)
    ensures Rdt.Changed(text, text) == Ok(false)
  {
    hide ParseRow;
    hide Rdt.RowsDiffer;
    if text.Some? {
      if text.value != "" {
        PrintsWhatIsParsed(text.value);
      } else {
        EmptyParses();
      }
      RowUnchanged(ParseRow(text.value).value);
    }
  }

  lemma EmptyParses()
    ensures ParseRow("") == Ok([])
  {
  }

  lemma MergedUnchanged(wanted: Option<string>, current: Option<string>)
    requires Parses(wanted) && Rdt.Changed(current, wanted).Ok?
    ensures Rdt.Changed(Or(wanted, current), wanted) == Ok(false)
  {
    hide ParseRow;
    hide Rdt.RowsDiffer;
    EmptyParses();
    if Truthy(wanted) {
      TextUnchanged(wanted);
    } else if wanted.Some? {
      assert !Rdt.RowsDiffer(ParseRow(current.value).value, []) by { NothingDiffers(ParseRow(current.value).value); }
    }
  }

  lemma NothingDiffers(row: Row)
    ensures !Rdt.RowsDiffer(row, [])
  {
  }

  ghost predicate RowsParse(v: AllocationValue) { v.Rdt? ==> Parses(v.rows.l3) && Parses(v.rows.mb) }

  lemma RdtSettles(wanted: AllocationValue, current: AllocationValue)
    requires wanted.Rdt? && current.Rdt? && RowsParse(wanted) && RdtChange(wanted, current).Ok?
    ensures var target := RdtChange(wanted, current).value.target;
      target.Rdt? && RdtChange(wanted, target).Ok? && RdtChange(wanted, target).value.changeset.None?
  {
    hide Rdt.Changed;
    hide Parses;
    if GroupName(current) == GroupName(wanted) {
      MergedUnchanged(wanted.rows.l3, current.rows.l3);
      MergedUnchanged(wanted.rows.mb, current.rows.mb);
      var target := RdtChange(wanted, current).value.target;
      assert GroupName(target) == GroupName(current);
    } else {
      SettledByParsing(wanted);
    }
  }

  lemma SettledByParsing(wanted: AllocationValue)
    requires wanted.Rdt? && RowsParse(wanted)
    ensures Rdt.Changed(wanted.rows.l3, wanted.rows.l3) == Ok(false) && Rdt.Changed(wanted.rows.mb, wanted.rows.mb) == Ok(false)
  {
    TextUnchanged(wanted.rows.l3);
    TextUnchanged(wanted.rows.mb);
  }

  /** Every kind of leaf: asking again for the same value, once the target is reached, changes nothing. */
  lemma LeafSettles(wanted: AllocationValue, current: AllocationValue)
    requires RowsParse(wanted) && LeafChange(wanted, current).Ok?
    ensures var target := LeafChange(wanted, current).value.target;
      LeafChange(wanted, target).Ok? && LeafChange(wanted, target).value.changeset.None?
  {
    hide RowsParse;
    hide ListFormat.Decode;
    hide RdtChange;
    if wanted.Rdt? {
      RdtSettles(wanted, current);
    } else if wanted.Number? {
      CloseToItself(wanted.value, wanted.sensitivity);
    }
  }

  // ----- What an RDT changeset does to the group -----

  /** The two kinds of rows of a group, with the base their values are written in. */
  datatype Resource = Cache | Bandwidth {
    function Text(rows: Rows): Option<string> { if Cache? then rows.l3 else rows.mb }
    function Base(): nat { if Cache? then 16 else 10 }
  }

  ghost function RowOf(text: Option<string>): Row {
    if text.Some? && ParseRow(text.value).Ok? then ParseRow(text.value).value else []
  }

  /** The domain values of a group whose row was `current` once the row of the changeset, if any, was written there
      and by no other value. */
  ghost function AfterWrite(current: Row, change: Change<AllocationValue>, resource: Resource): map<string, string> {
    var before := Rdt.Written(map[], current, |current|);
    if change.changeset.None? || !change.changeset.value.Rdt? || !Truthy(resource.Text(change.changeset.value.rows))
    then before
    else
      var row := RowOf(resource.Text(change.changeset.value.rows));
      Rdt.Written(before, row, |row|)
  }

  ghost predicate IsRow(text: Option<string>, row: Row) { text.Some? && ParseRow(text.value) == Ok(row) }

  lemma NothingNamed(row: Row)
    ensures Rdt.NamesOnlyDomainsOf([], row) && !Rdt.RowsDiffer(row, [])
  {
  }

  /** What the comparison reports, and what a text that is not to be written denotes. */
  lemma ComparedRows(current: Option<string>, wanted: Option<string>, row: Row)
    requires IsRow(current, row) && Rdt.Changed(current, wanted).Ok?
    ensures Rdt.NamesOnlyDomainsOf(RowOf(wanted), row)
    ensures Rdt.Changed(current, wanted) == Ok(Rdt.RowsDiffer(row, RowOf(wanted)))
    ensures !Truthy(wanted) ==> RowOf(wanted) == []
  {
    hide ParseRow;
    hide Rdt.RowsDiffer;
    EmptyParses();
    NothingNamed(row);
  }

  lemma WritesWhatChanged(wanted: AllocationValue, current: AllocationValue, row: Row, resource: Resource)
    requires wanted.Rdt? && current.Rdt? && GroupName(wanted) == GroupName(current) && RdtChange(wanted, current).Ok?
    requires IsRow(resource.Text(current.rows), row)
    ensures Rdt.NamesOnlyDomainsOf(RowOf(resource.Text(wanted.rows)), row)
    ensures var newRow := RowOf(resource.Text(wanted.rows));
      AfterWrite(row, RdtChange(wanted, current).value, resource) == Rdt.AfterRound(row, newRow, Rdt.RowsDiffer(row, newRow))
  {
    hide ParseRow;
    hide RowOf;
    hide IsRow;
    hide Rdt.Changed;
    hide Rdt.RowsDiffer;
    hide Rdt.Written;
    ComparedRows(resource.Text(current.rows), resource.Text(wanted.rows), row);
    NothingNamed(row);
  }

  /** In the same group, for cache and bandwidth alike: once what the diff returns for this value was written, every
      domain the new row names has the number asked for, and every other domain is as it was. */
  lemma RdtChangesetIsRight(wanted: AllocationValue, current: AllocationValue, row: Row, resource: Resource, id: string)
    requires wanted.Rdt? && current.Rdt? && GroupName(wanted) == GroupName(current) && RdtChange(wanted, current).Ok?
    requires IsRow(resource.Text(current.rows), row)
    requires Rdt.Reads(row, resource.Base()) && Rdt.Reads(RowOf(resource.Text(wanted.rows)), resource.Base())
    ensures var newRow := RowOf(resource.Text(wanted.rows));
      var after := AfterWrite(row, RdtChange(wanted, current).value, resource);
      && (id in after <==> HasId(row, id))
      && (HasId(newRow, id) ==>
            id in after && ParseInt(after[id], resource.Base()) == ParseInt(Lookup(newRow, id).value, resource.Base()))
      && (HasId(row, id) && !HasId(newRow, id) ==> after[id] == Lookup(row, id).value)
  {
    hide AfterWrite;
    hide RdtChange;
    hide RowOf;
    hide IsRow;
    hide ParseInt;
    WritesWhatChanged(wanted, current, row, resource);
    Rdt.RoundIsRightPerDomain(row, RowOf(resource.Text(wanted.rows)), id, resource.Base());
  }

  /** The row names the domains the group has, with the same numbers. */
  ghost predicate Agrees(row: Row, values: map<string, string>, base: nat) {
    forall id :: AgreesAt(row, values, base, id)
  }

  ghost predicate AgreesAt(row: Row, values: map<string, string>, base: nat, id: string) {
    && (HasId(row, id) <==> id in values)
    && (HasId(row, id) ==> ParseInt(Lookup(row, id).value, base) == ParseInt(values[id], base))
  }

  /** The row of the target: the new one where there is one. */
  lemma TargetRow(wanted: AllocationValue, current: AllocationValue, row: Row, resource: Resource)
    requires wanted.Rdt? && current.Rdt? && GroupName(wanted) == GroupName(current) && RdtChange(wanted, current).Ok?
    requires IsRow(resource.Text(current.rows), row)
    ensures RdtChange(wanted, current).value.target.Rdt?
    ensures RowOf(resource.Text(RdtChange(wanted, current).value.target.rows))
      == if Truthy(resource.Text(wanted.rows)) then RowOf(resource.Text(wanted.rows)) else row
  {
    hide ParseRow;
    hide Rdt.Changed;
  }

  /** The target row agrees with what the group holds afterwards exactly when nothing was asked of the row or the new
      row names all domains of the group: a row that names only some domains replaces the current one in the target,
      while the group keeps the other domains. */
  lemma TargetAgreesIff(wanted: AllocationValue, current: AllocationValue, row: Row, resource: Resource)
    requires wanted.Rdt? && current.Rdt? && GroupName(wanted) == GroupName(current) && RdtChange(wanted, current).Ok?
    requires IsRow(resource.Text(current.rows), row)
    requires Rdt.Reads(row, resource.Base()) && Rdt.Reads(RowOf(resource.Text(wanted.rows)), resource.Base())
    ensures RdtChange(wanted, current).value.target.Rdt?
    ensures var change := RdtChange(wanted, current).value;
      Agrees(RowOf(resource.Text(change.target.rows)), AfterWrite(row, change, resource), resource.Base()) <==>
        !Truthy(resource.Text(wanted.rows)) || Rdt.NamesOnlyDomainsOf(row, RowOf(resource.Text(wanted.rows)))
  {
    hide AfterWrite;
    hide RdtChange;
    hide RowOf;
    hide IsRow;
    hide ParseInt;
    hide AgreesAt;
    var change := RdtChange(wanted, current).value;
    var text, base := resource.Text(wanted.rows), resource.Base();
    var after := AfterWrite(row, change, resource);
    TargetRow(wanted, current, row, resource);
    var target := RowOf(resource.Text(change.target.rows));
    forall id ensures AgreesAt(target, after, base, id) <==> !HasId(row, id) || HasId(target, id) {
      RdtChangesetIsRight(wanted, current, row, resource, id);
      NothingAsked(wanted, current, row, resource);
      AgreesWhereNamed(target, RowOf(text), row, after, base, id);
    }
    if !Rdt.NamesOnlyDomainsOf(row, target) {
      var i :| 0 <= i < |row| && !HasId(target, row[i].id);
      assert HasId(row, row[i].id) && !AgreesAt(target, after, base, row[i].id);
    }
    NamesItself(row);
  }

  lemma NamesItself(row: Row)
    ensures Rdt.NamesOnlyDomainsOf(row, row)
  {
    forall i | 0 <= i < |row| ensures HasId(row, row[i].id) {
    }
  }

  lemma NothingAsked(wanted: AllocationValue, current: AllocationValue, row: Row, resource: Resource)
    requires wanted.Rdt? && current.Rdt? && GroupName(wanted) == GroupName(current) && RdtChange(wanted, current).Ok?
    requires IsRow(resource.Text(current.rows), row)
    ensures Rdt.NamesOnlyDomainsOf(RowOf(resource.Text(wanted.rows)), row)
    ensures !Truthy(resource.Text(wanted.rows)) ==> RowOf(resource.Text(wanted.rows)) == []
  {
    hide ParseRow;
    hide Rdt.Changed;
    hide Rdt.NamesOnlyDomainsOf;
    hide RowOf;
    hide IsRow;
    ComparedRows(resource.Text(current.rows), resource.Text(wanted.rows), row);
  }

  lemma AgreesWhereNamed(target: Row, newRow: Row, row: Row, after: map<string, string>, base: nat, id: string)
    requires target == newRow || (newRow == [] && target == row)
    requires Rdt.NamesOnlyDomainsOf(newRow, row)
    requires id in after <==> HasId(row, id)
    requires HasId(newRow, id) ==> id in after && ParseInt(after[id], base) == ParseInt(Lookup(newRow, id).value, base)
    requires HasId(row, id) && !HasId(newRow, id) ==> after[id] == Lookup(row, id).value
    ensures AgreesAt(target, after, base, id) <==> !HasId(row, id) || HasId(target, id)
  {
    hide ParseInt;
    if HasId(newRow, id) {
      var i :| 0 <= i < |newRow| && newRow[i].id == id;
      assert HasId(row, newRow[i].id);
    }
  }

  // ----- An example -----

  const BOTH_DOMAINS: string := "L3:0=f;1=f"
  const ONE_DOMAIN: string := "L3:0=3"

  function Both(): Row { [Entry("0", "f"), Entry("1", "f")] }

  function One(): Row { [Entry("0", "3")] }

  lemma BothDomainsParse()
    ensures ParseRow(BOTH_DOMAINS) == Ok(Both())
  {
    hide ParseRow;
    assert "0" + ['='] + "f" == "0=f" && "1" + ['='] + "f" == "1=f";
    assert Printed(Both()) == ["0=f", "1=f"] && ["0=f", "1=f"][1..] == ["1=f"];
    assert "0=f" + [';'] + "1=f" == "0=f;1=f";
    FindAfter("L3", ':', "0=f;1=f");
    assert "L3" + [':'] + "0=f;1=f" == BOTH_DOMAINS && BOTH_DOMAINS[3..] == "0=f;1=f";
    ParsesWhatIsPrinted(BOTH_DOMAINS, Both());
  }

  lemma OneDomainParses()
    ensures ParseRow(ONE_DOMAIN) == Ok(One())
  {
    hide ParseRow;
    assert "0" + ['='] + "3" == "0=3";
    assert Printed(One()) == ["0=3"];
    FindAfter("L3", ':', "0=3");
    assert "L3" + [':'] + "0=3" == ONE_DOMAIN && ONE_DOMAIN[3..] == "0=3";
    ParsesWhatIsPrinted(ONE_DOMAIN, One());
  }

  function CacheOnly(container: string, row: string, counter: Counter): AllocationValue {
    Rdt(container, Rows(None, Some(row), None), container, None, counter)
  }

  lemma DigitReads(s: string, d: nat, base: nat)
    requires |s| == 1 && IsDigit(s[0], base) && DigitValue(s[0]) == Some(d)
    ensures ParseInt(s, base) == Some(d)
  {
    hide ParseInt;
    Rdt.ValueOfDigit(s, d, base);
    NumeralReads(s, base);
  }

  lemma ExampleRows()
    ensures Rdt.NamesOnlyDomainsOf(One(), Both()) && !Rdt.NamesOnlyDomainsOf(Both(), One())
    ensures Rdt.Reads(Both(), 16) && Rdt.Reads(One(), 16)
  {
    assert Both()[0].id == "0" && !HasId(One(), Both()[1].id);
    hide ParseInt;
    DigitReads("f", 15, 16);
    DigitReads("3", 3, 16);
  }

  lemma ExampleIsChanged()
    ensures Rdt.Changed(Some(BOTH_DOMAINS), Some(ONE_DOMAIN)) == Ok(true)
  {
    hide ParseRow;
    hide Rdt.Reads;
    BothDomainsParse();
    OneDomainParses();
    ExampleRows();
    assert Lookup(Both(), "0") == Some("f");
    assert Rdt.Differs(Both(), One()[0]);
  }

  /** For instance: a group has both domains, a request names the first; the target row names the first alone. */
  lemma PartialTargetExample(container: string)
    ensures var wanted, current := CacheOnly(container, ONE_DOMAIN, OfRequest), CacheOnly(container, BOTH_DOMAINS, OfCurrent);
      && RdtChange(wanted, current).Ok?
      && var change := RdtChange(wanted, current).value;
         change.target.Rdt? && !Agrees(RowOf(change.target.rows.l3), AfterWrite(Both(), change, Cache), 16)
  {
    hide ParseRow;
    hide Rdt.RowsDiffer;
    hide Rdt.Reads;
    hide Rdt.NamesOnlyDomainsOf;
    hide Agrees;
    hide AfterWrite;
    hide One;
    hide Both;
    BothDomainsParse();
    OneDomainParses();
    ExampleRows();
    var wanted, current := CacheOnly(container, ONE_DOMAIN, OfRequest), CacheOnly(container, BOTH_DOMAINS, OfCurrent);
    assert RowOf(Some(ONE_DOMAIN)) == One() && IsRow(Some(BOTH_DOMAINS), Both());
    TargetAgreesIff(wanted, current, Both(), Cache);
  }

  // ----- Validation, apart from the count of groups -----

  ghost function NumberVerdict(v: AllocationValue, p: Platform): Result<()>
    requires v.Number?
  {
    if (v.lowest.Some? && v.value < v.lowest.value) || (v.highest.Some? && v.value > v.highest.value)
    then Failed(InvalidAllocations)
    else if v.needsNoSwap && p.swap then Failed(InvalidAllocations)
    else Ok(())
  }

  ghost function CoresVerdict(v: AllocationValue): Result<()>
    requires v.Cores?
  {
    match ListFormat.Decode(v.text)
    case Failed(e) => Failed(InvalidAllocations)
    case Ok(cores) =>
      if v.text == "" then Ok(())
      else if cores == {} then Failed(IndexError)
      else if exists x :: x in cores && (x < 0 || x > v.last) then Failed(InvalidAllocations)
      else Ok(())
  }

  ghost function L3Checked(l3: Option<string>, p: Platform): Result<()> {
    if !Truthy(l3) then Ok(())
    else if !p.cacheControl then Failed(InvalidAllocations)
    else Rdt.L3Verdict(l3.value, p.sockets, p.cbmMask, p.minCbmBits)
  }

  ghost function MbChecked(mb: Option<string>, p: Platform): Result<()> {
    if !Truthy(mb) then Ok(())
    else if !p.mbControl then Failed(InvalidAllocations)
    else
      match MemoryBandwidth.Normalized(mb.value, p.sockets, p.mbMinimum, p.mbGranularity)
      case Failed(e) => Failed(e)
      case Ok(_) => Ok(())
  }

  ghost function LeafVerdict(v: AllocationValue, p: Platform): Result<()> {
    match v
    case Number(_, _, _, _, _) => NumberVerdict(v, p)
    case Cores(_, _) => CoresVerdict(v)
    case Rdt(_, rows, _, _, _) =>
      var l3 := L3Checked(rows.l3, p);
      if l3.Failed? then l3 else MbChecked(rows.mb, p)
  }

  ghost predicate LeafValid(v: AllocationValue, p: Platform) { LeafVerdict(v, p).Ok? }

  lemma L3Reads(l3: string, p: Platform)
    requires Rdt.L3Verdict(l3, p.sockets, p.cbmMask, p.minCbmBits).Ok?
    ensures Rdt.Reads(RowOf(Some(l3)), 16)
  {
    hide ParseRow;
    hide ParseInt;
    Rdt.L3VerdictIff(l3, p.sockets, p.cbmMask, p.minCbmBits);
  }

  lemma MbReads(mb: string, p: Platform)
    requires MemoryBandwidth.Normalized(mb, p.sockets, p.mbMinimum, p.mbGranularity).Ok?
    ensures Rdt.Reads(RowOf(Some(mb)), 10)
  {
    hide ParseRow;
    hide ParseInt;
    hide MemoryBandwidth.DomainsExist;
    var row := ParseRow(mb).value;
    var amounts := MemoryBandwidth.Amounts(row, p.mbMinimum, p.mbGranularity);
    forall i | 0 <= i < |row| ensures ParseInt(row[i].value, 10).Some? {
      assert amounts[i].Some?;
    }
  }

  /** The rows of a valid value hold nothing but texts that `int` reads. */
  lemma ValidRowsRead(v: AllocationValue, p: Platform, resource: Resource)
    requires v.Rdt? && LeafValid(v, p)
    ensures Rdt.Reads(RowOf(resource.Text(v.rows)), resource.Base())
  {
    hide Rdt.L3Verdict;
    hide MemoryBandwidth.Normalized;
    hide Rdt.Reads;
    NoRowReads();
    if resource.Cache? && Truthy(v.rows.l3) {
      L3Reads(v.rows.l3.value, p);
    } else if resource.Bandwidth? && Truthy(v.rows.mb) {
      MbReads(v.rows.mb.value, p);
    }
  }

  /** Two sockets, four cache ways. */
  const SMALL_PLATFORM: Platform := Platform(2, "f", "1", 0, 0, true, true, false)

  lemma SmallMasks()
    ensures Cbm.Accepted("f", "f", "1") && Cbm.Accepted("3", "f", "1")
  {
    hide ParseInt;
    DigitReads("f", 15, 16);
    DigitReads("3", 3, 16);
    DigitReads("1", 1, 10);
    assert Cbm.Pow2(1) == 2 && Cbm.Pow2(2) == 4 && Cbm.Pow2(3) == 8 && Cbm.Pow2(4) == 16;
    assert Cbm.Block(Magnitude(15), 4, 0) && Cbm.Block(Magnitude(3), 2, 0);
  }

  lemma SmallDomains()
    ensures MemoryBandwidth.NamesSockets(Both(), 2) && MemoryBandwidth.NamesSockets(One(), 2)
  {
    hide ParseInt;
    DigitReads("0", 0, 10);
    DigitReads("1", 1, 10);
  }

  lemma AcceptedIsValid(l3: string, p: Platform)
    requires l3 != "" && p.cacheControl && Rdt.L3Accepted(l3, p.sockets, p.cbmMask, p.minCbmBits)
    ensures L3Checked(Some(l3), p) == Ok(())
  {
    hide Rdt.L3Verdict;
    hide Rdt.L3Accepted;
    Rdt.L3VerdictIff(l3, p.sockets, p.cbmMask, p.minCbmBits);
    var r := L3Checked(Some(l3), p);
    assert r == Ok(r.value) && r.value == ();
  }

  /** Both example rows are valid there. */
  lemma ExampleRowsAreValid()
    ensures L3Checked(Some(BOTH_DOMAINS), SMALL_PLATFORM) == Ok(()) && L3Checked(Some(ONE_DOMAIN), SMALL_PLATFORM) == Ok(())
  {
    hide L3Checked;
    hide ParseRow;
    hide Cbm.Accepted;
    hide MemoryBandwidth.NamesSockets;
    BothDomainsParse();
    OneDomainParses();
    SmallMasks();
    SmallDomains();
    AcceptedIsValid(BOTH_DOMAINS, SMALL_PLATFORM);
    AcceptedIsValid(ONE_DOMAIN, SMALL_PLATFORM);
  }

  lemma NoRowReads()
    ensures RowOf(None) == RowOf(Some("")) == [] && Rdt.Reads([], 16) && Rdt.Reads([], 10)
  {
    EmptyParses();
  }

  /** Merging a valid value into a valid one gives a valid one, in the same group as one of them, counted by the
      same object. */
  lemma MergedLeafIsValid(wanted: AllocationValue, current: AllocationValue, p: Platform)
    requires LeafValid(wanted, p) && LeafValid(current, p) && LeafChange(wanted, current).Ok?
    ensures var t := LeafChange(wanted, current).value.target;
      && LeafValid(t, p)
      && (t.Rdt? ==>
          (wanted.Rdt? && GroupName(t) == GroupName(wanted) && t.counter == wanted.counter) ||
          (current.Rdt? && GroupName(t) == GroupName(current) && t.counter == current.counter))
  {
    hide ListFormat.Decode;
    hide L3Checked;
    hide MbChecked;
    hide Rdt.Changed;
    if wanted.Rdt? {
      RowsStayValid(wanted.rows, current.rows, p);
    }
  }

  lemma RowsStayValid(wanted: Rows, current: Rows, p: Platform)
    requires L3Checked(wanted.l3, p).Ok? && MbChecked(wanted.mb, p).Ok?
    requires L3Checked(current.l3, p).Ok? && MbChecked(current.mb, p).Ok?
    ensures L3Checked(Merged(wanted, current).l3, p).Ok? && MbChecked(Merged(wanted, current).mb, p).Ok?
  {
    hide L3Checked;
    hide MbChecked;
  }
}
