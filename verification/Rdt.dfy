/** Validating and comparing schemata rows, and the rows that give a group everything:
    wca/resctrl_allocations.py and wca/resctrl.py. */
module Rdt {
  import opened Dicts
  import opened Numbers
  import opened Text
  import opened LeadingZeros
  import opened Schemata
  import opened MemoryBandwidth
  import opened Cbm

  // ----- validate_l3_string -----

  const L3: string := "L3:"

  ghost function Verdicts(row: Row, cbm: string, minimum: string): (r: seq<Result<()>>)
    ensures |r| == |row| && forall i :: 0 <= i < |r| ==> r[i] == Verdict(row[i].value, cbm, minimum)
  {
    seq(|row|, i requires 0 <= i < |row| => Verdict(row[i].value, cbm, minimum))
  }

  /** The first failure, if any. */
  ghost function FirstFailure(verdicts: seq<Result<()>>, k: nat): Result<()>
    requires k <= |verdicts|
  {
    if k == 0 then Ok(())
    else
      var before := FirstFailure(verdicts, k - 1);
      if before.Failed? then before else verdicts[k - 1]
  }

  ghost function L3Verdict(l3: string, sockets: int, cbm: string, minimum: string): Result<()> {
    if !StartsWith(l3, L3) then Failed(InvalidAllocations)
    else
      match ParseRow(l3)
      case Failed(e) => Failed(e)
      case Ok(row) =>
        if !DomainsExist(row, sockets) then Failed(InvalidAllocations)
        else FirstFailure(Verdicts(row, cbm, minimum), |row|)
  }

  lemma {:induction false} FailureIsFinal(verdicts: seq<Result<()>>, j: nat, k: nat)
    requires j <= k <= |verdicts| && FirstFailure(verdicts, j).Failed?
    ensures FirstFailure(verdicts, k) == FirstFailure(verdicts, j)
  {
    if j < k {
      FailureIsFinal(verdicts, j, k - 1);
    }
  }

  method CheckMasks(row: Row, cbm: string, minimum: string, ghost verdicts: seq<Result<()>>) returns (r: Result<()>)
    requires |verdicts| == |row|
    requires forall i :: 0 <= i < |row| ==> verdicts[i] == Verdict(row[i].value, cbm, minimum)
    ensures r == FirstFailure(verdicts, |row|)
  {
    hide Verdict;
    r := Ok(());
    var k := 0;
    while k < |row| && r.Ok?
      invariant k <= |row| == |verdicts|
      invariant r == FirstFailure(verdicts, k)
    {
      r := CheckCbmMask(row[k].value, cbm, minimum);
      k := k + 1;
    }
    if r.Failed? {
      FailureIsFinal(verdicts, k, |row|);
    }
  }

  method ValidateL3String(l3: string, sockets: int, cbm: string, minimum: string) returns (r: Result<()>)
    ensures r == L3Verdict(l3, sockets, cbm, minimum)
  {
    hide ParseRow;
    hide Verdict;
    if !StartsWith(l3, L3) {
      return Failed(InvalidAllocations);
    }
    var parsed := ParseSchemataFileRow(l3);
    if parsed.Failed? {
      return Failed(parsed.error);
    }
    var exist := ValidateDomains(parsed.value, sockets);
    if !exist {
      return Failed(InvalidAllocations);
    }
    r := CheckMasks(parsed.value, cbm, minimum, Verdicts(parsed.value, cbm, minimum));
  }

  /** The first failure is that of the first verdict that is not passed. */
  lemma {:induction false} FirstFailureIff(verdicts: seq<Result<()>>, k: nat, e: Error)
    requires k <= |verdicts|
    ensures FirstFailure(verdicts, k).Ok? <==> forall i :: 0 <= i < k ==> verdicts[i].Ok?
    ensures FirstFailure(verdicts, k) == Failed(e) <==> exists i :: 0 <= i < k && FailsFirst(verdicts, i, e)
  {
    if k > 0 {
      FirstFailureIff(verdicts, k - 1, e);
      if FirstFailure(verdicts, k) == Failed(e) && FirstFailure(verdicts, k - 1).Ok? {
        assert FailsFirst(verdicts, k - 1, e);
      }
    }
  }

  ghost predicate FailsFirst(verdicts: seq<Result<()>>, i: nat, e: Error) {
    i < |verdicts| && verdicts[i] == Failed(e) && forall j :: 0 <= j < i ==> verdicts[j].Ok?
  }

  ghost predicate L3Accepted(l3: string, sockets: int, cbm: string, minimum: string) {
    && StartsWith(l3, L3) && ParseRow(l3).Ok?
    && var row := ParseRow(l3).value;
       NamesSockets(row, sockets) && forall i :: 0 <= i < |row| ==> Accepted(row[i].value, cbm, minimum)
  }

  /** The mask at `i` is unreadable, and all before it are accepted. */
  ghost predicate UnreadableFirst(row: Row, i: nat, cbm: string, minimum: string) {
    && i < |row| && Unreadable(row[i].value, cbm, minimum)
    && forall j :: 0 <= j < i ==> Accepted(row[j].value, cbm, minimum)
  }

  /** A row of the right kind that cannot be parsed, or whose domains exist while its first mask that is not accepted is
      unreadable. */
  ghost predicate L3Unreadable(l3: string, sockets: int, cbm: string, minimum: string) {
    && StartsWith(l3, L3)
    && (ParseRow(l3).Failed? ||
        (NamesSockets(ParseRow(l3).value, sockets) &&
         exists i :: 0 <= i < |ParseRow(l3).value| && UnreadableFirst(ParseRow(l3).value, i, cbm, minimum)))
  }

  lemma MasksAreChecked(row: Row, cbm: string, minimum: string)
    ensures var r := FirstFailure(Verdicts(row, cbm, minimum), |row|);
      && (r.Ok? <==> forall i :: 0 <= i < |row| ==> Accepted(row[i].value, cbm, minimum))
      && (r == Failed(ValueError) <==> exists i :: 0 <= i < |row| && UnreadableFirst(row, i, cbm, minimum))
      && (r.Failed? ==> r.error == ValueError || r.error == InvalidAllocations)
  {
    hide Verdict;
    hide Accepted;
    hide Unreadable;
    var verdicts := Verdicts(row, cbm, minimum);
    forall i | 0 <= i < |row|
      ensures verdicts[i].Ok? <==> Accepted(row[i].value, cbm, minimum)
      ensures verdicts[i] == Failed(ValueError) <==> Unreadable(row[i].value, cbm, minimum)
      ensures verdicts[i].Failed? ==> verdicts[i].error == ValueError || verdicts[i].error == InvalidAllocations
    {
      MaskVerdictIff(row[i].value, cbm, minimum);
    }
    FirstFailureIff(verdicts, |row|, ValueError);
    forall i | 0 <= i < |row| ensures FailsFirst(verdicts, i, ValueError) <==> UnreadableFirst(row, i, cbm, minimum) {
    }
    FailureIsOne(verdicts, |row|);
  }

  lemma {:induction false} FailureIsOne(verdicts: seq<Result<()>>, k: nat)
    requires k <= |verdicts|
    ensures FirstFailure(verdicts, k).Failed? ==> exists i :: 0 <= i < k && verdicts[i] == FirstFailure(verdicts, k)
  {
    if k > 0 {
      FailureIsOne(verdicts, k - 1);
    }
  }

  /** A cache row passes exactly when it is accepted and raises a ValueError exactly when it is unreadable; every other one
      is refused. */
  lemma L3VerdictIff(l3: string, sockets: int, cbm: string, minimum: string)
    ensures var r := L3Verdict(l3, sockets, cbm, minimum);
      && (r.Ok? <==> L3Accepted(l3, sockets, cbm, minimum))
      && (r == Failed(ValueError) <==> L3Unreadable(l3, sockets, cbm, minimum))
      && (r.Failed? ==> r.error == ValueError || r.error == InvalidAllocations)
  {
    hide ParseRow;
    hide DomainsExist;
    hide UnreadableFirst;
    hide Accepted;
    hide FirstFailure;
    if StartsWith(l3, L3) {
      ParseInvertsPrint(l3, []);
    }
    hide NamesSockets;
    if ParseRow(l3).Ok? {
      NamesSocketsIff(ParseRow(l3).value, sockets);
      MasksAreChecked(ParseRow(l3).value, cbm, minimum);
    }
  }

  // ----- The rows of the largest allocation -----

  function FullRow(sockets: nat, value: string): (r: Row)
    ensures |r| == sockets && forall i :: 0 <= i < sockets ==> r[i] == Entry(Render(i, 10), value)
  {
    seq(sockets, i requires 0 <= i < sockets => Entry(Render(i, 10), value))
  }

  function FullText(prefix: string, sockets: nat, value: string): string {
    prefix + Join(Printed(FullRow(sockets, value)), ';')
  }

  method GetMaxRdtValues(cbm: string, sockets: nat, mbControl: bool, cacheControl: bool)
    returns (l3: Option<string>, mb: Option<string>)
    ensures l3 == if cacheControl then Some(FullText(L3, sockets, cbm)) else None
    ensures mb == if mbControl then Some(FullText(MB, sockets, "100")) else None
  {
    hide Render;
    var l3Parts: seq<string>, mbParts: seq<string> := [], [];
    for id := 0 to sockets
      invariant l3Parts == Printed(FullRow(sockets, cbm))[..id]
      invariant mbParts == Printed(FullRow(sockets, "100"))[..id]
    {
      l3Parts := l3Parts + [Render(id, 10) + ['='] + cbm];
      mbParts := mbParts + [Render(id, 10) + ['='] + "100"];
    }
    assert l3Parts == Printed(FullRow(sockets, cbm)) && mbParts == Printed(FullRow(sockets, "100"));
    l3 := if cacheControl then Some(L3 + Join(l3Parts, ';')) else None;
    mb := if mbControl then Some(MB + Join(mbParts, ';')) else None;
  }

  lemma RenderedDiffer(i: nat, j: nat)
    requires i != j
    ensures Render(i, 10) != Render(j, 10)
  {
    RenderIsNumeral(i, 10);
    RenderIsNumeral(j, 10);
  }

  lemma FullRowIsWellFormed(sockets: nat, value: string)
    requires sockets > 0 && value != "" && ';' !in value
    ensures WellFormed(FullRow(sockets, value))
  {
    hide Render;
    var row := FullRow(sockets, value);
    forall i | 0 <= i < sockets ensures Printable(row[i]) {
      RenderIsNumeral(i, 10);
      NumeralHasNo(Render(i, 10), 10, ';');
      NumeralHasNo(Render(i, 10), 10, '=');
    }
    forall i, j | 0 <= i < j < sockets ensures row[i].id != row[j].id {
      RenderedDiffer(i, j);
    }
  }

  /** The written rows are read back as every socket with the full mask or with one hundred. */
  lemma FullRowParses(prefix: string, sockets: nat, value: string)
    requires sockets > 0 && value != "" && ';' !in value && ':' !in prefix
    ensures ParseRow(FullText(prefix + [':'], sockets, value)) == Ok(FullRow(sockets, value))
  {
    hide ParseRow;
    hide Render;
    FullRowIsWellFormed(sockets, value);
    var rest := Join(Printed(FullRow(sockets, value)), ';');
    FindAfter(prefix, ':', rest);
    ParsesWhatIsPrinted(prefix + [':'] + rest, FullRow(sockets, value));
  }

  lemma SocketsExist(sockets: nat, value: string)
    ensures DomainsExist(FullRow(sockets, value), sockets)
  {
    hide Render;
    hide ParseInt;
    forall i | 0 <= i < sockets ensures DomainExists(FullRow(sockets, value)[i].id, sockets) {
      IntOfStr(i);
    }
  }

  lemma {:induction false} SameVerdicts(verdicts: seq<Result<()>>, v: Result<()>, k: nat)
    requires 0 < k <= |verdicts| && forall i :: 0 <= i < |verdicts| ==> verdicts[i] == v
    ensures FirstFailure(verdicts, k) == v
  {
    if k > 1 {
      SameVerdicts(verdicts, v, k - 1);
    } else {
      assert FirstFailure(verdicts, 0) == Ok(());
    }
  }

  /** The largest cache allocation is valid exactly when the full mask is a valid mask. */
  lemma FullL3IsChecked(sockets: nat, cbm: string, minimum: string)
    requires sockets > 0 && cbm != "" && ';' !in cbm
    ensures L3Verdict(FullText(L3, sockets, cbm), sockets, cbm, minimum) == Verdict(cbm, cbm, minimum)
  {
    hide ParseRow;
    hide Verdict;
    hide DomainsExist;
    FullRowParses("L3", sockets, cbm);
    assert "L3" + [':'] == L3;
    SocketsExist(sockets, cbm);
    SameVerdicts(Verdicts(FullRow(sockets, cbm), cbm, minimum), Verdict(cbm, cbm, minimum), sockets);
  }

  /** Hence for a mask of at least the minimum number of consecutive ways. */
  lemma FullL3IsValid(sockets: nat, cbm: string, minimum: string)
    requires sockets > 0 && ';' !in cbm && ParseInt(cbm, 16).Some? && ParseInt(minimum, 10).Some?
    requires cbm != ""
    ensures L3Verdict(FullText(L3, sockets, cbm), sockets, cbm, minimum) == Ok(()) <==>
      exists k: nat, j: nat :: Block(Magnitude(ParseInt(cbm, 16).value), k, j) && k >= ParseInt(minimum, 10).value
  {
    hide ParseInt;
    hide VerdictOn;
    FullL3IsChecked(sockets, cbm, minimum);
    AcceptsExactlyBlocks(ParseInt(cbm, 16).value, ParseInt(cbm, 16).value, ParseInt(minimum, 10).value);
  }

  lemma HundredIsHundred()
    ensures ParseInt("100", 10) == Some(100)
  {
    hide ParseInt;
    assert Numeral("100", 10);
    assert Value("100", 10) == 100 by {
      assert "100"[..2] == "10" && "10"[..1] == "1" && "1"[..0] == "";
      assert Value("", 10) == 0 && Value("1", 10) == 1 && Value("10", 10) == 10;
    }
    NumeralIsInt("100");
  }

  /** The largest bandwidth allocation is accepted exactly when one hundred is not below the minimum. */
  lemma FullMbIsValid(sockets: nat, minimum: int, granularity: int)
    requires sockets > 0
    ensures Normalized(FullText(MB, sockets, "100"), sockets, minimum, granularity).Ok? <==> minimum <= 100
  {
    hide ParseRow;
    hide ParseInt;
    hide Raised;
    hide DomainsExist;
    FullRowParses("MB", sockets, "100");
    assert "MB" + [':'] == MB;
    SocketsExist(sockets, "100");
    HundredIsHundred();
    var amounts := Amounts(FullRow(sockets, "100"), minimum, granularity);
    assert amounts[0] == Amount("100", minimum, granularity);
  }

  // ----- _is_rdt_suballocation_changed -----

  predicate SameText(a: string, b: string) { Significant(a) == Significant(b) }

  predicate Differs(current: Row, e: Entry)
    requires HasId(current, e.id)
  {
    !SameText(Lookup(current, e.id).value, e.value)
  }

  ghost predicate NamesOnlyDomainsOf(wanted: Row, current: Row) {
    forall i :: 0 <= i < |wanted| ==> HasId(current, wanted[i].id)
  }

  ghost predicate RowsDiffer(current: Row, wanted: Row)
    requires NamesOnlyDomainsOf(wanted, current)
  {
    exists i :: 0 <= i < |wanted| && Differs(current, wanted[i])
  }

  ghost function Changed(current: Option<string>, wanted: Option<string>): Result<bool> {
    if wanted.None? then Ok(false)
    else if current.None? then Failed(AssertionError)
    else
      match ParseRow(current.value)
      case Failed(e) => Failed(e)
      case Ok(before) =>
        match ParseRow(wanted.value)
        case Failed(e) => Failed(e)
        case Ok(after) =>
          if !NamesOnlyDomainsOf(after, before) then Failed(AssertionError) else Ok(RowsDiffer(before, after))
  }

  method CheckDomains(wanted: Row, current: Row) returns (ok: bool)
    ensures ok == NamesOnlyDomainsOf(wanted, current)
  {
    ok := true;
    var k := 0;
    while k < |wanted| && ok
      invariant k <= |wanted|
      invariant ok ==> forall i :: 0 <= i < k ==> HasId(current, wanted[i].id)
      invariant !ok ==> !NamesOnlyDomainsOf(wanted, current)
    {
      ok := HasId(current, wanted[k].id);
      k := k + 1;
    }
  }

  method AnyDiffers(current: Row, wanted: Row) returns (changed: bool)
    requires NamesOnlyDomainsOf(wanted, current)
    ensures changed == RowsDiffer(current, wanted)
  {
    hide Significant;
    changed := false;
    var k := 0;
    while k < |wanted| && !changed
      invariant k <= |wanted|
      invariant !changed ==> forall i :: 0 <= i < k ==> !Differs(current, wanted[i])
      invariant changed ==> RowsDiffer(current, wanted)
    {
      changed := Differs(current, wanted[k]);
      k := k + 1;
    }
  }

  method IsRdtSuballocationChanged(current: Option<string>, wanted: Option<string>) returns (r: Result<bool>)
    ensures r == Changed(current, wanted)
  {
    hide ParseRow;
    hide RowsDiffer;
    if wanted.None? { return Ok(false); }
    if current.None? { return Failed(AssertionError); }
    var before := ParseSchemataFileRow(current.value);
    if before.Failed? { return Failed(before.error); }
    var after := ParseSchemataFileRow(wanted.value);
    if after.Failed? { return Failed(after.error); }
    var known := CheckDomains(after.value, before.value);
    if !known { return Failed(AssertionError); }
    var changed := AnyDiffers(before.value, after.value);
    return Ok(changed);
  }

  // ----- What the comparison means -----

  /** Lower-case texts of digits are called equal exactly when they denote the same number. */
  lemma SameLowerCaseText(a: string, b: string, base: nat)
    requires base > 0 && Numeral(a, base) && Numeral(b, base)
    ensures SameText(a, b) ==> Value(a, base) == Value(b, base)
    ensures LowerCase(a) && LowerCase(b) ==> (SameText(a, b) <==> Value(a, base) == Value(b, base))
  {
    hide LStrip;
    SignificantHasTheValue(a, base);
    SignificantHasTheValue(b, base);
    if LowerCase(a) && LowerCase(b) && Value(a, base) == Value(b, base) {
      SignificantIsLowerCase(a);
      SignificantIsLowerCase(b);
      SameValueSameText(Significant(a), Significant(b), base);
    }
  }

  function LowerDigit(c: char): char {
    if 'A' <= c <= 'F' then 'a' + (c - 'A') else c
  }

  /** `s.lower()` for hexadecimal digits. */
  function Lower(s: string): (r: string)
    ensures |r| == |s| && forall i :: 0 <= i < |r| ==> r[i] == LowerDigit(s[i])
  {
    seq(|s|, i requires 0 <= i < |s| => LowerDigit(s[i]))
  }

  lemma LowerIsNumeral(s: string, base: nat)
    requires Numeral(s, base)
    ensures Numeral(Lower(s), base) && LowerCase(Lower(s))
  {
    forall i | 0 <= i < |s| ensures IsDigit(Lower(s)[i], base) {
      assert IsDigit(s[i], base);
    }
  }

  lemma LowerDigitHasTheValue(c: char, base: nat)
    ensures DigitValue(LowerDigit(c)) == DigitValue(c) && (IsDigit(LowerDigit(c), base) <==> IsDigit(c, base))
  {
  }

  lemma {:induction false} LowerHasTheValue(s: string, base: nat)
    ensures Value(Lower(s), base) == Value(s, base)
  {
    hide LowerDigit;
    if s != "" {
      LowerHasTheValue(s[..|s| - 1], base);
      assert Lower(s)[..|s| - 1] == Lower(s[..|s| - 1]);
      LowerDigitHasTheValue(s[|s| - 1], base);
    }
  }

  lemma {:induction false} SignificantOfLower(s: string)
    ensures Significant(Lower(s)) == Lower(Significant(s))
  {
    if s != "" && IsZeroOrSpace(s[0]) {
      SignificantOfLower(s[1..]);
      assert Lower(s)[1..] == Lower(s[1..]);
    }
  }

  /** The same text up to the case of letters, but not the same text. */
  ghost predicate DifferInCaseOnly(s: string, t: string) { s != t && Lower(s) == Lower(t) }

  /** Between plain numerals: two denote the same number exactly when they are called equal once written in lower case,
      so that an equal number is reported as a change exactly when the significant digits differ in the case of letters
      only. */
  lemma SameNumeralsIff(a: string, b: string, base: nat)
    requires base > 0 && Numeral(a, base) && Numeral(b, base)
    ensures Value(a, base) == Value(b, base) <==> SameText(Lower(a), Lower(b))
    ensures Value(a, base) == Value(b, base) && !SameText(a, b) <==> DifferInCaseOnly(Significant(a), Significant(b))
  {
    hide Value;
    hide LStrip;
    LowerIsNumeral(a, base);
    LowerIsNumeral(b, base);
    LowerHasTheValue(a, base);
    LowerHasTheValue(b, base);
    SameLowerCaseText(a, b, base);
    SameLowerCaseText(Lower(a), Lower(b), base);
    SignificantOfLower(a);
    SignificantOfLower(b);
  }

  /** Between any two texts that `int` reads: those called equal are the same number. The same number, written plainly in
      one of them, is called equal exactly when the other one has nothing but lower-case digits after its leading blanks
      and zeros: no sign, prefix, underscore, trailing space or upper-case letter. */
  lemma SameTextIsSameNumber(a: string, b: string, base: nat)
    requires base > 0 && ParseInt(a, base).Some? && ParseInt(b, base).Some?
    ensures SameText(a, b) ==> ParseInt(a, base) == ParseInt(b, base)
    ensures ParseInt(a, base) == ParseInt(b, base) && Plain(Significant(a), base) ==>
      (SameText(a, b) <==> Plain(Significant(b), base))
  {
    hide ParseInt;
    hide Significant;
    hide Plain;
    if SameText(a, b) {
      SameSignificantSameNumber(a, b, base);
    }
    if ParseInt(a, base) == ParseInt(b, base) && Plain(Significant(a), base) {
      SameSignificantIff(a, b, base);
    }
  }

  lemma SignificantIsLowerCase(s: string)
    requires LowerCase(s)
    ensures LowerCase(Significant(s)) && (Significant(s) != "" ==> Significant(s)[0] != '0')
  {
    var t := Significant(s);
    LStripped(s, IsZeroOrSpace);
    LStripStarts(s, IsZeroOrSpace);
    assert s[|s| - |t|..] == t;
  }

  /** A new row that asks for the numbers there are, those written plainly, is reported as a change exactly when one of
      its values is not written plainly. */
  lemma NeedlessChangeIff(current: Row, wanted: Row, base: nat)
    requires base > 0 && NamesOnlyDomainsOf(wanted, current) && Reads(current, base)
    requires forall i :: 0 <= i < |current| ==> Plain(Significant(current[i].value), base)
    requires forall i :: 0 <= i < |wanted| ==>
      ParseInt(Lookup(current, wanted[i].id).value, base) == ParseInt(wanted[i].value, base)
    ensures RowsDiffer(current, wanted) <==> exists i :: 0 <= i < |wanted| && !Plain(Significant(wanted[i].value), base)
  {
    hide ParseInt;
    hide Significant;
    hide Plain;
    forall i | 0 <= i < |wanted| ensures Differs(current, wanted[i]) <==> !Plain(Significant(wanted[i].value), base) {
      var j := FoundAt(current, wanted[i].id);
      SameTextIsSameNumber(Lookup(current, wanted[i].id).value, wanted[i].value, base);
    }
  }

  ghost predicate DiffersInCaseOnly(current: Row, e: Entry)
    requires HasId(current, e.id)
  {
    DifferInCaseOnly(Significant(Lookup(current, e.id).value), Significant(e.value))
  }

  ghost predicate Numerals(row: Row, base: nat) {
    forall i :: 0 <= i < |row| ==> Numeral(row[i].value, base)
  }

  /** Between rows of plain numerals, exactly when one of its values differs from the current one in the case of letters
      only. */
  lemma NeedlessChangeOfNumerals(current: Row, wanted: Row, base: nat)
    requires base > 0 && NamesOnlyDomainsOf(wanted, current) && Numerals(current, base) && Numerals(wanted, base)
    requires forall i :: 0 <= i < |wanted| ==>
      Value(Lookup(current, wanted[i].id).value, base) == Value(wanted[i].value, base)
    ensures RowsDiffer(current, wanted) <==> exists i :: 0 <= i < |wanted| && DiffersInCaseOnly(current, wanted[i])
  {
    hide Value;
    hide Significant;
    hide DifferInCaseOnly;
    forall i | 0 <= i < |wanted| ensures Differs(current, wanted[i]) <==> DiffersInCaseOnly(current, wanted[i]) {
      var j := FoundAt(current, wanted[i].id);
      SameNumeralsIff(Lookup(current, wanted[i].id).value, wanted[i].value, base);
    }
  }

  lemma FoundAt(row: Row, id: string) returns (i: nat)
    requires HasId(row, id)
    ensures i < |row| && row[i] == Entry(id, Lookup(row, id).value)
  {
    var r := Lookup(row, id);
    i :| 0 <= i < |row| && row[i] == Entry(id, r.value);
  }

  lemma ValueOfDigit(s: string, d: nat, base: nat)
    requires |s| == 1 && IsDigit(s[0], base) && DigitValue(s[0]) == Some(d)
    ensures Value(s, base) == d
  {
    assert s[..0] == "" && Value("", base) == 0;
  }

  /** An upper-case digit alone makes the comparison report a change. */
  lemma UpperCaseDiffers()
    ensures !SameText("F", "f") && Value("F", 16) == Value("f", 16) == 15
  {
    hide Value;
    ValueOfDigit("F", 15, 16);
    ValueOfDigit("f", 15, 16);
  }

  /** So does a prefix that the mask check accepts. */
  lemma PrefixDiffers()
    ensures !SameText("ff", "0xff") && ParseInt("ff", 16) == ParseInt("0xff", 16) == Some(255)
  {
    hide ParseInt;
    hide ParseDigits;
    ExampleIsNumeral();
    NumeralReads("ff", 16);
    NumeralParses("ff", 16);
    assert Strip("0xff") == "0xff" && Unprefixed("0xff", 16) == "ff";
    ReadAsStripped("0xff", 16);
    assert "0xff"[1..] == "xff" && Significant("0xff") == "xff";
  }

  /** Leading blanks and zeros make no difference. */
  lemma {:induction false} LeadingMakesNoDifference(a: string, blanks: string)
    requires forall i :: 0 <= i < |blanks| ==> blanks[i] == ' ' || blanks[i] == '0'
    ensures SameText(blanks + a, a)
  {
    if blanks != "" {
      assert (blanks + a)[1..] == blanks[1..] + a;
      LeadingMakesNoDifference(a, blanks[1..]);
    } else {
      assert blanks + a == a;
    }
  }

  /** A sign, an underscore or a trailing blank do the same. */
  lemma OddTextsDiffer()
    ensures !SameText("5", "+5") && ParseInt("5", 10) == ParseInt("+5", 10) == Some(5)
    ensures !SameText("ff", "f_f") && ParseInt("ff", 16) == ParseInt("f_f", 16) == Some(255)
    ensures !SameText("5", "5 ") && ParseInt("5", 10) == ParseInt("5 ", 10) == Some(5)
  {
    hide ParseInt;
    ValueOfDigit("5", 5, 10);
    NumeralReads("5", 10);
    NumeralParses("5", 10);
    ExampleIsNumeral();
    NumeralReads("ff", 16);
    SignedReads();
    UnderscoredReads();
    assert Strip("5 ") == "5" by { assert "5 "[..1] == "5"; }
    ReadAsStripped("5", 10);
    SameStrippedSameNumber("5 ", "5", 10);
  }

  lemma SignedReads()
    ensures ParseInt("+5", 10) == Some(5)
  {
    ValueOfDigit("5", 5, 10);
    NumeralParses("5", 10);
    assert Strip("+5") == "+5" && "+5"[1..] == "5";
  }

  lemma UnderscoredReads()
    ensures ParseInt("f_f", 16) == Some(255)
  {
    assert "f_f"[..2] == "f_" && "f_"[..1] == "f" && "f"[..0] == "";
    assert ParseDigits("f", 16) == Some(15);
    assert ParseDigits("f_f", 16) == Some(255);
    assert Strip("f_f") == "f_f" && Unprefixed("f_f", 16) == "f_f";
  }

  lemma SameStrippedSameNumber(s: string, t: string, base: nat)
    requires Strip(s) == Strip(t)
    ensures ParseInt(s, base) == ParseInt(t, base)
  {
    hide ParseDigits;
    hide Strip;
  }

  lemma ReadAsStripped(s: string, base: nat)
    requires s != "" && Strip(s) == s && s[0] != '+' && s[0] != '-' && ParseDigits(Unprefixed(s, base), base).Some?
    ensures ParseInt(s, base).Some? && ParseInt(s, base).value == ParseDigits(Unprefixed(s, base), base).value
  {
    hide ParseDigits;
    hide Strip;
  }

  /** The domain values the kernel keeps after the first `k` domains of a row were written. */
  function Written(values: map<string, string>, row: Row, k: nat): map<string, string>
    requires k <= |row|
  {
    if k == 0 then values else Written(values, row, k - 1)[row[k - 1].id := row[k - 1].value]
  }

  /** The domain values a group has once the outcome of one comparison was acted upon: its own row, overwritten by the
      new one when a change is reported. */
  function AfterRound(current: Row, wanted: Row, changed: bool): map<string, string> {
    var before := Written(map[], current, |current|);
    if changed then Written(before, wanted, |wanted|) else before
  }

  lemma {:induction false} WrittenIsOverride(values: map<string, string>, row: Row, k: nat, id: string)
    requires k <= |row|
    ensures Lookup(row[..k], id).Some? ==>
      id in Written(values, row, k) && Written(values, row, k)[id] == Lookup(row[..k], id).value
    ensures Lookup(row[..k], id).None? ==>
      (id in Written(values, row, k) <==> id in values) && (id in values ==> Written(values, row, k)[id] == values[id])
  {
    if k > 0 {
      WrittenIsOverride(values, row, k - 1, id);
      assert row[..k][..k - 1] == row[..k - 1];
    }
  }

  /** Every value of the row is a text that `int` reads. */
  ghost predicate Reads(row: Row, base: nat) {
    forall i :: 0 <= i < |row| ==> ParseInt(row[i].value, base).Some?
  }

  lemma UnchangedDomain(current: Row, wanted: Row, id: string, base: nat)
    requires base > 0 && NamesOnlyDomainsOf(wanted, current) && Reads(current, base) && Reads(wanted, base)
    requires !RowsDiffer(current, wanted) && HasId(wanted, id)
    ensures HasId(current, id) && ParseInt(Lookup(current, id).value, base) == ParseInt(Lookup(wanted, id).value, base)
  {
    hide ParseInt;
    hide Significant;
    var i := FoundAt(wanted, id);
    assert HasId(current, wanted[i].id) && !Differs(current, wanted[i]);
    var j := FoundAt(current, id);
    SameTextIsSameNumber(Lookup(current, id).value, wanted[i].value, base);
  }

  /** One value taken alone: whether or not a change is reported, once it was acted upon every domain the new row names
      has the number it asks for, and every other domain is as it was. */
  lemma RoundIsRightPerDomain(current: Row, wanted: Row, id: string, base: nat)
    requires base > 0 && NamesOnlyDomainsOf(wanted, current) && Reads(current, base) && Reads(wanted, base)
    ensures var after := AfterRound(current, wanted, RowsDiffer(current, wanted));
      && (id in after <==> HasId(current, id))
      && (HasId(wanted, id) ==> id in after && ParseInt(after[id], base) == ParseInt(Lookup(wanted, id).value, base))
      && (HasId(current, id) && !HasId(wanted, id) ==> after[id] == Lookup(current, id).value)
  {
    hide ParseInt;
    hide RowsDiffer;
    var before := Written(map[], current, |current|);
    WrittenIsOverride(map[], current, |current|, id);
    assert current[..|current|] == current && wanted[..|wanted|] == wanted;
    WrittenIsOverride(before, wanted, |wanted|, id);
    if HasId(wanted, id) {
      var i :| 0 <= i < |wanted| && wanted[i].id == id;
      assert HasId(current, wanted[i].id);
      if !RowsDiffer(current, wanted) {
        UnchangedDomain(current, wanted, id, base);
      }
    }
  }
}
