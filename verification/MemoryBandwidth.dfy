/** Checking and rounding up the memory bandwidth row of an RDT allocation, wca/resctrl_allocations.py. */
module MemoryBandwidth {
  import opened Dicts
  import opened Text
  import opened Schemata

  predicate StartsWith(s: string, prefix: string) { |prefix| <= |s| && s[..|prefix|] == prefix }

  // ----- Domain ids -----

  predicate DomainExists(id: string, sockets: int) {
    var n := ParseInt(id, 10);
    n.Some? && 0 <= n.value < sockets
  }

  ghost predicate DomainsExist(row: Row, sockets: int) {
    forall i :: 0 <= i < |row| ==> DomainExists(row[i].id, sockets)
  }

  method ValidateDomains(row: Row, sockets: int) returns (ok: bool)
    ensures ok == DomainsExist(row, sockets)
  {
    hide DomainExists;
    ok := true;
    var k := 0;
    while k < |row| && ok
      invariant k <= |row|
      invariant ok ==> forall i :: 0 <= i < k ==> DomainExists(row[i].id, sockets)
      invariant !ok ==> !DomainsExist(row, sockets)
    {
      ok := DomainExists(row[k].id, sockets);
      k := k + 1;
    }
  }

  // ----- Values -----

  /** `math.ceil(v / granularity) * granularity` over exact reals. */
  function Ceiling(v: int, g: int): int
    requires g > 0
  {
    -((-v) / g)
  }

  function Raised(v: int, granularity: int): int {
    if granularity > 0 then Ceiling(v, granularity) * granularity else v
  }

  function Amount(value: string, minimum: int, granularity: int): Option<int> {
    var v := ParseInt(value, 10);
    if v.None? || v.value < minimum then None else Some(Raised(v.value, granularity))
  }

  lemma TimesAtLeast(a: int, g: int)
    requires g > 0
    ensures a >= 1 ==> a * g >= g
    ensures a <= -1 ==> a * g <= -g
  {
  }

  lemma SmallMultiple(a: int, b: int, g: int, m: int)
    requires g > 0 && a * g == b * g + m && 0 <= m < g
    ensures m == 0
  {
    assert (a - b) * g == m;
    TimesAtLeast(a - b, g);
  }

  lemma DivMod(n: int, g: int)
    requires g > 0
    ensures n == (n / g) * g + n % g && 0 <= n % g < g
  {
  }

  lemma MultipleHasNoRemainder(q: int, g: int)
    requires g > 0
    ensures (q * g) % g == 0
  {
    DivMod(q * g, g);
    SmallMultiple(q, (q * g) / g, g, (q * g) % g);
  }

  lemma CeilingIsNear(v: int, g: int)
    requires g > 0
    ensures v <= Ceiling(v, g) * g < v + g
  {
    var d := (-v) / g;
    DivMod(-v, g);
    assert d * g == -(-d * g);
  }

  lemma MultiplesApart(a: int, b: int, g: int, v: int)
    requires g > 0 && a * g < v + g && v <= b * g
    ensures a * g <= b * g
  {
    assert (a - b) * g == a * g - b * g;
    TimesAtLeast(a - b, g);
  }

  /** The least multiple of the granularity that is not below `v`. */
  ghost predicate LeastMultiple(r: int, v: int, granularity: int)
    requires granularity > 0
  {
    && v <= r
    && r % granularity == 0
    && forall w :: v <= w && w % granularity == 0 ==> r <= w
  }

  lemma RaisedIsLeastMultiple(v: int, granularity: int)
    requires granularity > 0
    ensures LeastMultiple(Raised(v, granularity), v, granularity)
  {
    CeilingIsNear(v, granularity);
    MultipleHasNoRemainder(Ceiling(v, granularity), granularity);
    forall w | v <= w && w % granularity == 0 ensures Raised(v, granularity) <= w {
      DivMod(w, granularity);
      MultiplesApart(Ceiling(v, granularity), w / granularity, granularity, v);
    }
  }

  lemma RaisedTwice(v: int, granularity: int)
    ensures Raised(Raised(v, granularity), granularity) == Raised(v, granularity)
  {
    if granularity > 0 {
      RaisedIsLeastMultiple(v, granularity);
      RaisedIsLeastMultiple(Raised(v, granularity), granularity);
    }
  }

  // ----- The whole row -----

  function Amounts(row: Row, minimum: int, granularity: int): (r: seq<Option<int>>)
    ensures |r| == |row| && forall i :: 0 <= i < |r| ==> r[i] == Amount(row[i].value, minimum, granularity)
  {
    seq(|row|, i requires 0 <= i < |row| => Amount(row[i].value, minimum, granularity))
  }

  predicate AllKnown(amounts: seq<Option<int>>) {
    forall i :: 0 <= i < |amounts| ==> amounts[i].Some?
  }

  function WithAmounts(row: Row, amounts: seq<Option<int>>): (r: Row)
    requires |amounts| == |row| && AllKnown(amounts)
    ensures |r| == |row|
    ensures forall i :: 0 <= i < |r| ==> r[i] == Entry(row[i].id, IntText(amounts[i].value))
  {
    seq(|row|, i requires 0 <= i < |row| => Entry(row[i].id, IntText(amounts[i].value)))
  }

  const MB: string := "MB:"

  ghost function Normalized(mb: string, sockets: int, minimum: int, granularity: int): Result<string> {
    if !StartsWith(mb, MB) then Failed(InvalidAllocations)
    else
      match ParseRow(mb)
      case Failed(e) => Failed(e)
      case Ok(row) =>
        var amounts := Amounts(row, minimum, granularity);
        if !DomainsExist(row, sockets) || !AllKnown(amounts) then Failed(InvalidAllocations)
        else Ok(MB + Join(Printed(WithAmounts(row, amounts)), ';'))
  }

  /** The loop over the domains: a value that is no number or below the minimum is refused, every other one is
      appended with its separator. */
  method AppendDomains(row: Row, minimum: int, granularity: int, ghost amounts: seq<Option<int>>)
    returns (text: string, ok: bool)
    requires AreAmounts(amounts, row, minimum, granularity)
    ensures ok == AllKnown(amounts)
    ensures ok ==> text == MB + Terminated(Printed(WithAmounts(row, amounts)), |row|, ';')
  {
    hide Amount;
    hide IntText;
    text, ok := MB, true;
    var k := 0;
    while k < |row| && ok
      invariant k <= |row| == |amounts|
      invariant ok ==> KnownUpTo(amounts, k)
      invariant ok ==> text == MB + TextUpTo(row, amounts, k)
      invariant !ok ==> !AllKnown(amounts)
    {
      text, ok := AppendDomain(text, row[k], minimum, granularity, amounts[k]);
      assert ok ==> text == MB + TextUpTo(row, amounts, k + 1) by {
        Appended(row, amounts, k);
      }
      k := k + 1;
    }
    if ok {
      TextIsTerminated(row, amounts, |row|);
    }
  }

  ghost predicate AreAmounts(amounts: seq<Option<int>>, row: Row, minimum: int, granularity: int) {
    |amounts| == |row| && forall i :: 0 <= i < |row| ==> amounts[i] == Amount(row[i].value, minimum, granularity)
  }

  ghost predicate KnownUpTo(amounts: seq<Option<int>>, k: nat)
    requires k <= |amounts|
  {
    forall i :: 0 <= i < k ==> amounts[i].Some?
  }

  /** The body of the loop. */
  method AppendDomain(before: string, e: Entry, minimum: int, granularity: int, ghost amount: Option<int>)
    returns (text: string, ok: bool)
    requires amount == Amount(e.value, minimum, granularity)
    ensures ok == amount.Some?
    ensures ok ==> text == before + (e.id + ['='] + IntText(amount.value)) + [';']
  {
    hide Amount;
    hide IntText;
    var v := Amount(e.value, minimum, granularity);
    text, ok := before, v.Some?;
    if ok {
      text := text + (e.id + ['='] + IntText(v.value)) + [';'];
    }
  }

  ghost function TextUpTo(row: Row, amounts: seq<Option<int>>, k: nat): string
    requires k <= |row| == |amounts| && KnownUpTo(amounts, k)
  {
    if k == 0 then ""
    else TextUpTo(row, amounts, k - 1) + (row[k - 1].id + ['='] + IntText(amounts[k - 1].value)) + [';']
  }

  lemma Appended(row: Row, amounts: seq<Option<int>>, k: nat)
    requires k < |row| == |amounts| && KnownUpTo(amounts, k)
    ensures amounts[k].Some? ==>
      MB + TextUpTo(row, amounts, k + 1) ==
      MB + TextUpTo(row, amounts, k) + (row[k].id + ['='] + IntText(amounts[k].value)) + [';']
  {
    hide IntText;
  }

  lemma {:induction false} TextOfParts(row: Row, amounts: seq<Option<int>>, parts: seq<string>, k: nat)
    requires k <= |row| == |amounts| == |parts| && AllKnown(amounts)
    requires forall i :: 0 <= i < |parts| ==> parts[i] == row[i].id + ['='] + IntText(amounts[i].value)
    ensures TextUpTo(row, amounts, k) == Terminated(parts, k, ';')
  {
    hide IntText;
    if k > 0 {
      TextOfParts(row, amounts, parts, k - 1);
    }
  }

  lemma TextIsTerminated(row: Row, amounts: seq<Option<int>>, k: nat)
    requires k <= |row| == |amounts| && AllKnown(amounts)
    ensures TextUpTo(row, amounts, k) == Terminated(Printed(WithAmounts(row, amounts)), k, ';')
  {
    TextOfParts(row, amounts, Printed(WithAmounts(row, amounts)), k);
  }

  lemma WithoutLastSeparator(parts: seq<string>)
    requires parts != []
    ensures MB + Terminated(parts, |parts|, ';') != ""
    ensures var text := MB + Terminated(parts, |parts|, ';'); text[..|text| - 1] == MB + Join(parts, ';')
  {
    TerminatedIsJoined(parts, |parts|, ';');
    assert parts[..|parts|] == parts;
  }

  lemma PrefixedIsNotEmpty(mb: string)
    requires StartsWith(mb, MB)
    ensures mb != "" && (ParseRow(mb).Ok? ==> ParseRow(mb).value != [])
  {
    if ParseRow(mb).Ok? {
      PrintsWhatIsParsed(mb);
    }
  }

  method NormalizeMbString(mb: string, sockets: int, minimum: int, granularity: int) returns (r: Result<string>)
    ensures r == Normalized(mb, sockets, minimum, granularity)
  {
    if !StartsWith(mb, MB) {
      return Failed(InvalidAllocations);
    }
    var parsed := ParseSchemataFileRow(mb);
    if parsed.Failed? {
      return Failed(parsed.error);
    }
    r := NormalizeRow(mb, parsed.value, sockets, minimum, granularity);
  }

  method NormalizeRow(mb: string, row: Row, sockets: int, minimum: int, granularity: int)
    returns (r: Result<string>)
    requires StartsWith(mb, MB) && ParseRow(mb) == Ok(row)
    ensures r == Normalized(mb, sockets, minimum, granularity)
  {
    PrefixedIsNotEmpty(mb);
    var exist := ValidateDomains(row, sockets);
    if !exist {
      return Failed(InvalidAllocations);
    }
    var text, ok := AppendDomains(row, minimum, granularity, Amounts(row, minimum, granularity));
    if !ok {
      return Failed(InvalidAllocations);
    }
    WithoutLastSeparator(Printed(WithAmounts(row, Amounts(row, minimum, granularity))));
    r := Ok(text[..|text| - 1]);
  }

  // ----- What normalising does -----

  lemma PrefixIsDropped(rest: string)
    ensures Domains(MB + rest) == rest && StartsWith(MB + rest, MB)
  {
    FindAfter("MB", ':', rest);
    assert "MB" + [':'] + rest == MB + rest;
  }

  lemma AmountsArePrintable(row: Row, amounts: seq<Option<int>>)
    requires WellFormed(row) && |amounts| == |row| && AllKnown(amounts)
    ensures WellFormed(WithAmounts(row, amounts))
  {
    var out := WithAmounts(row, amounts);
    forall i | 0 <= i < |out| ensures Printable(out[i]) {
      assert Printable(row[i]);
      IntTextHasNo(amounts[i].value, ';');
    }
  }

  /** What comes out is read back as the same domains in the same order, with the raised amounts. */
  lemma NormalizedParses(mb: string, sockets: int, minimum: int, granularity: int)
    requires Normalized(mb, sockets, minimum, granularity).Ok?
    ensures ParseRow(mb).Ok? && AllKnown(Amounts(ParseRow(mb).value, minimum, granularity))
    ensures var row := ParseRow(mb).value;
      ParseRow(Normalized(mb, sockets, minimum, granularity).value) == Ok(WithAmounts(row, Amounts(row, minimum, granularity)))
  {
    PrefixedIsNotEmpty(mb);
    PrintsWhatIsParsed(mb);
    var row := ParseRow(mb).value;
    var out := WithAmounts(row, Amounts(row, minimum, granularity));
    AmountsArePrintable(row, Amounts(row, minimum, granularity));
    var rest := Join(Printed(out), ';');
    PrefixIsDropped(rest);
    ParsesWhatIsPrinted(MB + rest, out);
  }

  ghost predicate Raises(before: Entry, after: Entry, granularity: int) {
    && before.id == after.id
    && ParseInt(before.value, 10).Some? && ParseInt(after.value, 10).Some?
    && var v, w := ParseInt(before.value, 10).value, ParseInt(after.value, 10).value;
       if granularity > 0 then LeastMultiple(w, v, granularity) else w == v
  }

  lemma AmountRaises(e: Entry, minimum: int, granularity: int)
    requires Amount(e.value, minimum, granularity).Some?
    ensures Raises(e, Entry(e.id, IntText(Amount(e.value, minimum, granularity).value)), granularity)
  {
    IntOfIntText(Amount(e.value, minimum, granularity).value);
    if granularity > 0 {
      RaisedIsLeastMultiple(ParseInt(e.value, 10).value, granularity);
    }
  }

  /** Normalising keeps the domains and their order, and raises every value to the least multiple of the
      granularity not below it. */
  lemma NormalizingRaises(mb: string, sockets: int, minimum: int, granularity: int)
    requires Normalized(mb, sockets, minimum, granularity).Ok?
    ensures ParseRow(mb).Ok? && ParseRow(Normalized(mb, sockets, minimum, granularity).value).Ok?
    ensures var row, out := ParseRow(mb).value, ParseRow(Normalized(mb, sockets, minimum, granularity).value).value;
      |out| == |row| && forall i :: 0 <= i < |row| ==> Raises(row[i], out[i], granularity)
  {
    NormalizedParses(mb, sockets, minimum, granularity);
    var row := ParseRow(mb).value;
    var amounts := Amounts(row, minimum, granularity);
    forall i | 0 <= i < |row| ensures Raises(row[i], WithAmounts(row, amounts)[i], granularity) {
      AmountRaises(row[i], minimum, granularity);
    }
  }

  lemma RaisedIsNoLess(v: int, granularity: int)
    ensures v <= Raised(v, granularity)
  {
    if granularity > 0 {
      CeilingIsNear(v, granularity);
    }
  }

  lemma AmountOfAmount(value: string, minimum: int, granularity: int)
    requires Amount(value, minimum, granularity).Some?
    ensures var a := Amount(value, minimum, granularity); Amount(IntText(a.value), minimum, granularity) == a
  {
    hide Raised;
    hide ParseInt;
    hide IntText;
    var v := ParseInt(value, 10).value;
    IntOfIntText(Raised(v, granularity));
    RaisedTwice(v, granularity);
    RaisedIsNoLess(v, granularity);
  }

  /** Normalising what is already normalised changes nothing. */
  lemma NormalizingTwice(mb: string, sockets: int, minimum: int, granularity: int)
    requires Normalized(mb, sockets, minimum, granularity).Ok?
    ensures var out := Normalized(mb, sockets, minimum, granularity); Normalized(out.value, sockets, minimum, granularity) == out
  {
    NormalizedParses(mb, sockets, minimum, granularity);
    var row := ParseRow(mb).value;
    var amounts := Amounts(row, minimum, granularity);
    var out := WithAmounts(row, amounts);
    PrefixIsDropped(Join(Printed(out), ';'));
    forall i | 0 <= i < |out| ensures Amount(out[i].value, minimum, granularity) == amounts[i] {
      AmountOfAmount(row[i].value, minimum, granularity);
    }
    assert Amounts(out, minimum, granularity) == amounts;
    assert WithAmounts(out, amounts) == out;
    assert DomainsExist(out, sockets) by {
      forall i | 0 <= i < |out| ensures DomainExists(out[i].id, sockets) {
        assert DomainExists(row[i].id, sockets);
      }
    }
  }

  // ----- What is accepted -----

  /** Every id is the number of a socket. */
  ghost predicate NamesSockets(row: Row, sockets: int) {
    forall i :: 0 <= i < |row| ==>
      ParseInt(row[i].id, 10).Some? && ParseInt(row[i].id, 10).value >= 0 && ParseInt(row[i].id, 10).value < sockets
  }

  lemma NamesSocketsIff(row: Row, sockets: int)
    ensures DomainsExist(row, sockets) <==> NamesSockets(row, sockets)
  {
    hide ParseInt;
    if !DomainsExist(row, sockets) {
      var i :| 0 <= i < |row| && !DomainExists(row[i].id, sockets);
    }
  }

  /** A bandwidth row whose ids are sockets and whose values are numbers, none below the minimum. */
  ghost predicate MbAccepted(mb: string, sockets: int, minimum: int) {
    && |mb| >= 3 && mb[..3] == "MB:" && ParseRow(mb).Ok?
    && var row := ParseRow(mb).value;
       NamesSockets(row, sockets)
       && forall i :: 0 <= i < |row| ==> ParseInt(row[i].value, 10).Some? && ParseInt(row[i].value, 10).value >= minimum
  }

  /** A row is normalised exactly when it is accepted. */
  lemma NormalizedIff(mb: string, sockets: int, minimum: int, granularity: int)
    ensures Normalized(mb, sockets, minimum, granularity).Ok? <==> MbAccepted(mb, sockets, minimum)
  {
    hide ParseRow;
    hide ParseInt;
    hide NamesSockets;
    hide Raised;
    if StartsWith(mb, MB) && ParseRow(mb).Ok? {
      var row := ParseRow(mb).value;
      NamesSocketsIff(row, sockets);
      var amounts := Amounts(row, minimum, granularity);
      forall i | 0 <= i < |row|
        ensures amounts[i].Some? <==> ParseInt(row[i].value, 10).Some? && ParseInt(row[i].value, 10).value >= minimum
      {
      }
    }
  }
}
