/** Rows of resctrl's schemata file as wca/resctrl_allocations.py reads and writes them: a resource name, a
    colon, and domains with values, such as "L3:0=ff;1=f0". */
module Schemata {
  import opened Dicts
  import opened Text

  datatype Entry = Entry(id: string, value: string)

  /** The dictionary of domains, in insertion order. */
  type Row = seq<Entry>

  predicate HasId(row: Row, id: string) { exists i :: 0 <= i < |row| && row[i].id == id }

  /** What the dictionary holds for `id`. */
  function Lookup(row: Row, id: string): (r: Option<string>)
    ensures r.Some? ==> Entry(id, r.value) in row
    ensures r.None? <==> !HasId(row, id)
  {
    if row == [] then None
    else if row[|row| - 1].id == id then Some(row[|row| - 1].value)
    else Lookup(row[..|row| - 1], id)
  }

  // ----- Parsing -----

  /** One domain: everything before the first "=" is its id, everything after it the value. */
  function ParseDomain(part: string): Result<Entry> {
    match Find(part, '=')
    case None => Failed(ValueError)
    case Some(i) =>
      if i == 0 || i + 1 == |part| then Failed(ValueError) else Ok(Entry(part[..i], part[i + 1..]))
  }

  function Added(before: Result<Row>, entry: Result<Entry>): Result<Row> {
    if before.Failed? || entry.Failed? || HasId(before.value, entry.value.id) then Failed(ValueError)
    else Ok(before.value + [entry.value])
  }

  function Collected(entries: seq<Result<Entry>>, k: nat): Result<Row>
    requires k <= |entries|
  {
    if k == 0 then Ok([]) else Added(Collected(entries, k - 1), entries[k - 1])
  }

  function ParsedDomains(parts: seq<string>): (r: seq<Result<Entry>>)
    ensures |r| == |parts| && forall i :: 0 <= i < |r| ==> r[i] == ParseDomain(parts[i])
  {
    seq(|parts|, i requires 0 <= i < |parts| => ParseDomain(parts[i]))
  }

  /** The row without its resource name. */
  function Domains(line: string): string {
    match Find(line, ':')
    case None => line
    case Some(i) => line[i + 1..]
  }

  function ParseRow(line: string): Result<Row> {
    if line == "" then Ok([])
    else var entries := ParsedDomains(Split(Domains(line), ';')); Collected(entries, |entries|)
  }

  ghost predicate AreParsed(entries: seq<Result<Entry>>, parts: seq<string>) {
    |entries| == |parts| && forall i :: 0 <= i < |parts| ==> entries[i] == ParseDomain(parts[i])
  }

  lemma {:induction false} FailureStays(entries: seq<Result<Entry>>, j: nat, k: nat)
    requires j <= k <= |entries| && Collected(entries, j).Failed?
    ensures Collected(entries, k) == Failed(ValueError)
  {
    if j < k {
      FailureStays(entries, j, k - 1);
    }
  }

  lemma StoppedIsCollected(entries: seq<Result<Entry>>, k: nat, r: Result<Row>)
    requires k <= |entries| && r == Collected(entries, k) && (k == |entries| || r.Failed?)
    ensures r == Collected(entries, |entries|)
  {
    if k < |entries| {
      FailureStays(entries, k, k);
      FailureStays(entries, k, |entries|);
    }
  }

  /** The body of the loop over domains. */
  method AddDomain(row: Row, part: string) returns (r: Result<Row>)
    ensures r == Added(Ok(row), ParseDomain(part))
  {
    if part == "" { return Failed(ValueError); }
    var separator := Find(part, '=');
    if separator.None? { return Failed(ValueError); }
    var id := part[..separator.value];
    if id == "" { return Failed(ValueError); }
    var value := part[separator.value + 1..];
    if value == "" { return Failed(ValueError); }
    if HasId(row, id) { return Failed(ValueError); }
    return Ok(row + [Entry(id, value)]);
  }

  method AddNext(before: Result<Row>, parts: seq<string>, ghost entries: seq<Result<Entry>>, k: nat)
    returns (r: Result<Row>)
    requires k < |parts| && AreParsed(entries, parts) && before.Ok? && before == Collected(entries, k)
    ensures r == Collected(entries, k + 1)
  {
    r := AddDomain(before.value, parts[k]);
  }

  method AddDomains(parts: seq<string>, ghost entries: seq<Result<Entry>>) returns (r: Result<Row>)
    requires AreParsed(entries, parts)
    ensures r == Collected(entries, |entries|)
  {
    r := Ok([]);
    var k := 0;
    while k < |parts| && r.Ok?
      invariant k <= |entries| == |parts|
      invariant r == Collected(entries, k)
    {
      r := AddNext(r, parts, entries, k);
      k := k + 1;
    }
    StoppedIsCollected(entries, k, r);
  }

  method ParseSchemataFileRow(line: string) returns (r: Result<Row>)
    ensures r == ParseRow(line)
  {
    r := Ok([]);
    if line != "" {
      var parts := Split(Domains(line), ';');
      r := AddDomains(parts, ParsedDomains(parts));
    }
  }

  // ----- Printing, and what parsing means -----

  /** A domain of a row can be written down and read back. */
  predicate Printable(e: Entry) {
    e.id != "" && '=' !in e.id && ';' !in e.id && e.value != "" && ';' !in e.value
  }

  ghost predicate DistinctIds(row: Row) {
    forall i, j :: 0 <= i < j < |row| ==> row[i].id != row[j].id
  }

  ghost predicate WellFormed(row: Row) {
    && row != []
    && (forall i :: 0 <= i < |row| ==> Printable(row[i]))
    && DistinctIds(row)
  }

  function PrintDomain(e: Entry): string { e.id + ['='] + e.value }

  function Printed(row: Row): (r: seq<string>)
    ensures |r| == |row| && forall i :: 0 <= i < |r| ==> r[i] == PrintDomain(row[i])
  {
    seq(|row|, i requires 0 <= i < |row| => PrintDomain(row[i]))
  }

  lemma PrintedDomain(e: Entry)
    requires Printable(e)
    ensures ParseDomain(PrintDomain(e)) == Ok(e) && ';' !in PrintDomain(e)
  {
    FindAfter(e.id, '=', e.value);
    var part := PrintDomain(e);
    assert part[..|e.id|] == e.id && part[|e.id| + 1..] == e.value;
  }

  lemma ParsedDomain(part: string)
    requires ';' !in part && ParseDomain(part).Ok?
    ensures Printable(ParseDomain(part).value) && PrintDomain(ParseDomain(part).value) == part
  {
    var i := Find(part, '=').value;
    assert part == part[..i] + [part[i]] + part[i + 1..];
  }

  /** The loop succeeds exactly on distinct well-formed domains, and keeps them all in order. */
  lemma {:induction false} CollectedMeans(entries: seq<Result<Entry>>, row: Row, k: nat)
    requires k <= |entries| == |row|
    requires forall i :: 0 <= i < k ==> entries[i] == Ok(row[i])
    requires DistinctIds(row)
    ensures Collected(entries, k) == Ok(row[..k])
  {
    if k > 0 {
      CollectedMeans(entries, row, k - 1);
      assert row[..k] == row[..k - 1] + [row[k - 1]];
      assert !HasId(row[..k - 1], row[k - 1].id);
    }
  }

  lemma {:induction false} CollectedOnly(entries: seq<Result<Entry>>, k: nat)
    requires k <= |entries| && Collected(entries, k).Ok?
    ensures var row := Collected(entries, k).value;
      |row| == k && DistinctIds(row) && forall i :: 0 <= i < k ==> entries[i] == Ok(row[i])
  {
    if k > 0 {
      CollectedOnly(entries, k - 1);
      var row := Collected(entries, k - 1).value;
      assert forall i :: 0 <= i < |row| ==> !(row[i].id == entries[k - 1].value.id);
    }
  }

  lemma ParsesWhatIsPrinted(line: string, row: Row)
    requires WellFormed(row) && line != "" && Domains(line) == Join(Printed(row), ';')
    ensures ParseRow(line) == Ok(row)
  {
    var parts := Printed(row);
    forall i | 0 <= i < |parts| ensures ';' !in parts[i] && ParseDomain(parts[i]) == Ok(row[i]) {
      PrintedDomain(row[i]);
    }
    SplitOfJoin(parts, ';');
    var entries := ParsedDomains(parts);
    CollectedMeans(entries, row, |row|);
    assert row[..|row|] == row;
  }

  lemma PrintsWhatIsParsed(line: string)
    requires line != "" && ParseRow(line).Ok?
    ensures WellFormed(ParseRow(line).value) && Domains(line) == Join(Printed(ParseRow(line).value), ';')
  {
    var parts := Split(Domains(line), ';');
    var entries := ParsedDomains(parts);
    CollectedOnly(entries, |entries|);
    var row := Collected(entries, |entries|).value;
    forall i | 0 <= i < |row| ensures Printable(row[i]) && PrintDomain(row[i]) == parts[i] {
      ParsedDomain(parts[i]);
    }
    assert Printed(row) == parts;
    JoinOfSplit(Domains(line), ';');
  }

  /** Parsing is the inverse of printing: a line is read as `row` exactly when it is `row` written down after
      some resource name, and every other line is a ValueError. */
  lemma ParseInvertsPrint(line: string, row: Row)
    requires line != ""
    ensures ParseRow(line) == Ok(row) <==> WellFormed(row) && Domains(line) == Join(Printed(row), ';')
    ensures ParseRow(line).Failed? ==> ParseRow(line) == Failed(ValueError)
  {
    if WellFormed(row) && Domains(line) == Join(Printed(row), ';') {
      ParsesWhatIsPrinted(line, row);
    }
    if ParseRow(line).Ok? {
      PrintsWhatIsParsed(line);
    } else {
      var entries := ParsedDomains(Split(Domains(line), ';'));
      FailureStays(entries, |entries|, |entries|);
    }
  }
}
