/** The "List format" of cpuset(7), section FORMATS, as wca/platforms.py reads and writes it. */
module ListFormat {
  import opened Dicts
  import opened Text

  // ----- Reading -----

  function Between(first: int, last: int): (r: set<int>)
    ensures forall x :: x in r <==> first <= x <= last
    decreases last - first
  {
    if last < first then {} else Between(first, last - 1) + {last}
  }

  /** One comma-separated part: a number, a range, or, with more than one dash, nothing at all. */
  function DecodePart(part: string): Result<set<int>> {
    var boundaries := Split(part, '-');
    if |boundaries| == 1 then Single(ParseInt(Strip(boundaries[0]), 10))
    else if |boundaries| == 2 then Range(ParseInt(Strip(boundaries[0]), 10), ParseInt(Strip(boundaries[1]), 10))
    else Ok({})
  }

  function Single(n: Option<int>): Result<set<int>> {
    if n.None? then Failed(ValueError) else Ok({n.value})
  }

  function Range(first: Option<int>, last: Option<int>): Result<set<int>> {
    if first.None? || last.None? then Failed(ValueError) else Ok(Between(first.value, last.value))
  }

  function Merged(a: Result<set<int>>, b: Result<set<int>>): Result<set<int>> {
    if a.Failed? || b.Failed? then Failed(ValueError) else Ok(a.value + b.value)
  }

  /** What the first `k` parts denote together. */
  function MergedAll(parts: seq<Result<set<int>>>, k: nat): Result<set<int>>
    requires k <= |parts|
  {
    if k == 0 then Ok({}) else Merged(MergedAll(parts, k - 1), parts[k - 1])
  }

  function DecodedParts(parts: seq<string>): (r: seq<Result<set<int>>>)
    ensures |r| == |parts| && forall i :: 0 <= i < |r| ==> r[i] == DecodePart(parts[i])
  {
    seq(|parts|, i requires 0 <= i < |parts| => DecodePart(parts[i]))
  }

  function Decode(value: string): Result<set<int>> {
    if value == "" || Strip(value) == "" then Ok({})
    else var parts := DecodedParts(Split(value, ',')); MergedAll(parts, |parts|)
  }

  /** The loop that expands a range. */
  method AddRange(cores: set<int>, first: int, last: int) returns (r: set<int>)
    ensures r == cores + Between(first, last)
  {
    r := cores;
    var i := first;
    while i < last + 1
      invariant first <= i && (i <= last + 1 || i == first)
      invariant r == cores + Between(first, i - 1)
    {
      r := r + {i};
      i := i + 1;
    }
    if first > last {
      assert Between(first, first - 1) == {} && Between(first, last) == {};
    }
  }

  lemma {:induction false} FailureStays(parts: seq<Result<set<int>>>, j: nat, k: nat)
    requires j <= k <= |parts| && MergedAll(parts, j).Failed?
    ensures MergedAll(parts, k) == Failed(ValueError)
  {
    if j < k {
      FailureStays(parts, j, k - 1);
    }
  }

  /** The loop over parts may stop at the first failure. */
  lemma StoppedIsMerged(parts: seq<Result<set<int>>>, k: nat, r: Result<set<int>>)
    requires k <= |parts| && r == MergedAll(parts, k) && (k == |parts| || r.Failed?)
    ensures r == MergedAll(parts, |parts|)
  {
    if k < |parts| {
      FailureStays(parts, k, k);
      FailureStays(parts, k, |parts|);
    }
  }

  /** The body of the loop over parts: what a part adds, or a ValueError. */
  method AddPart(cores: set<int>, part: string) returns (r: Result<set<int>>)
    ensures r == Merged(Ok(cores), DecodePart(part))
  {
    var boundaries := Split(part, '-');
    if |boundaries| == 1 {
      var n := ParseInt(Strip(boundaries[0]), 10);
      if n.None? { return Failed(ValueError); }
      return Ok(cores + {n.value});
    } else if |boundaries| == 2 {
      var first, last := ParseInt(Strip(boundaries[0]), 10), ParseInt(Strip(boundaries[1]), 10);
      if first.None? || last.None? { return Failed(ValueError); }
      var more := AddRange(cores, first.value, last.value);
      return Ok(more);
    }
    return Ok(cores + {});
  }

  ghost predicate AreDecoded(parts: seq<Result<set<int>>>, ranges: seq<string>) {
    |parts| == |ranges| && forall i :: 0 <= i < |ranges| ==> parts[i] == DecodePart(ranges[i])
  }

  method AddNext(before: Result<set<int>>, ranges: seq<string>, ghost parts: seq<Result<set<int>>>, k: nat)
    returns (r: Result<set<int>>)
    requires k < |ranges| && AreDecoded(parts, ranges) && before.Ok? && before == MergedAll(parts, k)
    ensures r == MergedAll(parts, k + 1)
  {
    r := AddPart(before.value, ranges[k]);
  }

  /** The loop over the parts. */
  method AddParts(ranges: seq<string>, ghost parts: seq<Result<set<int>>>) returns (r: Result<set<int>>)
    requires AreDecoded(parts, ranges)
    ensures r == MergedAll(parts, |parts|)
  {
    r := Ok({});
    var k := 0;
    while k < |ranges| && r.Ok?
      invariant k <= |parts| == |ranges|
      invariant r == MergedAll(parts, k)
    {
      r := AddNext(r, ranges, parts, k);
      k := k + 1;
    }
    StoppedIsMerged(parts, k, r);
  }

  method DecodeListformat(value: string) returns (r: Result<set<int>>)
    ensures r == Decode(value)
  {
    r := Ok({});
    if value != "" && Strip(value) != "" {
      var ranges := Split(value, ',');
      r := AddParts(ranges, DecodedParts(ranges));
    }
  }

  // ----- Writing -----

  ghost predicate Increasing(s: seq<nat>) {
    forall i, j :: 0 <= i < j < |s| ==> s[i] < s[j]
  }

  lemma MaxExists(s: set<nat>)
    requires s != {}
    ensures exists m :: m in s && forall x :: x in s ==> x <= m
  {
    var x :| x in s;
    if s - {x} != {} {
      MaxExists(s - {x});
      var m :| m in s - {x} && forall y :: y in s - {x} ==> y <= m;
      assert forall y :: y in s ==> y == x || y in s - {x};
      var top := if x <= m then m else x;
      assert top in s && forall y :: y in s ==> y <= top;
    } else {
      assert s == {x};
    }
  }

  /** `sorted(s)` of a set. */
  ghost function Ascending(s: set<nat>): (r: seq<nat>)
    ensures forall x :: x in s <==> x in r
    ensures Increasing(r)
  {
    if s == {} then []
    else
      MaxExists(s);
      var m :| m in s && forall x :: x in s ==> x <= m;
      Ascending(s - {m}) + [m]
  }

  function Rendered(numbers: seq<nat>): (r: seq<string>)
    ensures |r| == |numbers| && forall i :: 0 <= i < |r| ==> r[i] == Render(numbers[i], 10)
  {
    seq(|numbers|, i requires 0 <= i < |numbers| => Render(numbers[i], 10))
  }

  /** `encode_listformat`. */
  ghost function Encode(s: set<nat>): string { Join(Rendered(Ascending(s)), ',') }

  lemma AscendingLast(s: set<nat>, m: nat)
    requires m in s && forall x :: x in s ==> x <= m
    ensures Ascending(s) == Ascending(s - {m}) + [m]
  {
  }

  lemma NothingAscends()
    ensures Ascending({}) == []
  {
  }

  method EncodeListformat(ints: set<nat>) returns (r: string)
    ensures r == Encode(ints)
  {
    hide Render;
    hide Ascending;
    var parts: seq<string>, rest := [], ints;
    ghost var numbers: seq<nat> := [];
    while rest != {}
      invariant Ascending(ints) == Ascending(rest) + numbers
      invariant parts == Rendered(numbers)
      decreases |rest|
    {
      MaxExists(rest);
      var m :| m in rest && forall x :: x in rest ==> x <= m;
      AscendingLast(rest, m);
      parts, numbers := [Render(m, 10)] + parts, [m] + numbers;
      rest := rest - {m};
    }
    NothingAscends();
    assert Ascending(ints) == numbers;
    r := Join(parts, ',');
  }

  // ----- Reading what was written -----

  lemma NumeralPart(n: nat)
    ensures DecodePart(Render(n, 10)) == Ok({n as int})
    ensures ',' !in Render(n, 10)
  {
    var s := Render(n, 10);
    RenderIsNumeral(n, 10);
    NumeralHasNo(s, 10, '-');
    NumeralHasNo(s, 10, ',');
    NumeralIsStripped(s, 10);
    IntOfStr(n);
    SplitWhole(s, '-');
  }

  function Members(numbers: seq<nat>, k: nat): (r: set<int>)
    requires k <= |numbers|
    ensures forall x :: x in r <==> x >= 0 && x as nat in numbers[..k]
  {
    if k == 0 then {}
    else
      assert numbers[..k] == numbers[..k - 1] + [numbers[k - 1]];
      Members(numbers, k - 1) + {numbers[k - 1] as int}
  }

  lemma {:induction false} SinglesMerge(parts: seq<Result<set<int>>>, numbers: seq<nat>, k: nat)
    requires k <= |numbers| == |parts|
    requires forall i :: 0 <= i < |parts| ==> parts[i] == Ok({numbers[i] as int})
    ensures MergedAll(parts, k) == Ok(Members(numbers, k))
  {
    if k > 0 {
      SinglesMerge(parts, numbers, k - 1);
    }
  }

  lemma NumeralParts(numbers: seq<nat>)
    ensures var parts := DecodedParts(Rendered(numbers)); MergedAll(parts, |parts|) == Ok(Members(numbers, |numbers|))
  {
    var parts := DecodedParts(Rendered(numbers));
    forall i | 0 <= i < |parts| ensures parts[i] == Ok({numbers[i] as int}) {
      NumeralPart(numbers[i]);
    }
    SinglesMerge(parts, numbers, |numbers|);
  }

  lemma JoinIsNotBlank(parts: seq<string>, c: char)
    requires |parts| > 0 && Numeral(parts[0], 10)
    ensures Join(parts, c) != "" && Strip(Join(parts, c)) != ""
  {
    var s := Join(parts, c);
    assert s[0] == parts[0][0] && IsDigit(parts[0][0], 10);
    assert !IsSpace(s[0]);
    RStripKeepsText(s, 0);
  }

  lemma {:induction false} RStripKeepsText(s: string, i: nat)
    requires i < |s| && !IsSpace(s[i])
    ensures RStrip(s, IsSpace) != ""
  {
    if IsSpace(s[|s| - 1]) {
      RStripKeepsText(s[..|s| - 1], i);
    }
  }

  ghost function Integers(s: set<nat>): (r: set<int>)
    ensures forall x :: x in r <==> x >= 0 && x as nat in s
  {
    set n | n in s :: n as int
  }

  lemma AscendingMembers(s: set<nat>)
    ensures Members(Ascending(s), |Ascending(s)|) == Integers(s)
  {
    assert Ascending(s)[..|Ascending(s)|] == Ascending(s);
  }

  lemma SplitOfRendered(numbers: seq<nat>)
    requires numbers != []
    ensures Split(Join(Rendered(numbers), ','), ',') == Rendered(numbers)
  {
    forall i | 0 <= i < |numbers| ensures ',' !in Rendered(numbers)[i] {
      NumeralPart(numbers[i]);
    }
    SplitOfJoin(Rendered(numbers), ',');
  }

  lemma DecodeOfRendered(numbers: seq<nat>)
    ensures Decode(Join(Rendered(numbers), ',')) == Ok(Members(numbers, |numbers|))
  {
    if numbers != [] {
      RenderIsNumeral(numbers[0], 10);
      JoinIsNotBlank(Rendered(numbers), ',');
      SplitOfRendered(numbers);
      NumeralParts(numbers);
    }
  }

  /** Every set of cpus or nodes is read back as it was written. */
  lemma DecodeOfEncode(s: set<nat>)
    ensures Decode(Encode(s)) == Ok(Integers(s))
  {
    DecodeOfRendered(Ascending(s));
    AscendingMembers(s);
  }

  lemma {:induction false} StrippedFrom(s: string, c: char)
    ensures c in Strip(s) ==> c in s
  {
    var l := LStrip(s, IsSpace);
    var r := RStrip(l, IsSpace);
    LStripped(s, IsSpace);
    RStripped(l, IsSpace);
    assert s[|s| - |l|..] == l && l[..|r|] == r;
  }

  lemma NegativeHasDash(s: string)
    ensures ParseInt(s, 10).Some? && ParseInt(s, 10).value < 0 ==> '-' in Strip(s)
  {
    var t := Strip(s);
    assert t != "" ==> t[0] in t;
  }

  lemma NoDashIsNonNegative(s: string)
    requires '-' !in s
    ensures ParseInt(Strip(s), 10).Some? ==> ParseInt(Strip(s), 10).value >= 0
  {
    var t := Strip(s);
    StrippedFrom(s, '-');
    StrippedFrom(t, '-');
    NegativeHasDash(t);
  }

  ghost predicate AllNonNegative(r: Result<set<int>>) {
    r.Ok? ==> forall x :: x in r.value ==> x >= 0
  }

  lemma PartIsNonNegative(part: string)
    ensures AllNonNegative(DecodePart(part))
  {
    var b := Split(part, '-');
    NoDashIsNonNegative(b[0]);
    if |b| == 2 {
      NoDashIsNonNegative(b[1]);
    }
  }

  lemma {:induction false} PartsAreNonNegative(parts: seq<Result<set<int>>>, k: nat)
    requires k <= |parts| && forall i :: 0 <= i < |parts| ==> AllNonNegative(parts[i])
    ensures AllNonNegative(MergedAll(parts, k))
  {
    if k > 0 {
      PartsAreNonNegative(parts, k - 1);
    }
  }

  /** Whatever is read is a set of non-negative numbers, as a dash never starts a number. */
  lemma DecodedIsNonNegative(value: string)
    ensures AllNonNegative(Decode(value))
  {
    var texts := Split(value, ',');
    var parts := DecodedParts(texts);
    forall i | 0 <= i < |parts| ensures AllNonNegative(parts[i]) {
      PartIsNonNegative(texts[i]);
    }
    PartsAreNonNegative(parts, |parts|);
  }

  ghost function Naturals(s: set<int>): (r: set<nat>)
    ensures forall x: nat :: x in r <==> x in s
  {
    set x | x in s && x >= 0 :: x as nat
  }

  /** The canonical form a control file's value is compared by: what is read, written again. */
  ghost function Canonical(value: string): string
    requires Decode(value).Ok?
  {
    Encode(Naturals(Decode(value).value))
  }

  lemma DecodeOfCanonical(value: string)
    requires Decode(value).Ok?
    ensures Decode(Canonical(value)) == Decode(value)
  {
    DecodedIsNonNegative(value);
    DecodeOfEncode(Naturals(Decode(value).value));
    assert Integers(Naturals(Decode(value).value)) == Decode(value).value;
  }

  /** The canonical form denotes the same set, is its own canonical form, and is shared by exactly the
      values that denote that set. */
  lemma CanonicalForm(value: string, other: string)
    requires Decode(value).Ok? && Decode(other).Ok?
    ensures Decode(Canonical(value)) == Decode(value)
    ensures Canonical(Canonical(value)) == Canonical(value)
    ensures Canonical(value) == Canonical(other) <==> Decode(value) == Decode(other)
  {
    DecodeOfCanonical(value);
    DecodeOfCanonical(other);
  }

  /** A canonical value lists its numbers one by one in increasing order. */
  lemma CanonicalIsExpanded(value: string)
    requires Decode(value).Ok? && Decode(value).value != {}
    ensures exists numbers: seq<nat> :: Increasing(numbers) && Split(Canonical(value), ',') == Rendered(numbers)
  {
    DecodedIsNonNegative(value);
    var numbers := Ascending(Naturals(Decode(value).value));
    var x :| x in Decode(value).value;
    assert x as nat in Naturals(Decode(value).value) && x as nat in numbers;
    SplitOfRendered(numbers);
  }

  // ----- What raises, and what lists nothing -----

  predicate IsInteger(text: string) { ParseInt(Strip(text), 10).Some? }

  /** A part with at most one dash and a boundary that is no integer. */
  predicate PartRaises(part: string) {
    var boundaries := Split(part, '-');
    |boundaries| <= 2 && exists i :: 0 <= i < |boundaries| && !IsInteger(boundaries[i])
  }

  /** A part with more than one dash, or a range that ends before it starts. */
  predicate PartListsNothing(part: string) {
    var boundaries := Split(part, '-');
    |boundaries| > 2 ||
    (|boundaries| == 2 && IsInteger(boundaries[0]) && IsInteger(boundaries[1])
     && ParseInt(Strip(boundaries[0]), 10).value > ParseInt(Strip(boundaries[1]), 10).value)
  }

  lemma PartMeans(part: string)
    ensures DecodePart(part).Failed? <==> PartRaises(part)
    ensures DecodePart(part).Failed? ==> DecodePart(part) == Failed(ValueError)
    ensures DecodePart(part) == Ok({}) <==> PartListsNothing(part)
  {
    hide ParseInt;
    hide Strip;
    var b := Split(part, '-');
    if |b| == 1 {
      assert PartRaises(part) <==> !IsInteger(b[0]);
      var n := ParseInt(Strip(b[0]), 10);
      if n.Some? {
        assert n.value in {n.value};
      }
    } else if |b| == 2 {
      assert PartRaises(part) <==> !IsInteger(b[0]) || !IsInteger(b[1]);
      var first, last := ParseInt(Strip(b[0]), 10), ParseInt(Strip(b[1]), 10);
      if first.Some? && last.Some? {
        EmptyBetween(first.value, last.value);
      }
    }
  }

  lemma EmptyBetween(first: int, last: int)
    ensures Between(first, last) == {} <==> first > last
  {
    if first <= last {
      assert first in Between(first, last);
    }
  }

  lemma {:induction false} MergedMeans(parts: seq<Result<set<int>>>, k: nat)
    requires k <= |parts|
    ensures MergedAll(parts, k).Failed? <==> exists i :: 0 <= i < k && parts[i].Failed?
    ensures MergedAll(parts, k).Failed? ==> MergedAll(parts, k) == Failed(ValueError)
    ensures MergedAll(parts, k) == Ok({}) <==> forall i :: 0 <= i < k ==> parts[i] == Ok({})
  {
    if k > 0 {
      MergedMeans(parts, k - 1);
      if MergedAll(parts, k - 1).Ok? && parts[k - 1].Ok? {
        EmptyUnion(MergedAll(parts, k - 1).value, parts[k - 1].value);
      }
    }
  }

  lemma EmptyUnion(a: set<int>, b: set<int>)
    ensures a + b == {} <==> a == {} && b == {}
  {
    assert a <= a + b && b <= a + b;
  }

  predicate IsBlank(text: string) { Strip(text) == "" }

  lemma SomePartRaises(parts: seq<Result<set<int>>>, texts: seq<string>)
    requires |parts| == |texts| && forall i :: 0 <= i < |texts| ==> parts[i] == DecodePart(texts[i])
    ensures (exists i :: 0 <= i < |parts| && parts[i].Failed?) <==> exists i :: 0 <= i < |texts| && PartRaises(texts[i])
    ensures (forall i :: 0 <= i < |parts| ==> parts[i] == Ok({})) <==> forall i :: 0 <= i < |texts| ==> PartListsNothing(texts[i])
  {
    hide PartRaises;
    hide PartListsNothing;
    hide DecodePart;
    forall i | 0 <= i < |texts|
      ensures (parts[i].Failed? <==> PartRaises(texts[i])) && (parts[i] == Ok({}) <==> PartListsNothing(texts[i]))
    {
      PartMeans(texts[i]);
    }
    if i :| 0 <= i < |texts| && PartRaises(texts[i]) {
      assert parts[i].Failed?;
    }
    if i :| 0 <= i < |texts| && !PartListsNothing(texts[i]) {
      assert parts[i] != Ok({});
    }
  }

  lemma DecodeUnfolds(value: string)
    ensures Decode(value) == if IsBlank(value) then Ok({})
                             else MergedAll(DecodedParts(Split(value, ',')), |Split(value, ',')|)
  {
    hide Split;
    hide MergedAll;
    EmptyIsBlank();
  }

  /** Reading raises a ValueError exactly for a text that is not blank and has a part, with at most one dash, one of whose
      boundaries is no integer; nothing else is ever raised. */
  lemma DecodeRaisesIff(value: string)
    ensures Decode(value).Failed? <==> !IsBlank(value) && exists i :: 0 <= i < |Split(value, ',')| && PartRaises(Split(value, ',')[i])
    ensures Decode(value).Failed? ==> Decode(value) == Failed(ValueError)
  {
    hide Decode;
    hide Split;
    hide IsBlank;
    hide PartRaises;
    hide PartListsNothing;
    hide DecodePart;
    hide MergedAll;
    var texts := Split(value, ',');
    DecodeUnfolds(value);
    MergedMeans(DecodedParts(texts), |texts|);
    SomePartRaises(DecodedParts(texts), texts);
  }

  lemma EmptyIsBlank()
    ensures IsBlank("")
  {
  }

  /** A text lists nothing exactly when it is blank or each of its parts has more than one dash or is a range that ends
      before it starts. */
  lemma ListsNothingIff(value: string)
    ensures Decode(value) == Ok({}) <==>
      IsBlank(value) || forall i :: 0 <= i < |Split(value, ',')| ==> PartListsNothing(Split(value, ',')[i])
  {
    hide Decode;
    hide Split;
    hide IsBlank;
    hide PartRaises;
    hide PartListsNothing;
    hide DecodePart;
    hide MergedAll;
    var texts := Split(value, ',');
    DecodeUnfolds(value);
    MergedMeans(DecodedParts(texts), |texts|);
    SomePartRaises(DecodedParts(texts), texts);
  }

  lemma DigitIsInteger(s: string, n: nat)
    requires |s| == 1 && IsDigit(s[0], 10) && DigitValue(s[0]) == Some(n)
    ensures Numeral(s, 10) && Strip(s) == s && ParseInt(s, 10) == Some(n)
  {
    hide Strip;
    hide ParseInt;
    NumeralIsStripped(s, 10);
    NumeralIsInt(s);
    assert s[..0] == "" && Value("", 10) == 0;
  }

  /** A part with two dashes is ignored: "1-2-3" lists nothing. */
  lemma TwoDashesListNothing()
    ensures Decode("1-2-3") == Ok({}) && Split("1-2-3", ',') == ["1-2-3"]
  {
    hide Split;
    hide ParseInt;
    hide Strip;
    DashParts();
    SplitWhole("1-2-3", ',');
    ListsNothingIff("1-2-3");
  }

  lemma DashParts()
    ensures Split("1-2-3", '-') == ["1", "2", "3"]
  {
    hide Split;
    var parts := ["1", "2", "3"];
    assert parts[1..] == ["2", "3"] && ["2", "3"][1..] == ["3"];
    assert Join(["2", "3"], '-') == "2-3" && Join(parts, '-') == "1-2-3";
    SplitOfJoin(parts, '-');
  }

  /** So does a range that ends before it starts, such as "3-1". */
  lemma BackwardRangeListsNothing()
    ensures Decode("3-1") == Ok({})
  {
    hide Split;
    hide ParseInt;
    hide Strip;
    var parts := ["3", "1"];
    assert parts[1..] == ["1"] && Join(parts, '-') == "3-1";
    SplitOfJoin(parts, '-');
    SplitWhole("3-1", ',');
    DigitIsInteger("3", 3);
    DigitIsInteger("1", 1);
    assert PartListsNothing("3-1");
    ListsNothingIff("3-1");
  }

  // ----- What a text lists -----

  /** The part is a number, or a first and a last number with a dash between, that includes `x`. */
  ghost predicate PartLists(part: string, x: int) {
    || ('-' !in part && ParseInt(Strip(part), 10) == Some(x))
    || exists i :: 0 <= i < |part| && RangeAt(part, i, x)
  }

  /** The only dash of the part is at `i`, and the numbers around it include `x`. */
  ghost predicate RangeAt(part: string, i: nat, x: int)
    requires i < |part|
  {
    && part[i] == '-' && '-' !in part[..i] && '-' !in part[i + 1..]
    && ParseInt(Strip(part[..i]), 10).Some? && ParseInt(Strip(part[i + 1..]), 10).Some?
    && ParseInt(Strip(part[..i]), 10).value <= x <= ParseInt(Strip(part[i + 1..]), 10).value
  }

  lemma SplitAtOnlyDash(part: string, i: nat)
    requires i < |part| && part[i] == '-' && '-' !in part[..i]
    ensures Split(part, '-') == [part[..i]] + Split(part[i + 1..], '-')
  {
    FindAfter(part[..i], '-', part[i + 1..]);
    assert part[..i] + ['-'] + part[i + 1..] == part;
  }

  lemma SplitInTwo(part: string, i: nat)
    requires i < |part| && part[i] == '-' && '-' !in part[..i]
    ensures |Split(part, '-')| == 2 <==> '-' !in part[i + 1..]
    ensures '-' !in part[i + 1..] ==> Split(part, '-') == [part[..i], part[i + 1..]]
    ensures |Split(part, '-')| > 1
  {
    hide Split;
    SplitAtOnlyDash(part, i);
    var rest := part[i + 1..];
    if '-' !in rest {
      SplitWhole(rest, '-');
    } else {
      MoreThanOne(rest);
    }
  }

  lemma MoreThanOne(s: string)
    requires '-' in s
    ensures |Split(s, '-')| > 1
  {
    assert Find(s, '-').Some?;
  }

  lemma InPrefix(s: string, j: nat, i: nat)
    ensures j < i <= |s| ==> s[j] in s[..i]
  {
    if j < i <= |s| {
      assert s[..i][j] == s[j];
    }
  }

  lemma PartListsIff(part: string, x: int)
    ensures DecodePart(part).Ok? ==> (x in DecodePart(part).value <==> PartLists(part, x))
  {
    hide ParseInt;
    hide Strip;
    hide Split;
    var f := Find(part, '-');
    if f.None? {
      SplitWhole(part, '-');
    } else {
      var i := f.value;
      SplitInTwo(part, i);
      forall j | 0 <= j < |part| && part[j] == '-' && '-' !in part[..j] ensures j == i {
        InPrefix(part, j, i);
        InPrefix(part, i, j);
      }
      assert part[i] in part;
      assert PartLists(part, x) <==> RangeAt(part, i, x);
    }
  }

  lemma {:induction false} MergedHas(parts: seq<Result<set<int>>>, k: nat, x: int)
    requires k <= |parts| && MergedAll(parts, k).Ok?
    ensures forall i :: 0 <= i < k ==> parts[i].Ok?
    ensures x in MergedAll(parts, k).value <==> exists i :: 0 <= i < k && x in parts[i].value
  {
    if k > 0 {
      MergedHas(parts, k - 1, x);
    }
  }

  /** A text denotes exactly the numbers that some part of it lists, alone or in a range. */
  lemma DecodedIff(value: string, x: int)
    requires Decode(value).Ok?
    ensures x in Decode(value).value <==>
      !IsBlank(value) && exists i :: 0 <= i < |Split(value, ',')| && PartLists(Split(value, ',')[i], x)
  {
    hide Decode;
    hide Split;
    hide IsBlank;
    hide PartLists;
    hide DecodePart;
    hide MergedAll;
    var texts := Split(value, ',');
    var parts := DecodedParts(texts);
    DecodeUnfolds(value);
    if !IsBlank(value) {
      MergedHas(parts, |parts|, x);
      forall i | 0 <= i < |texts| ensures x in parts[i].value <==> PartLists(texts[i], x) {
        PartListsIff(texts[i], x);
      }
    }
  }
}
