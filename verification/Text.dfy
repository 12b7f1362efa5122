/** Python's string operations on the ASCII texts of control files: splitting, joining, stripping,
    and numbers written in decimal or hexadecimal. */
module Text {
  import opened Dicts

  // ----- Splitting and joining -----

  /** `s.find(c)`, with None for -1. */
  function Find(s: string, c: char): (r: Option<nat>)
    ensures r.Some? ==> r.value < |s| && s[r.value] == c && c !in s[..r.value]
    ensures r.None? ==> c !in s
  {
    if s == "" then None
    else if s[0] == c then Some(0)
    else
      match Find(s[1..], c)
      case None => None
      case Some(i) => assert s[..i + 1] == [s[0]] + s[1..][..i]; Some(i + 1)
  }

  /** `s.split(c)`: at least one part, possibly empty ones. */
  function Split(s: string, c: char): (r: seq<string>)
    ensures |r| > 0
    ensures forall i :: 0 <= i < |r| ==> c !in r[i]
    decreases |s|
  {
    match Find(s, c)
    case None => [s]
    case Some(i) => [s[..i]] + Split(s[i + 1..], c)
  }

  /** `c.join(parts)`. */
  function Join(parts: seq<string>, c: char): string {
    if |parts| == 0 then ""
    else if |parts| == 1 then parts[0]
    else parts[0] + [c] + Join(parts[1..], c)
  }

  lemma {:induction false} JoinLast(parts: seq<string>, last: string, c: char)
    requires parts != []
    ensures Join(parts + [last], c) == Join(parts, c) + [c] + last
  {
    if |parts| > 1 {
      JoinLast(parts[1..], last, c);
      assert (parts + [last])[1..] == parts[1..] + [last];
    }
  }

  /** Every part followed by a separator. */
  function Terminated(parts: seq<string>, k: nat, c: char): string
    requires k <= |parts|
  {
    if k == 0 then "" else Terminated(parts, k - 1, c) + parts[k - 1] + [c]
  }

  lemma {:induction false} TerminatedIsJoined(parts: seq<string>, k: nat, c: char)
    requires 0 < k <= |parts|
    ensures Terminated(parts, k, c) == Join(parts[..k], c) + [c]
  {
    if k == 1 {
      assert parts[..1] == [parts[0]] && Terminated(parts, 0, c) == "";
    } else {
      TerminatedIsJoined(parts, k - 1, c);
      JoinLast(parts[..k - 1], parts[k - 1], c);
      assert parts[..k] == parts[..k - 1] + [parts[k - 1]];
    }
  }

  lemma {:induction false} FindAfter(a: string, c: char, rest: string)
    requires c !in a
    ensures Find(a + [c] + rest, c) == Some(|a|)
  {
    var s := a + [c] + rest;
    if a != "" {
      assert s[0] == a[0] && a[0] in a && s[1..] == a[1..] + [c] + rest;
      FindAfter(a[1..], c, rest);
    }
  }

  lemma {:induction false} SplitOfJoin(parts: seq<string>, c: char)
    requires |parts| > 0 && forall i :: 0 <= i < |parts| ==> c !in parts[i]
    ensures Split(Join(parts, c), c) == parts
  {
    if |parts| > 1 {
      var rest := Join(parts[1..], c);
      FindAfter(parts[0], c, rest);
      var s := parts[0] + [c] + rest;
      assert s[..|parts[0]|] == parts[0] && s[|parts[0]| + 1..] == rest;
      SplitOfJoin(parts[1..], c);
    } else {
      assert Find(parts[0], c).None?;
    }
  }

  lemma SplitWhole(s: string, c: char)
    requires c !in s
    ensures Split(s, c) == [s]
  {
    assert Find(s, c).None?;
  }

  lemma {:induction false} JoinOfSplit(s: string, c: char)
    ensures Join(Split(s, c), c) == s
    decreases |s|
  {
    var r := Find(s, c);
    if r.Some? {
      var i := r.value;
      JoinOfSplit(s[i + 1..], c);
      assert Split(s, c)[1..] == Split(s[i + 1..], c);
      assert s == s[..i] + [c] + s[i + 1..];
    }
  }

  // ----- Stripping -----

  predicate IsSpace(c: char) { c == ' ' || '\t' <= c <= '\r' || '\U{1c}' <= c <= '\U{1f}' }

  function LStrip(s: string, drop: char -> bool): string {
    if s != "" && drop(s[0]) then LStrip(s[1..], drop) else s
  }

  function RStrip(s: string, drop: char -> bool): string {
    if s != "" && drop(s[|s| - 1]) then RStrip(s[..|s| - 1], drop) else s
  }

  /** Stripping on the left leaves a suffix, */
  lemma {:induction false} LStripped(s: string, drop: char -> bool)
    ensures |LStrip(s, drop)| <= |s|
    ensures s[|s| - |LStrip(s, drop)|..] == LStrip(s, drop)
  {
    if s != "" && drop(s[0]) {
      LStripped(s[1..], drop);
    }
  }

  /** the one that starts with the first character to keep. */
  lemma {:induction false} LStripStarts(s: string, drop: char -> bool)
    ensures LStrip(s, drop) != "" ==> !drop(LStrip(s, drop)[0])
  {
    if s != "" && drop(s[0]) {
      LStripStarts(s[1..], drop);
    }
  }

  /** Stripping on the right leaves a prefix. */
  lemma {:induction false} RStripped(s: string, drop: char -> bool)
    ensures |RStrip(s, drop)| <= |s|
    ensures s[..|RStrip(s, drop)|] == RStrip(s, drop)
  {
    if s != "" && drop(s[|s| - 1]) {
      RStripped(s[..|s| - 1], drop);
    }
  }

  /** `s.strip()`. */
  function Strip(s: string): string { RStrip(LStrip(s, IsSpace), IsSpace) }

  // ----- Numbers -----

  function DigitValue(c: char): Option<nat> {
    if '0' <= c <= '9' then Some((c - '0') as nat)
    else if 'a' <= c <= 'f' then Some((c - 'a') as nat + 10)
    else if 'A' <= c <= 'F' then Some((c - 'A') as nat + 10)
    else None
  }

  predicate IsDigit(c: char, base: nat) { DigitValue(c).Some? && DigitValue(c).value < base }

  /** Digits of `base`, single underscores allowed between them. */
  function ParseDigits(s: string, base: nat): Option<nat>
    decreases |s|
  {
    if s == "" || !IsDigit(s[|s| - 1], base) then None
    else
      var d := DigitValue(s[|s| - 1]).value;
      var rest := s[..|s| - 1];
      if rest == "" then Some(d)
      else
        match ParseDigits(if rest[|rest| - 1] == '_' then rest[..|rest| - 1] else rest, base)
        case None => None
        case Some(n) => Some(n * base + d)
  }

  function Unprefixed(s: string, base: nat): string {
    if base == 16 && |s| >= 2 && s[0] == '0' && (s[1] == 'x' || s[1] == 'X') then
      if |s| > 2 && s[2] == '_' then s[3..] else s[2..]
    else s
  }

  /** `int(s, base)` for bases 10 and 16: surrounding space, one sign, digits; None for ValueError. */
  function ParseInt(s: string, base: nat): Option<int> {
    var t := Strip(s);
    if t != "" && (t[0] == '+' || t[0] == '-') then
      match ParseDigits(Unprefixed(t[1..], base), base)
      case None => None
      case Some(n) => var v: int := if t[0] == '-' then -(n as int) else n; Some(v)
    else
      match ParseDigits(Unprefixed(t, base), base)
      case None => None
      case Some(n) => Some(n)
  }

  /** A plain numeral: nothing but digits, at least one. */
  predicate Numeral(s: string, base: nat) {
    s != "" && forall i :: 0 <= i < |s| ==> IsDigit(s[i], base)
  }

  /** The number a plain numeral denotes; the empty one denotes zero. */
  function Value(s: string, base: nat): nat {
    if s == "" then 0
    else Value(s[..|s| - 1], base) * base + if IsDigit(s[|s| - 1], base) then DigitValue(s[|s| - 1]).value else 0
  }

  lemma {:induction false} NumeralParses(s: string, base: nat)
    requires Numeral(s, base)
    ensures ParseDigits(s, base) == Some(Value(s, base))
  {
    var rest := s[..|s| - 1];
    if rest != "" {
      assert IsDigit(rest[|rest| - 1], base);
      NumeralParses(rest, base);
    } else {
      assert Value(rest, base) == 0;
    }
  }

  lemma NumeralIsStripped(s: string, base: nat)
    requires Numeral(s, base)
    ensures Strip(s) == s && s[0] != '+' && s[0] != '-'
  {
    assert IsDigit(s[0], base) && IsDigit(s[|s| - 1], base);
    assert !IsSpace(s[0]) && !IsSpace(s[|s| - 1]);
  }

  /** Python reads a plain decimal numeral as the number it denotes. */
  lemma NumeralIsInt(s: string)
    requires Numeral(s, 10)
    ensures ParseInt(s, 10) == Some(Value(s, 10))
  {
    NumeralIsStripped(s, 10);
    NumeralParses(s, 10);
  }

  function Digit(d: nat): char
    requires d < 16
  {
    if d < 10 then '0' + d as char else 'a' + (d - 10) as char
  }

  lemma DigitHasValue(d: nat, base: nat)
    requires d < base <= 16
    ensures IsDigit(Digit(d), base) && DigitValue(Digit(d)) == Some(d)
  {
  }

  function Quotient(n: nat, base: nat): (q: nat)
    requires base > 1
    ensures n >= base ==> q < n
    ensures q * base <= n && n - q * base < base
  {
    if n < base then 0
    else
      var q := Quotient(n - base, base);
      assert (q + 1) * base == q * base + base;
      q + 1
  }

  /** `str(n)` in base 10, `format(n, 'b')` in base 2, `format(n, 'x')` in base 16. */
  function Render(n: nat, base: nat): (r: string)
    requires 2 <= base <= 16
    ensures r != ""
    decreases n
  {
    if n < base then [Digit(n)]
    else var q := Quotient(n, base); Render(q, base) + [Digit(n - q * base)]
  }

  lemma AppendDigit(s: string, d: nat, base: nat)
    requires d < base <= 16 && (s == "" || Numeral(s, base))
    ensures Numeral(s + [Digit(d)], base) && Value(s + [Digit(d)], base) == Value(s, base) * base + d
  {
    DigitHasValue(d, base);
    assert (s + [Digit(d)])[..|s|] == s;
  }

  lemma NumeralOfParts(s: string, q: nat, m: nat, n: nat, base: nat)
    requires Numeral(s, base) && Value(s, base) == q && m < base <= 16 && q * base + m == n
    ensures Numeral(s + [Digit(m)], base) && Value(s + [Digit(m)], base) == n
  {
    AppendDigit(s, m, base);
  }

  lemma {:induction false} RenderIsNumeral(n: nat, base: nat)
    requires 2 <= base <= 16
    ensures Numeral(Render(n, base), base) && Value(Render(n, base), base) == n
    decreases n
  {
    if n < base {
      AppendDigit("", n, base);
      assert "" + [Digit(n)] == [Digit(n)] && Value("", base) == 0;
    } else {
      var q := Quotient(n, base);
      RenderIsNumeral(q, base);
      NumeralOfParts(Render(q, base), q, n - q * base, n, base);
    }
  }

  /** `int(str(n)) == n`. */
  lemma IntOfStr(n: nat)
    ensures ParseInt(Render(n, 10), 10) == Some(n)
  {
    RenderIsNumeral(n, 10);
    NumeralIsInt(Render(n, 10));
  }

  /** `str(v)` of any integer. */
  function IntText(v: int): (r: string)
    ensures r != ""
  {
    if v < 0 then "-" + Render(-v, 10) else Render(v, 10)
  }

  lemma SignedIsStripped(s: string, base: nat)
    requires Numeral(s, base)
    ensures Strip("-" + s) == "-" + s
  {
    var t := "-" + s;
    assert t[|t| - 1] == s[|s| - 1] && IsDigit(s[|s| - 1], base);
    assert !IsSpace(t[0]) && !IsSpace(t[|t| - 1]);
  }

  lemma NegativeParses(t: string, s: string, n: nat, base: nat)
    requires Strip(t) == t && t != "" && t[0] == '-' && t[1..] == s
    requires ParseDigits(s, base) == Some(n) && Unprefixed(s, base) == s
    ensures ParseInt(t, base) == Some(-(n as int))
  {
    hide ParseDigits;
    hide Strip;
  }

  lemma IntOfIntText(v: int)
    ensures ParseInt(IntText(v), 10) == Some(v)
  {
    hide ParseInt;
    hide ParseDigits;
    hide Strip;
    hide Render;
    if v < 0 {
      var s := Render(-v, 10);
      RenderIsNumeral(-v, 10);
      SignedIsStripped(s, 10);
      NumeralParses(s, 10);
      NegativeParses("-" + s, s, -v, 10);
    } else {
      IntOfStr(v);
    }
  }

  lemma IntTextHasNo(v: int, c: char)
    requires c != '-' && !IsDigit(c, 10)
    ensures c !in IntText(v)
  {
    var n := if v < 0 then -v else v;
    RenderIsNumeral(n, 10);
    NumeralHasNo(Render(n, 10), 10, c);
  }

  lemma NumeralHasNo(s: string, base: nat, c: char)
    requires Numeral(s, base) && !IsDigit(c, base)
    ensures c !in s
  {
  }

  // ----- Leading zeros -----

  predicate IsZeroOrSpace(c: char) { c == ' ' || c == '0' }

  /** `s.lstrip(' 0')`. */
  function Significant(s: string): string { LStrip(s, IsZeroOrSpace) }

  lemma {:induction false} ZerosAddNothing(s: string, base: nat)
    requires s != "" && s[0] == '0' && base > 0
    ensures Value(s, base) == Value(s[1..], base)
  {
    if |s| == 1 {
      assert s[..0] == "" && s[1..] == "";
    } else {
      ZerosAddNothing(s[..|s| - 1], base);
      assert s[..|s| - 1][1..] == s[1..][..|s| - 2];
    }
  }

  lemma {:induction false} SignificantHasTheValue(s: string, base: nat)
    requires base > 0 && forall i :: 0 <= i < |s| ==> IsDigit(s[i], base)
    ensures Value(Significant(s), base) == Value(s, base)
    ensures forall i :: 0 <= i < |Significant(s)| ==> IsDigit(Significant(s)[i], base)
  {
    if s != "" && IsZeroOrSpace(s[0]) {
      assert IsDigit(s[0], base);
      ZerosAddNothing(s, base);
      SignificantHasTheValue(s[1..], base);
    }
  }

  /** Lower-case numerals without leading zero are the same text as soon as they have the same value. */
  predicate LowerCase(s: string) { forall i :: 0 <= i < |s| ==> !('A' <= s[i] <= 'F') }

  lemma {:induction false} ValueIsPositive(s: string, base: nat)
    requires base > 0 && s != "" && s[0] != '0' && forall i :: 0 <= i < |s| ==> IsDigit(s[i], base)
    ensures Value(s, base) > 0
  {
    if |s| == 1 {
      assert Value(s[..0], base) == 0;
    } else {
      ValueIsPositive(s[..|s| - 1], base);
      assert Value(s[..|s| - 1], base) * base >= 1;
    }
  }

  lemma {:induction false} SameValueSameText(s: string, t: string, base: nat)
    requires base > 0 && LowerCase(s) && LowerCase(t)
    requires forall i :: 0 <= i < |s| ==> IsDigit(s[i], base)
    requires forall i :: 0 <= i < |t| ==> IsDigit(t[i], base)
    requires (s != "" ==> s[0] != '0') && (t != "" ==> t[0] != '0')
    requires Value(s, base) == Value(t, base)
    ensures s == t
    decreases |s|
  {
    if s == "" {
      if t != "" { ValueIsPositive(t, base); }
    } else {
      ValueIsPositive(s, base);
      var s', t' := s[..|s| - 1], t[..|t| - 1];
      var d, e := DigitValue(s[|s| - 1]).value, DigitValue(t[|t| - 1]).value;
      SameQuotient(Value(s', base), d, Value(t', base), e, base);
      SameValueSameText(s', t', base);
      assert s == s' + [s[|s| - 1]] && t == t' + [t[|t| - 1]];
    }
  }

  lemma SameQuotient(q: nat, d: nat, r: nat, e: nat, base: nat)
    requires d < base && e < base && q * base + d == r * base + e
    ensures q == r && d == e
  {
    if q < r {
      SmallerQuotient(q, d, r, e, base);
    } else if r < q {
      SmallerQuotient(r, e, q, d, base);
    }
  }

  lemma SmallerQuotient(q: nat, d: nat, r: nat, e: nat, base: nat)
    requires d < base && q < r
    ensures q * base + d < r * base + e
  {
    assert (q + 1) * base <= r * base;
  }
}
