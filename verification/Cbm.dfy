/** Cache bit masks, wca/resctrl_allocations.py: a mask is a block of consecutive ones. */
module Cbm {
  import opened Dicts
  import opened Numbers
  import opened Text

  function Pow2(n: nat): (r: nat)
    ensures r > 0
  {
    if n == 0 then 1 else 2 * Pow2(n - 1)
  }

  /** `n` with `j` zeros after its binary digits. */
  ghost function Shifted(n: nat, j: nat): nat {
    if j == 0 then n else 2 * Shifted(n, j - 1)
  }

  /** `n` is `k` ones followed by `j` zeros. */
  ghost predicate Block(n: nat, k: nat, j: nat) { n == Shifted(Pow2(k) - 1, j) }

  lemma DoubledProduct(a: nat, p: nat, q: nat)
    requires q == 2 * p
    ensures a * q == 2 * (a * p)
  {
  }

  lemma {:induction false} ShiftedIsProduct(n: nat, j: nat)
    ensures Shifted(n, j) == n * Pow2(j)
  {
    if j > 0 {
      ShiftedIsProduct(n, j - 1);
      DoubledProduct(n, Pow2(j - 1), Pow2(j));
    }
  }

  /** A block is a number (2^k - 1) * 2^j. */
  lemma BlockIsProduct(n: nat, k: nat, j: nat)
    ensures Block(n, k, j) <==> n == (Pow2(k) - 1) * Pow2(j)
  {
    ShiftedIsProduct(Pow2(k) - 1, j);
  }

  // ----- The loop over the binary digits -----

  /** What the loop keeps: the ones seen, whether a zero followed them, the last digit; `gap` when it raised. */
  datatype Scan = Scan(ones: nat, finished: bool, previous: char, gap: bool)

  function Step(s: Scan, bit: char): Scan {
    if s.gap then s
    else if bit == '1' then
      if s.finished then s.(gap := true) else s.(ones := s.ones + 1, previous := bit)
    else if bit == '0' then
      s.(finished := s.finished || s.previous == '1', previous := bit)
    else s
  }

  function Scanned(text: string, k: nat): Scan
    requires k <= |text|
  {
    if k == 0 then Scan(0, false, '0', false) else Step(Scanned(text, k - 1), text[k - 1])
  }

  /** `text.count('1')`. */
  function CountOnes(text: string): nat {
    if text == "" then 0 else CountOnes(text[..|text| - 1]) + if text[|text| - 1] == '1' then 1 else 0
  }

  /** `format(mask, 'b')`. */
  function Binary(m: int): string {
    if m < 0 then "-" + Render(-m, 2) else Render(m, 2)
  }

  method CheckBits(text: string) returns (ones: nat, gap: bool)
    ensures var s := Scanned(text, |text|); gap == s.gap && (!gap ==> ones == s.ones)
  {
    ones, gap := 0, false;
    var finished, previous, k := false, '0', 0;
    while k < |text| && !gap
      invariant k <= |text|
      invariant Scanned(text, k).gap == gap
      invariant !gap ==> Scanned(text, k) == Scan(ones, finished, previous, false)
    {
      var bit := text[k];
      if bit == '1' {
        if finished {
          gap := true;
        } else {
          ones, previous := ones + 1, bit;
        }
      } else if bit == '0' {
        if previous == '1' {
          finished := true;
        }
        previous := bit;
      }
      k := k + 1;
    }
    GapStays(text, k, |text|);
  }

  lemma {:induction false} GapStays(text: string, j: nat, k: nat)
    requires j <= k <= |text|
    ensures Scanned(text, j).gap ==> Scanned(text, k).gap
  {
    if j < k {
      GapStays(text, j, k - 1);
    }
  }

  // ----- What the loop recognises -----

  lemma {:induction false} ScannedPrefix(text: string, more: string, k: nat)
    requires k <= |text|
    ensures Scanned(text + more, k) == Scanned(text, k)
  {
    if k > 0 {
      ScannedPrefix(text, more, k - 1);
    }
  }

  lemma ScannedLast(text: string, bit: char)
    ensures Scanned(text + [bit], |text| + 1) == Step(Scanned(text, |text|), bit)
  {
    ScannedPrefix(text, [bit], |text|);
  }

  /** The state after the binary digits of `n`: no gap exactly for a block, whose shape the state shows. */
  ghost predicate Recognised(s: Scan, n: nat) {
    if s.gap then forall k: nat, j: nat :: !Block(n, k, j)
    else if n == 0 then s == Scan(0, false, '0', false)
    else if !s.finished then s.ones > 0 && s.previous == '1' && Block(n, s.ones, 0)
    else s.ones > 0 && s.previous == '0' && exists j: nat :: j > 0 && Block(n, s.ones, j)
  }

  lemma BlockTwice(n: nat, k: nat, j: nat)
    requires Block(n, k, j)
    ensures Block(2 * n, k, j + 1)
  {
  }

  lemma BlockHalf(n: nat, b: nat, k: nat, j: nat)
    requires b < 2 && Block(2 * n + b, k, j)
    ensures b == 1 ==> j == 0 && k > 0 && Block(n, k - 1, 0)
    ensures b == 0 ==> (j > 0 && Block(n, k, j - 1)) || n == 0
  {
  }

  lemma {:induction false} ShiftedIsPositive(n: nat, j: nat)
    requires n > 0
    ensures Shifted(n, j) > 0
  {
    if j > 0 {
      ShiftedIsPositive(n, j - 1);
    }
  }

  lemma ZeroIsEmptyBlock(k: nat, j: nat)
    requires Block(0, k, j)
    ensures k == 0
  {
    if k > 0 {
      ShiftedIsPositive(Pow2(k) - 1, j);
    }
  }

  lemma {:induction false} MorePow2(a: nat, b: nat)
    requires a < b
    ensures Pow2(a) < Pow2(b)
  {
    if a + 1 < b {
      MorePow2(a, b - 1);
    }
  }

  lemma StepOnZero(s: Scan, n: nat)
    requires Recognised(s, n)
    ensures Recognised(Step(s, '0'), 2 * n)
  {
    if s.gap {
      forall k: nat, j: nat ensures !Block(2 * n, k, j) {
        NoBlockTwice(n, k, j);
      }
    } else if n > 0 {
      var j: nat :| Block(n, s.ones, j);
      BlockTwice(n, s.ones, j);
    }
  }

  lemma NoBlockTwice(n: nat, k: nat, j: nat)
    requires forall k: nat, j: nat :: !Block(n, k, j)
    ensures !Block(2 * n, k, j)
  {
    assert !Block(n, 0, 0);
    if Block(2 * n, k, j) {
      BlockHalf(n, 0, k, j);
    }
  }

  lemma StepOnOne(s: Scan, n: nat)
    requires Recognised(s, n)
    ensures Recognised(Step(s, '1'), 2 * n + 1)
  {
    if s.gap || s.finished {
      var m := 2 * n + 1;
      forall k: nat, j: nat ensures !Block(m, k, j) {
        NoBlockAfter(s, n, k, j);
      }
    } else {
      assert Block(n, s.ones, 0);
      assert 2 * (Pow2(s.ones) - 1) + 1 == Pow2(s.ones + 1) - 1;
    }
  }

  lemma NoBlockAfter(s: Scan, n: nat, k: nat, j: nat)
    requires Recognised(s, n) && (s.gap || s.finished)
    ensures !Block(2 * n + 1, k, j)
  {
    if Block(2 * n + 1, k, j) {
      BlockHalf(n, 1, k, j);
      if !s.gap {
        var i: nat :| i > 0 && Block(n, s.ones, i);
        EvenIsNotOnes(n, s.ones, i, k - 1);
      }
    }
  }

  lemma EvenIsNotOnes(n: nat, k: nat, j: nat, ones: nat)
    requires k > 0 && j > 0 && Block(n, k, j)
    ensures !Block(n, ones, 0)
  {
    ShiftedIsPositive(Pow2(k) - 1, j);
  }

  lemma {:induction false} BinaryIsRecognised(n: nat)
    ensures var t := Render(n, 2); Recognised(Scanned(t, |t|), n)
    decreases n
  {
    if n < 2 {
      ScannedLast("", Digit(n));
      assert Render(n, 2) == "" + [Digit(n)];
      assert Recognised(Scanned("", 0), 0);
      if n == 0 { StepOnZero(Scanned("", 0), 0); } else { StepOnOne(Scanned("", 0), 0); }
    } else {
      var q := Quotient(n, 2);
      BinaryIsRecognised(q);
      ScannedLast(Render(q, 2), Digit(n - q * 2));
      StepByDigit(Scanned(Render(q, 2), |Render(q, 2)|), q, n);
    }
  }

  lemma StepByDigit(s: Scan, q: nat, n: nat)
    requires Recognised(s, q) && 0 <= n - q * 2 < 2
    ensures Recognised(Step(s, Digit(n - q * 2)), n)
  {
    if n - q * 2 == 0 { StepOnZero(s, q); } else { StepOnOne(s, q); }
  }

  lemma {:induction false} SignIsSkipped(text: string, k: nat)
    requires k <= |text|
    ensures Scanned("-" + text, k + 1) == Scanned(text, k)
  {
    if k > 0 {
      SignIsSkipped(text, k - 1);
    } else {
      assert Scanned("-" + text, 0) == Scan(0, false, '0', false);
    }
  }

  /** The loop sees a block exactly when the mask's magnitude is one; its sign is not looked at. */
  lemma MaskIsRecognised(m: int)
    ensures Recognised(Scanned(Binary(m), |Binary(m)|), Magnitude(m))
  {
    BinaryIsRecognised(Magnitude(m));
    SignIsSkipped(Render(Magnitude(m), 2), |Render(Magnitude(m), 2)|);
  }

  lemma {:induction false} OnesAreCounted(text: string, k: nat)
    requires k <= |text|
    ensures !Scanned(text, k).gap ==> Scanned(text, k).ones == CountOnes(text[..k])
  {
    if k > 0 {
      OnesAreCounted(text, k - 1);
      assert text[..k][..k - 1] == text[..k - 1];
    }
  }

  // ----- check_cbm_mask -----

  ghost function Verdict(mask: string, cbm: string, minimum: string): Result<()> {
    var m, c, b := ParseInt(mask, 16), ParseInt(cbm, 16), ParseInt(minimum, 10);
    if m.None? || c.None? then Failed(ValueError) else VerdictOn(m.value, c.value, b)
  }

  ghost function VerdictOn(m: int, c: int, b: Option<int>): Result<()> {
    var s := Scanned(Binary(m), |Binary(m)|);
    if m > c || s.gap then Failed(InvalidAllocations)
    else if b.None? then Failed(ValueError)
    else if s.ones < b.value then Failed(InvalidAllocations)
    else Ok(())
  }

  method CheckCbmMask(mask: string, cbm: string, minimum: string) returns (r: Result<()>)
    ensures r == Verdict(mask, cbm, minimum)
  {
    hide ParseInt;
    hide Binary;
    hide Scanned;
    var m, c := ParseInt(mask, 16), ParseInt(cbm, 16);
    if m.None? || c.None? { return Failed(ValueError); }
    if m.value > c.value { return Failed(InvalidAllocations); }
    var ones, gap := CheckBits(Binary(m.value));
    if gap { return Failed(InvalidAllocations); }
    var b := ParseInt(minimum, 10);
    if b.None? { return Failed(ValueError); }
    return if ones < b.value then Failed(InvalidAllocations) else Ok(());
  }

  /** A mask is accepted exactly when it is at most the full mask and a block of at least the minimum number of
      ones, the sign left aside. */
  lemma AcceptsExactlyBlocks(m: int, c: int, b: int)
    ensures VerdictOn(m, c, Some(b)) == Ok(()) <==>
      m <= c && exists k: nat, j: nat :: Block(Magnitude(m), k, j) && k >= b
  {
    hide Scanned;
    hide Binary;
    var n := Magnitude(m);
    var s := Scanned(Binary(m), |Binary(m)|);
    MaskIsRecognised(m);
    if !s.gap {
      var j := ShapeOf(s, n);
      forall k: nat, i: nat | Block(n, k, i) ensures k == s.ones {
        ShapeIsUnique(n, k, i, s.ones, j);
      }
    }
  }

  ghost predicate IsBlock(n: nat) { exists k: nat, j: nat :: Block(n, k, j) }

  /** Mask, full mask and minimum are numbers, and the mask is at most the full mask and a long enough block. */
  ghost predicate Accepted(mask: string, cbm: string, minimum: string) {
    var m, c, b := ParseInt(mask, 16), ParseInt(cbm, 16), ParseInt(minimum, 10);
    && m.Some? && c.Some? && b.Some? && m.value <= c.value
    && exists k: nat, j: nat :: Block(Magnitude(m.value), k, j) && k >= b.value
  }

  /** One of the masks is no number, or the minimum is none and the mask gets as far as being compared with it. */
  ghost predicate Unreadable(mask: string, cbm: string, minimum: string) {
    var m, c, b := ParseInt(mask, 16), ParseInt(cbm, 16), ParseInt(minimum, 10);
    m.None? || c.None? || (b.None? && m.value <= c.value && IsBlock(Magnitude(m.value)))
  }

  /** The check of a mask passes exactly for accepted masks and raises a ValueError exactly for unreadable ones; all others
      are refused. */
  lemma MaskVerdictIff(mask: string, cbm: string, minimum: string)
    ensures Verdict(mask, cbm, minimum) == Ok(()) <==> Accepted(mask, cbm, minimum)
    ensures Verdict(mask, cbm, minimum) == Failed(ValueError) <==> Unreadable(mask, cbm, minimum)
    ensures Verdict(mask, cbm, minimum) in {Ok(()), Failed(ValueError), Failed(InvalidAllocations)}
  {
    hide ParseInt;
    hide Scanned;
    hide Binary;
    var m, c, b := ParseInt(mask, 16), ParseInt(cbm, 16), ParseInt(minimum, 10);
    if m.Some? && c.Some? {
      AcceptsExactlyBlocks(m.value, c.value, 0);
      if b.Some? {
        AcceptsExactlyBlocks(m.value, c.value, b.value);
      }
    }
  }

  lemma ShapeOf(s: Scan, n: nat) returns (j: nat)
    requires Recognised(s, n) && !s.gap
    ensures Block(n, s.ones, j)
  {
    j := 0;
    if n > 0 && s.finished {
      j :| j > 0 && Block(n, s.ones, j);
    }
  }

  lemma {:induction false} ShapeIsUnique(n: nat, k: nat, j: nat, k': nat, j': nat)
    requires Block(n, k, j) && Block(n, k', j')
    ensures k == k'
    decreases j
  {
    if n == 0 {
      ZeroIsEmptyBlock(k, j);
      ZeroIsEmptyBlock(k', j');
    } else if j > 0 && j' > 0 {
      HalfBlock(n, k, j);
      HalfBlock(n, k', j');
      ShapeIsUnique(n / 2, k, j - 1, k', j' - 1);
    } else if j == 0 && j' == 0 {
      if k < k' { MorePow2(k, k'); } else if k' < k { MorePow2(k', k); }
    } else if j > 0 {
      NonZeroBlock(n, k, j);
      EvenIsNotOnes(n, k, j, k');
    } else {
      NonZeroBlock(n, k', j');
      EvenIsNotOnes(n, k', j', k);
    }
  }

  lemma NonZeroBlock(n: nat, k: nat, j: nat)
    requires n > 0 && Block(n, k, j)
    ensures k > 0
  {
    ShiftedZero(j);
  }

  lemma {:induction false} ShiftedZero(j: nat)
    ensures Shifted(0, j) == 0
  {
    if j > 0 {
      ShiftedZero(j - 1);
    }
  }

  lemma HalfBlock(n: nat, k: nat, j: nat)
    requires j > 0 && Block(n, k, j)
    ensures Block(n / 2, k, j - 1)
  {
  }

  /** The ones the loop counts in an accepted mask are the enabled bits that the metrics report. */
  lemma CountsTheEnabledBits(m: int, c: int, b: int)
    ensures VerdictOn(m, c, Some(b)) == Ok(()) ==> b <= CountOnes(Binary(m))
    ensures VerdictOn(m, c, Some(b)) == Ok(()) ==>
      exists j: nat :: Block(Magnitude(m), CountOnes(Binary(m)), j)
  {
    hide Scanned;
    hide Binary;
    var text := Binary(m);
    var s := Scanned(text, |text|);
    OnesAreCounted(text, |text|);
    assert text[..|text|] == text;
    MaskIsRecognised(m);
    if !s.gap {
      var j := ShapeOf(s, Magnitude(m));
    }
  }

  // ----- Accepted masks as sets of bits -----

  ghost predicate Bit(n: nat, i: nat) { n / Pow2(i) % 2 == 1 }

  /** Every bit of `m` is a bit of `c`. */
  ghost predicate BitwiseSubset(m: nat, c: nat) {
    forall i: nat :: Bit(m, i) ==> Bit(c, i)
  }

  lemma {:induction false} BitsOfFullMask(n: nat, i: nat)
    requires i < n
    ensures Bit(Pow2(n) - 1, i)
  {
    if i > 0 {
      BitsOfFullMask(n - 1, i - 1);
      HalvedQuotient(Pow2(n) - 1, Pow2(i - 1));
      assert (Pow2(n) - 1) / 2 == Pow2(n - 1) - 1;
    } else {
      assert Pow2(n) - 1 == 2 * (Pow2(n - 1) - 1) + 1 && Pow2(0) == 1;
    }
  }

  lemma HalvedQuotient(a: nat, p: nat)
    requires p > 0
    ensures a / (2 * p) == a / 2 / p
  {
    var q, r := a / 2 / p, a / 2 % p;
    assert a / 2 == q * p + r;
    var e := a % 2;
    assert a == q * (2 * p) + (2 * r + e);
    QuotientIs(a, 2 * p, q, 2 * r + e);
  }

  lemma QuotientIs(a: nat, d: nat, q: nat, r: nat)
    requires d > 0 && a == q * d + r && r < d
    ensures a / d == q
  {
    var q', r' := a / d, a % d;
    assert a == q' * d + r';
    SameQuotient(q', r', q, r, d);
  }

  lemma {:induction false} MonotonePow2(a: nat, b: nat)
    requires a <= b
    ensures Pow2(a) <= Pow2(b)
  {
    if a < b { MorePow2(a, b); }
  }

  lemma NoHighBit(m: nat, n: nat, i: nat)
    requires m < Pow2(n) && n <= i
    ensures !Bit(m, i)
  {
    MonotonePow2(n, i);
    QuotientIs(m, Pow2(i), 0, m);
  }

  /** With every cache way in the full mask, an accepted mask that is not negative enables only ways that exist. */
  lemma AcceptedIsSubset(m: int, n: nat, b: int)
    requires VerdictOn(m, Pow2(n) - 1, Some(b)) == Ok(())
    ensures m >= 0 ==> BitwiseSubset(m, Pow2(n) - 1)
  {
    if m >= 0 {
      forall i: nat | Bit(m, i) ensures Bit(Pow2(n) - 1, i) {
        if i < n { BitsOfFullMask(n, i); } else { NoHighBit(m, n, i); }
      }
    }
  }

  /** A negative mask is never refused for being too large: it passes as soon as its magnitude is a long enough
      block, however few ways there are. */
  lemma NegativeMaskPasses(m: int, c: nat, b: int)
    requires m < 0
    ensures VerdictOn(m, c, Some(b)) == Ok(()) <==>
      exists k: nat, j: nat :: Block(Magnitude(m), k, j) && k >= b
  {
    hide VerdictOn;
    AcceptsExactlyBlocks(m, c, b);
  }

  lemma ExampleIsNumeral()
    ensures Numeral("ff", 16) && Value("ff", 16) == 255
  {
    assert "ff"[..1] == "f" && "f"[..0] == "";
    assert Value("", 16) == 0 && Value("f", 16) == 15;
  }

  lemma ReadExample()
    ensures ParseInt("-ff", 16) == Some(-255)
  {
    hide ParseInt;
    hide ParseDigits;
    hide Strip;
    hide Value;
    ExampleIsNumeral();
    SignedIsStripped("ff", 16);
    NumeralParses("ff", 16);
    assert "-" + "ff" == "-ff" && "-ff"[1..] == "ff";
    NegativeParses("-ff", "ff", 255, 16);
  }

  /** For instance "-ff" where the platform has four ways. */
  lemma NegativeMaskExample()
    ensures ParseInt("-ff", 16) == Some(-255)
    ensures VerdictOn(-255, 15, Some(1)) == Ok(())
  {
    hide ParseInt;
    hide VerdictOn;
    ReadExample();
    assert Block(Magnitude(-255), 8, 0) by { assert Pow2(8) == 256 && Pow2(0) == 1; }
    NegativeMaskPasses(-255, 15, 1);
  }
}
