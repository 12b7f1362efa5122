/** What `s.lstrip(' 0')` does to a text that `int` reads: blanks and zeros before a number may go, but a sign, an
    underscore or the "x" of a prefix then comes first. */
module LeadingZeros {
  import opened Dicts
  import opened Text

  // ----- Stripping on the right -----

  lemma {:induction false} RStripOfMore(c: char, s: string)
    ensures RStrip([c] + s, IsSpace) ==
      if RStrip(s, IsSpace) != "" then [c] + RStrip(s, IsSpace) else RStrip([c], IsSpace)
  {
    if s != "" {
      var t := [c] + s;
      assert t[|t| - 1] == s[|s| - 1] && t[..|t| - 1] == [c] + s[..|s| - 1];
      if IsSpace(s[|s| - 1]) {
        RStripOfMore(c, s[..|s| - 1]);
      }
    } else {
      assert [c] + s == [c];
    }
  }

  lemma RStripOfOne(c: char)
    ensures RStrip([c], IsSpace) == if IsSpace(c) then "" else [c]
  {
    assert [c][..0] == "";
  }

  /** A text of spaces only has nothing left on either side. */
  lemma {:induction false} NothingButSpaces(s: string)
    requires RStrip(s, IsSpace) == ""
    ensures LStrip(s, IsSpace) == ""
  {
    if s != "" {
      RStripOfMore(s[0], s[1..]);
      RStripOfOne(s[0]);
      assert [s[0]] + s[1..] == s;
      NothingButSpaces(s[1..]);
    }
  }

  // ----- Digits -----

  /** Digits end and start with a digit, and hold nothing but digits and underscores. */
  lemma {:induction false} ParsedAreDigits(t: string, base: nat)
    requires ParseDigits(t, base).Some?
    ensures t != "" && IsDigit(t[0], base)
    ensures forall i :: 0 <= i < |t| ==> IsDigit(t[i], base) || t[i] == '_'
    decreases |t|
  {
    var rest := t[..|t| - 1];
    if rest != "" {
      var before := if rest[|rest| - 1] == '_' then rest[..|rest| - 1] else rest;
      ParsedAreDigits(before, base);
      assert forall i :: 0 <= i < |before| ==> before[i] == t[i];
    }
  }

  lemma {:induction false} ZeroBeforeDigits(t: string, base: nat)
    requires base > 0 && t != "" && t[0] != '_' && ParseDigits("0" + t, base).Some?
    ensures ParseDigits(t, base) == ParseDigits("0" + t, base)
    decreases |t|
  {
    var s, rest := "0" + t, t[..|t| - 1];
    assert s[|s| - 1] == t[|t| - 1] && s[..|s| - 1] == "0" + rest;
    if rest == "" {
      ZeroIsADigit(base);
      assert "0" + rest == "0";
    } else if rest[|rest| - 1] == '_' {
      var before := rest[..|rest| - 1];
      assert ("0" + rest)[..|rest|] == "0" + before;
      ZeroBeforeDigits(before, base);
    } else {
      ZeroBeforeDigits(rest, base);
    }
  }

  lemma ZeroIsADigit(base: nat)
    requires base > 0
    ensures ParseDigits("0", base) == Some(0)
  {
    assert "0"[..0] == "";
  }

  // ----- A zero in front -----

  /** With a zero in front there is no sign and no space on the left. */
  lemma ReadWithZero(s: string, base: nat)
    ensures ParseInt("0" + s, base) ==
      match ParseDigits(Unprefixed("0" + RStrip(s, IsSpace), base), base)
      case None => None
      case Some(n) => Some(n)
  {
    hide ParseDigits;
    hide Unprefixed;
    RStripOfMore('0', s);
    RStripOfOne('0');
    assert ['0'] + s == "0" + s;
    if RStrip(s, IsSpace) == "" {
      assert "0" + RStrip(s, IsSpace) == "0";
    }
  }

  predicate IsX(s: string) { s != "" && (s[0] == 'x' || s[0] == 'X') }

  /** Without an "x" behind it, the zero belongs to the digits. */
  lemma ReadZeroAndDigits(s: string, base: nat)
    requires ParseInt("0" + s, base).Some? && (base == 16 ==> !IsX(RStrip(s, IsSpace)))
    ensures ParseDigits("0" + RStrip(s, IsSpace), base).Some?
    ensures ParseInt("0" + s, base).value == ParseDigits("0" + RStrip(s, IsSpace), base).value
  {
    hide ParseDigits;
    hide ParseInt;
    ReadWithZero(s, base);
  }

  lemma ZerosRead(s: string, base: nat)
    requires base > 0 && ParseInt("0" + ("0" + s), base).Some?
    ensures ParseInt("0" + s, base) == ParseInt("0" + ("0" + s), base)
  {
    hide ParseDigits;
    hide ParseInt;
    var r := RStrip(s, IsSpace);
    RStripOfMore('0', s);
    RStripOfOne('0');
    assert ['0'] + s == "0" + s && RStrip("0" + s, IsSpace) == "0" + r;
    ReadZeroAndDigits("0" + s, base);
    ParsedAreDigits("0" + ("0" + r), base);
    assert !IsX(r) by {
      if r != "" { assert ("0" + ("0" + r))[2] == r[0]; }
    }
    ZeroBeforeDigits("0" + r, base);
    ReadWithZero(s, base);
  }

  lemma BlankAfterZero(s: string, base: nat)
    requires ParseInt("0" + (" " + s), base).Some?
    ensures ParseInt("0" + s, base) == ParseInt("0" + (" " + s), base)
  {
    hide ParseDigits;
    hide ParseInt;
    var r := RStrip(s, IsSpace);
    RStripOfMore(' ', s);
    RStripOfOne(' ');
    assert [' '] + s == " " + s;
    if r != "" {
      assert ("0" + (" " + r))[1] == ' ';
      ReadZeroAndDigits(" " + s, base);
      ParsedAreDigits("0" + (" " + r), base);
      assert false;
    } else {
      ReadWithZero(s, base);
      ReadWithZero(" " + s, base);
    }
  }

  /** Once there is a zero, all further blanks and zeros may go. */
  lemma {:induction false} ReadAfterZero(s: string, base: nat)
    requires base > 0 && ParseInt("0" + s, base).Some?
    ensures ParseInt("0" + s, base) == ParseInt("0" + Significant(s), base)
  {
    hide ParseInt;
    if s != "" && IsZeroOrSpace(s[0]) {
      if s[0] == '0' {
        assert s == "0" + s[1..];
        ZerosRead(s[1..], base);
      } else {
        assert s == " " + s[1..];
        BlankAfterZero(s[1..], base);
      }
      ReadAfterZero(s[1..], base);
    }
  }

  // ----- Stripping blanks and zeros -----

  lemma BlankRead(s: string, base: nat)
    ensures ParseInt(" " + s, base) == ParseInt(s, base)
  {
    hide ParseDigits;
    hide Unprefixed;
    assert Strip(" " + s) == Strip(s) by {
      assert (" " + s)[1..] == s && (" " + s)[0] == ' ';
    }
  }

  /** A text reads like its significant part, with a zero in front if one was stripped. */
  lemma {:induction false} ReadsLikeSignificant(s: string, base: nat)
    requires base > 0 && ParseInt(s, base).Some?
    ensures ParseInt(s, base) == ParseInt(Significant(s), base) || ParseInt(s, base) == ParseInt("0" + Significant(s), base)
  {
    hide ParseInt;
    if s != "" && IsZeroOrSpace(s[0]) {
      if s[0] == ' ' {
        assert s == " " + s[1..];
        BlankRead(s[1..], base);
        ReadsLikeSignificant(s[1..], base);
      } else {
        assert s == "0" + s[1..];
        ReadAfterZero(s[1..], base);
      }
    }
  }

  lemma ReadUnsigned(s: string, r: string, base: nat)
    requires r == RStrip(s, IsSpace) && s != "" && r != "" && r[0] == s[0]
    requires !IsSpace(s[0]) && s[0] != '0' && s[0] != '+' && s[0] != '-'
    ensures ParseInt(s, base).Some? ==> ParseDigits(r, base).Some? && ParseInt(s, base).value == ParseDigits(r, base).value
  {
    hide ParseDigits;
    assert Strip(s) == r && Unprefixed(r, base) == r;
  }

  /** What stands behind a zero is a digit, an underscore or the "x" of a prefix. */
  lemma BehindZero(s: string, r: string, base: nat)
    requires r == RStrip(s, IsSpace) && r != "" && ParseInt("0" + s, base).Some?
    ensures IsDigit(r[0], base) || r[0] == '_' || IsX(r)
  {
    hide ParseDigits;
    hide ParseInt;
    if !IsX(r) {
      ReadZeroAndDigits(s, base);
      ParsedAreDigits("0" + r, base);
      assert ("0" + r)[1] == r[0];
    }
  }

  /** Where a text can be read with and without a zero in front, it is the same number. */
  lemma ZeroMakesNoDifference(s: string, base: nat)
    requires base > 0 && (s != "" ==> !IsZeroOrSpace(s[0]))
    requires ParseInt(s, base).Some? && ParseInt("0" + s, base).Some?
    ensures ParseInt(s, base) == ParseInt("0" + s, base)
  {
    hide ParseDigits;
    hide ParseInt;
    var r := RStrip(s, IsSpace);
    RStripped(s, IsSpace);
    if r == "" {
      NothingRead(s, base);
    } else {
      assert r[0] == s[0];
      BehindZero(s, r, base);
      ReadUnsigned(s, r, base);
      ParsedAreDigits(r, base);
      ReadZeroAndDigits(s, base);
      ZeroBeforeDigits(r, base);
    }
  }

  lemma NothingRead(s: string, base: nat)
    requires RStrip(s, IsSpace) == ""
    ensures ParseInt(s, base).None?
  {
    NothingButSpaces(s);
    assert Strip(s) == "" && Unprefixed("", base) == "" && ParseDigits("", base).None?;
  }

  // ----- Numbers and significant parts -----

  /** The first `k` characters are blanks and zeros, and the next one, if any, is neither. */
  ghost predicate Leads(s: string, k: nat) {
    && k <= |s|
    && (forall i :: 0 <= i < k ==> s[i] == ' ' || s[i] == '0')
    && (k < |s| ==> s[k] != ' ' && s[k] != '0')
  }

  /** The significant part is what is left without leading blanks and zeros. */
  lemma {:induction false} SignificantIs(s: string) returns (k: nat)
    ensures Leads(s, k) && Significant(s) == s[k..]
  {
    if s != "" && (s[0] == ' ' || s[0] == '0') {
      k := SignificantIs(s[1..]);
      assert forall i :: 0 < i < |s| ==> s[i] == s[1..][i - 1];
      assert s[1..][k..] == s[k + 1..];
      k := k + 1;
    } else {
      k := 0;
    }
  }

  /** Nothing but digits, none of them an upper-case letter. */
  predicate Plain(s: string, base: nat) { LowerCase(s) && forall i :: 0 <= i < |s| ==> IsDigit(s[i], base) }

  lemma SignificantStarts(s: string)
    ensures Significant(s) != "" ==> !IsZeroOrSpace(Significant(s)[0])
  {
    LStripStarts(s, IsZeroOrSpace);
  }

  /** Two texts that are read and have the same significant part are the same number, whatever the part is. */
  lemma SameSignificantSameNumber(a: string, b: string, base: nat)
    requires base > 0 && ParseInt(a, base).Some? && ParseInt(b, base).Some? && Significant(a) == Significant(b)
    ensures ParseInt(a, base) == ParseInt(b, base)
  {
    hide ParseInt;
    hide Significant;
    ReadsLikeSignificant(a, base);
    ReadsLikeSignificant(b, base);
    SignificantStarts(a);
    if ParseInt(Significant(a), base).Some? && ParseInt("0" + Significant(a), base).Some? {
      ZeroMakesNoDifference(Significant(a), base);
    }
  }

  /** Python reads a plain numeral as the number it denotes. */
  lemma NumeralReads(s: string, base: nat)
    requires Numeral(s, base)
    ensures ParseInt(s, base) == Some(Value(s, base))
  {
    hide ParseDigits;
    hide Strip;
    NumeralIsStripped(s, base);
    NumeralParses(s, base);
    if |s| >= 2 {
      assert IsDigit(s[1], base);
    }
  }

  /** A plain significant part denotes the number that is read. */
  lemma PlainSignificantValue(s: string, base: nat)
    requires base > 0 && ParseInt(s, base).Some? && Plain(Significant(s), base)
    ensures ParseInt(s, base) == Some(Value(Significant(s), base))
  {
    hide ParseInt;
    hide Significant;
    hide Value;
    var x := Significant(s);
    ReadsLikeSignificant(s, base);
    if x != "" {
      NumeralReads(x, base);
    } else {
      NothingRead("", base);
    }
    ZeroNumeral(x, base);
    NumeralReads("0" + x, base);
  }

  lemma ZeroNumeral(x: string, base: nat)
    requires base > 0 && forall i :: 0 <= i < |x| ==> IsDigit(x[i], base)
    ensures Numeral("0" + x, base) && Value("0" + x, base) == Value(x, base)
  {
    hide Value;
    var s := "0" + x;
    forall i | 0 <= i < |s| ensures IsDigit(s[i], base) {
      assert i > 0 ==> s[i] == x[i - 1];
    }
    ZerosAddNothing(s, base);
    assert s[1..] == x;
  }

  /** Of two texts of one number, with one significant part plain, the parts are the same exactly when the other one is
      plain too. */
  lemma SameSignificantIff(a: string, b: string, base: nat)
    requires base > 0 && ParseInt(a, base).Some? && ParseInt(a, base) == ParseInt(b, base) && Plain(Significant(a), base)
    ensures Significant(a) == Significant(b) <==> Plain(Significant(b), base)
  {
    hide ParseInt;
    hide Significant;
    hide Value;
    if Plain(Significant(b), base) {
      PlainSignificantValue(a, base);
      PlainSignificantValue(b, base);
      SignificantStarts(a);
      SignificantStarts(b);
      SameValueSameText(Significant(a), Significant(b), base);
    }
  }
}
