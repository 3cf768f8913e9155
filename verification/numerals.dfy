/** Decimal text of unsigned integers: Rust's `to_string` and `str::parse` for
    the unsigned integer types (`u8`, `u16`, `u32`, `usize`). */
module Numerals {

  const U8_LIMIT: nat := 0x100
  const U16_LIMIT: nat := 0x1_0000
  const U32_LIMIT: nat := 0x1_0000_0000
  const USIZE_LIMIT: nat := 0x1_0000_0000_0000_0000

  predicate IsDigit(c: char) {
    '0' <= c <= '9'
  }

  predicate AllDigits(s: string) {
    forall i :: 0 <= i < |s| ==> IsDigit(s[i])
  }

  function DigitValue(c: char): (d: nat)
    requires IsDigit(c)
    ensures d < 10
  {
    (c as int) - ('0' as int)
  }

  function DigitChar(d: nat): (c: char)
    requires d < 10
    ensures IsDigit(c) && DigitValue(c) == d
  {
    (('0' as int) + d) as char
  }

  /** The value of `acc` followed by the digits of `s`, read left to right. */
  function Value(acc: nat, s: string): nat
    requires AllDigits(s)
    decreases s
  {
    if s == [] then acc else Value(acc * 10 + DigitValue(s[0]), s[1..])
  }

  /** `n.to_string()`: decimal digits without leading zeros. */
  function NatToString(n: nat): (r: string)
    ensures |r| > 0 && AllDigits(r)
    ensures r[0] == '0' ==> n == 0
  {
    if n < 10 then [DigitChar(n)] else NatToString(n / 10) + [DigitChar(n % 10)]
  }

  /** The outcome of parsing an unsigned integer (Rust's `IntErrorKind`,
      with `Empty` and `InvalidDigit` merged since the recipe format reports
      them alike). */
  datatype Parsed = Number(n: nat) | Invalid | Overflow

  /** The digit loop of Rust's `from_str_radix`: a character that is not a
      digit stops it with `Invalid`, a value reaching `limit` with `Overflow`,
      whichever comes first. */
  function Scan(s: string, acc: nat, limit: nat): (r: Parsed)
    requires acc < limit
    ensures r.Number? ==> r.n < limit
  {
    if s == [] then Number(acc)
    else if !IsDigit(s[0]) then Invalid
    else
      var next := acc * 10 + DigitValue(s[0]);
      if next >= limit then Overflow else Scan(s[1..], next, limit)
  }

  /** `s.parse::<T>()` for the unsigned type whose values lie below `limit`:
      an optional leading '+', then at least one digit. */
  function ParseUnsigned(s: string, limit: nat): (r: Parsed)
    requires limit > 0
    ensures r.Number? ==> r.n < limit
  {
    if s == [] then Invalid
    else if (s[0] == '+' || s[0] == '-') && |s| == 1 then Invalid
    else Scan(if s[0] == '+' then s[1..] else s, 0, limit)
  }

  lemma {:induction false} ValueAtLeast(acc: nat, s: string)
    requires AllDigits(s)
    decreases s
    ensures Value(acc, s) >= acc
  {
    if s != [] {
      ValueAtLeast(acc * 10 + DigitValue(s[0]), s[1..]);
    }
  }

  lemma {:induction false} ValueAppend(acc: nat, s: string, c: char)
    requires AllDigits(s) && IsDigit(c)
    decreases s
    ensures AllDigits(s + [c])
    ensures Value(acc, s + [c]) == Value(acc, s) * 10 + DigitValue(c)
  {
    assert AllDigits(s + [c]);
    if s == [] {
      assert s + [c] == [c];
    } else {
      assert (s + [c])[1..] == s[1..] + [c];
      ValueAppend(acc * 10 + DigitValue(s[0]), s[1..], c);
    }
  }

  /** The digits `to_string` writes have the value they were written from. */
  lemma {:induction false} ValueOfNatToString(n: nat)
    ensures Value(0, NatToString(n)) == n
  {
    if n >= 10 {
      ValueOfNatToString(n / 10);
      ValueAppend(0, NatToString(n / 10), DigitChar(n % 10));
    }
  }

  /** A run of digits whose value stays below the limit scans to that value. */
  lemma {:induction false} ScanDigits(s: string, acc: nat, limit: nat)
    requires AllDigits(s) && acc < limit && Value(acc, s) < limit
    decreases s
    ensures Scan(s, acc, limit) == Number(Value(acc, s))
  {
    if s != [] {
      var next := acc * 10 + DigitValue(s[0]);
      ValueAtLeast(next, s[1..]);
      ScanDigits(s[1..], next, limit);
    }
  }

  /** Digits whose value stays below the limit, then a character that is not
      a digit: the scan stops there with `Invalid`. */
  lemma {:induction false} ScanStops(d: string, c: char, t: string, acc: nat, limit: nat)
    requires AllDigits(d) && acc < limit && Value(acc, d) < limit && !IsDigit(c)
    decreases d
    ensures Scan(d + [c] + t, acc, limit) == Invalid
  {
    if d != [] {
      var next := acc * 10 + DigitValue(d[0]);
      ValueAtLeast(next, d[1..]);
      assert (d + [c] + t)[1..] == d[1..] + [c] + t;
      ScanStops(d[1..], c, t, next, limit);
    }
  }

  /** Digits whose value reaches the limit scan to `Overflow`. */
  lemma {:induction false} ScanOverflow(s: string, acc: nat, limit: nat)
    requires AllDigits(s) && acc < limit && Value(acc, s) >= limit
    decreases s
    ensures Scan(s, acc, limit) == Overflow
  {
    var next := acc * 10 + DigitValue(s[0]);
    if next < limit {
      ScanOverflow(s[1..], next, limit);
    }
  }

  /** Leading zeros do not change the value of a digit string. */
  lemma {:induction false} ValueLeadingZeros(zeros: string, s: string)
    requires AllDigits(s) && forall i :: 0 <= i < |zeros| ==> zeros[i] == '0'
    decreases zeros
    ensures AllDigits(zeros + s) && Value(0, zeros + s) == Value(0, s)
  {
    assert AllDigits(zeros + s) by {
      forall i | 0 <= i < |zeros + s|
        ensures IsDigit((zeros + s)[i])
      {
        if i >= |zeros| {
          assert (zeros + s)[i] == s[i - |zeros|];
        }
      }
    }
    if zeros != [] {
      assert (zeros + s)[1..] == zeros[1..] + s;
      assert DigitValue((zeros + s)[0]) == 0;
      ValueLeadingZeros(zeros[1..], s);
      assert Value(0, zeros + s) == Value(0, zeros[1..] + s);
    } else {
      assert zeros + s == s;
    }
  }

  /** `n.to_string().parse()` gives `n` back for every value of the type. */
  lemma ParseNatToString(n: nat, limit: nat)
    requires n < limit
    ensures ParseUnsigned(NatToString(n), limit) == Number(n)
  {
    ValueOfNatToString(n);
    ScanDigits(NatToString(n), 0, limit);
  }

  /** `to_string` never writes the same text for two different values. */
  lemma NatToStringInjective(m: nat, n: nat)
    requires NatToString(m) == NatToString(n)
    ensures m == n
  {
    ValueOfNatToString(m);
    ValueOfNatToString(n);
  }

  /** A number written in front of a non-digit does not parse: what the
      quantity parser relies on when it tries one form after another. */
  lemma ParseStopsAtNonDigit(n: nat, c: char, t: string, limit: nat)
    requires n < limit && !IsDigit(c)
    ensures ParseUnsigned(NatToString(n) + [c] + t, limit) == Invalid
  {
    var s := NatToString(n);
    ValueOfNatToString(n);
    assert (s + [c] + t)[0] == s[0];
    ScanStops(s, c, t, 0, limit);
  }

  /** A part that holds a non-digit (other than a leading '+') before its
      digits reach the limit is not a number: `InvalidDigit`, not
      `PosOverflow`, whatever follows. */
  lemma ParseInvalidDigit(d: string, c: char, t: string, limit: nat)
    requires limit > 0 && AllDigits(d) && Value(0, d) < limit && !IsDigit(c) && c != '+'
    ensures ParseUnsigned(d + [c] + t, limit) == Invalid
  {
    var s := d + [c] + t;
    if d == [] {
      assert s == [c] + t;
    } else {
      assert s[0] == d[0];
    }
    ScanStops(d, c, t, 0, limit);
  }

  /** A number that does not fit the type fails with `Overflow`. */
  lemma ParseTooLarge(n: nat, limit: nat)
    requires 0 < limit <= n
    ensures ParseUnsigned(NatToString(n), limit) == Overflow
  {
    ValueOfNatToString(n);
    ScanOverflow(NatToString(n), 0, limit);
  }

  /** Zeros written in front of a number are ignored: `"05".parse()` is 5. */
  lemma ParseLeadingZeros(zeros: string, n: nat, limit: nat)
    requires n < limit && forall i :: 0 <= i < |zeros| ==> zeros[i] == '0'
    ensures ParseUnsigned(zeros + NatToString(n), limit) == Number(n)
  {
    var s := zeros + NatToString(n);
    ValueOfNatToString(n);
    ValueLeadingZeros(zeros, NatToString(n));
    assert s[0] != '+' && s[0] != '-' by {
      if zeros == [] {
        assert s[0] == NatToString(n)[0];
      } else {
        assert s[0] == zeros[0];
      }
    }
    ScanDigits(s, 0, limit);
  }
}
