/** Rust's `from_str_radix` / `FromStr` for unsigned integers, on which the
    config's `vid`/`pid` parsing and hwmon's `tempN` id parsing rest. */
module IntParse {
  import opened Wrappers
  import opened Text

  /** `core::num::IntErrorKind`, the cases an unsigned parse can produce. */
  datatype IntErrorKind = Empty | InvalidDigit | PosOverflow

  /** `char::to_digit(radix)` */
  function ToDigit(c: char, radix: nat): (d: Option<nat>)
    requires 2 <= radix <= 36
    ensures d.Some? ==> d.value < radix
  {
    var v :=
      if '0' <= c <= '9' then c as int - '0' as int
      else if 'a' <= c <= 'z' then c as int - 'a' as int + 10
      else if 'A' <= c <= 'Z' then c as int - 'A' as int + 10
      else 36;
    if v < radix then Some(v) else None
  }

  /** The digit loop: each digit is checked, then `acc * radix + digit` must stay
      below `limit` (checked_mul and checked_add both report PosOverflow). */
  function ParseDigits(digits: string, radix: nat, limit: nat, acc: nat): (r: Result<nat, IntErrorKind>)
    requires 2 <= radix <= 36
    requires acc < limit
    ensures r.Success? ==> r.value < limit
    ensures r != Failure(Empty)
    decreases |digits|
  {
    if digits == [] then Success(acc)
    else
      match ToDigit(digits[0], radix)
      case None => Failure(InvalidDigit)
      case Some(d) =>
        if acc * radix + d >= limit then Failure(PosOverflow)
        else ParseDigits(digits[1..], radix, limit, acc * radix + d)
  }

  /** `uN::from_str_radix(s, radix)` where `limit` is 2^N: an empty string is
      Empty, a lone sign is InvalidDigit, one leading '+' is skipped, and a
      '-' is an invalid digit for an unsigned type. */
  function FromStrRadix(s: string, radix: nat, limit: nat): (r: Result<nat, IntErrorKind>)
    requires 2 <= radix <= 36 && limit >= 1
    ensures r.Success? ==> r.value < limit
    ensures s == [] <==> r == Failure(Empty)
  {
    if s == [] then Failure(Empty)
    else if (s[0] == '+' || s[0] == '-') && |s| == 1 then Failure(InvalidDigit)
    else if s[0] == '+' then ParseDigits(s[1..], radix, limit, 0)
    else ParseDigits(s, radix, limit, 0)
  }

  /** The value of a digit, 0 for a character that is not one. */
  function DigitOrZero(c: char, radix: nat): (d: nat)
    requires 2 <= radix <= 36
    ensures d < radix
  {
    match ToDigit(c, radix)
    case Some(d) => d
    case None => 0
  }

  /** Every character of `digits` is a base-`radix` digit. */
  predicate AllDigits(digits: string, radix: nat)
    requires 2 <= radix <= 36
  {
    forall i :: 0 <= i < |digits| ==> ToDigit(digits[i], radix).Some?
  }

  /** The positional value of `digits` in base `radix` read after the value
      `acc`, with no digit check and no bound. */
  function DigitsValue(digits: string, radix: nat, acc: nat): nat
    requires 2 <= radix <= 36
    decreases |digits|
  {
    if digits == [] then acc
    else DigitsValue(digits[1..], radix, acc * radix + DigitOrZero(digits[0], radix))
  }

  /** The characters `from_str_radix` reads as digits: `s` without one
      leading '+'. */
  function Unsigned(s: string): string
  {
    if s != [] && s[0] == '+' then s[1..] else s
  }

  /** Reading more digits never lowers the value. */
  lemma {:induction false} DigitsValueAtLeast(digits: string, radix: nat, acc: nat)
    requires 2 <= radix <= 36
    ensures DigitsValue(digits, radix, acc) >= acc
    decreases |digits|
  {
    if digits != [] {
      var next := acc * radix + DigitOrZero(digits[0], radix);
      ScaleAtLeast(acc, radix);
      DigitsValueAtLeast(digits[1..], radix, next);
      assert DigitsValue(digits, radix, acc) == DigitsValue(digits[1..], radix, next);
    }
  }

  lemma ScaleAtLeast(acc: nat, radix: nat)
    requires radix >= 1
    ensures acc * radix >= acc
  {
    assert acc * radix == acc + acc * (radix - 1);
  }

  /** The last digit is the least significant one. */
  lemma {:induction false} DigitsValueSnoc(digits: string, c: char, radix: nat, acc: nat)
    requires 2 <= radix <= 36
    ensures DigitsValue(digits + [c], radix, acc) == DigitsValue(digits, radix, acc) * radix + DigitOrZero(c, radix)
    decreases |digits|
  {
    if digits == [] {
      assert ([] + [c])[1..] == [];
    } else {
      assert (digits + [c])[0] == digits[0];
      assert (digits + [c])[1..] == digits[1..] + [c];
      DigitsValueSnoc(digits[1..], c, radix, acc * radix + DigitOrZero(digits[0], radix));
    }
  }

  lemma AllDigitsCons(digits: string, radix: nat)
    requires 2 <= radix <= 36 && digits != []
    ensures AllDigits(digits, radix) <==> ToDigit(digits[0], radix).Some? && AllDigits(digits[1..], radix)
  {
    var rest := digits[1..];
    if ToDigit(digits[0], radix).Some? && AllDigits(rest, radix) {
      forall i | 0 <= i < |digits|
        ensures ToDigit(digits[i], radix).Some?
      {
        if i > 0 {
          assert digits[i] == rest[i - 1];
        }
      }
    }
  }

  /** The digit loop succeeds exactly when every character is a digit and the
      positional value stays below `limit`, and then returns that value; with
      only digits but too large a value it reports PosOverflow. */
  lemma {:induction false} ParseDigitsValue(digits: string, radix: nat, limit: nat, acc: nat)
    requires 2 <= radix <= 36 && acc < limit
    ensures ParseDigits(digits, radix, limit, acc).Success?
      <==> AllDigits(digits, radix) && DigitsValue(digits, radix, acc) < limit
    ensures ParseDigits(digits, radix, limit, acc).Success? ==>
      ParseDigits(digits, radix, limit, acc).value == DigitsValue(digits, radix, acc)
    ensures AllDigits(digits, radix) && DigitsValue(digits, radix, acc) >= limit ==>
      ParseDigits(digits, radix, limit, acc) == Failure(PosOverflow)
    decreases |digits|
  {
    if digits != [] {
      var rest := digits[1..];
      AllDigitsCons(digits, radix);
      match ToDigit(digits[0], radix)
      case None =>
      case Some(d) =>
        var next := acc * radix + d;
        if next >= limit {
          DigitsValueAtLeast(rest, radix, next);
        } else {
          ParseDigitsValue(rest, radix, limit, next);
        }
    }
  }

  /** `from_str_radix` succeeds exactly when at least one character follows
      the optional '+', all of them are digits and their value is below
      `limit`; it then returns that value, and it reports PosOverflow when
      only the bound fails. */
  lemma FromStrRadixValue(s: string, radix: nat, limit: nat)
    requires 2 <= radix <= 36 && limit >= 1
    ensures FromStrRadix(s, radix, limit).Success? <==>
      Unsigned(s) != [] && AllDigits(Unsigned(s), radix) && DigitsValue(Unsigned(s), radix, 0) < limit
    ensures FromStrRadix(s, radix, limit).Success? ==>
      FromStrRadix(s, radix, limit).value == DigitsValue(Unsigned(s), radix, 0)
    ensures Unsigned(s) != [] && AllDigits(Unsigned(s), radix) && DigitsValue(Unsigned(s), radix, 0) >= limit ==>
      FromStrRadix(s, radix, limit) == Failure(PosOverflow)
  {
    if s != [] && !((s[0] == '+' || s[0] == '-') && |s| == 1) {
      ParseDigitsValue(Unsigned(s), radix, limit, 0);
    } else if s != [] && s[0] == '-' {
      assert ToDigit(Unsigned(s)[0], radix).None?;
    }
  }

  /** The decimal text of `n` is all digits, and its positional value is `n`. */
  lemma {:induction false} DecimalValue(n: nat)
    ensures AllDigits(Decimal(n), 10)
    ensures DigitsValue(Decimal(n), 10, 0) == n
  {
    if n < 10 {
      DecimalDigitValue(n);
      assert Decimal(n)[1..] == [];
    } else {
      DecimalValue(n / 10);
      DecimalDigitValue(n % 10);
      DigitsValueSnoc(Decimal(n / 10), DecimalDigit(n % 10), 10, 0);
      var s := Decimal(n);
      forall i | 0 <= i < |s|
        ensures ToDigit(s[i], 10).Some?
      {
        if i < |s| - 1 {
          assert s[i] == Decimal(n / 10)[i];
        }
      }
    }
  }

  /** One more digit at the end continues the loop from where the prefix left it. */
  lemma {:induction false} ParseDigitsSnoc(s: string, c: char, radix: nat, limit: nat, acc: nat)
    requires 2 <= radix <= 36 && acc < limit
    ensures ParseDigits(s + [c], radix, limit, acc) ==
      match ParseDigits(s, radix, limit, acc)
      case Failure(e) => Failure(e)
      case Success(a) => ParseDigits([c], radix, limit, a)
    decreases |s|
  {
    if s != [] {
      assert (s + [c])[0] == s[0];
      assert (s + [c])[1..] == s[1..] + [c];
      match ToDigit(s[0], radix)
      case None =>
      case Some(d) =>
        if acc * radix + d < limit {
          ParseDigitsSnoc(s[1..], c, radix, limit, acc * radix + d);
        }
    } else {
      assert s + [c] == [c];
    }
  }

  lemma DecimalDigitValue(d: nat)
    requires d < 10
    ensures ToDigit(DecimalDigit(d), 10) == Some(d)
  {
  }

  /** Formatting a number in decimal and parsing it back gives the number. */
  lemma {:induction false} DecimalRoundTrip(n: nat, limit: nat)
    requires n < limit
    ensures ParseDigits(Decimal(n), 10, limit, 0) == Success(n)
    ensures FromStrRadix(Decimal(n), 10, limit) == Success(n)
  {
    if n < 10 {
      DecimalDigitValue(n);
      assert Decimal(n)[1..] == [];
    } else {
      DecimalRoundTrip(n / 10, limit);
      DecimalDigitValue(n % 10);
      ParseDigitsSnoc(Decimal(n / 10), DecimalDigit(n % 10), 10, limit, 0);
      assert [DecimalDigit(n % 10)][1..] == [];
    }
  }

  lemma HexDigitValue(d: nat)
    requires d < 16
    ensures ToDigit(HexDigitLower(d), 16) == Some(d)
  {
  }

  /** One step of the digit loop on a valid digit that does not overflow. */
  lemma DigitStep(s: string, radix: nat, limit: nat, acc: nat, d: nat)
    requires 2 <= radix <= 36 && acc < limit
    requires s != [] && ToDigit(s[0], radix) == Some(d) && acc * radix + d < limit
    ensures ParseDigits(s, radix, limit, acc) == ParseDigits(s[1..], radix, limit, acc * radix + d)
  {
  }

  lemma HexPlaces(v: nat)
    requires v < 0x1_0000
    ensures (v / 0x1000) * 16 + (v / 0x100) % 16 == v / 0x100
    ensures (v / 0x100) * 16 + (v / 0x10) % 16 == v / 0x10
    ensures (v / 0x10) * 16 + v % 16 == v
  {
  }

  /** Four base-16 digits parse to their positional value `n`, whose
      leading one, two and three digits are worth `d3`, `a2` and `a3`. */
  lemma ParseFourHexDigits(h: string, d3: nat, d2: nat, d1: nat, d0: nat, a2: nat, a3: nat, n: nat)
    requires |h| == 4 && d3 < 16 && d2 < 16 && d1 < 16 && d0 < 16
    requires ToDigit(h[0], 16) == Some(d3) && ToDigit(h[1], 16) == Some(d2)
    requires ToDigit(h[2], 16) == Some(d1) && ToDigit(h[3], 16) == Some(d0)
    requires d3 * 16 + d2 == a2 && a2 * 16 + d1 == a3 && a3 * 16 + d0 == n
    ensures ParseDigits(h, 16, 0x1_0000, 0) == Success(n)
  {
    assert a2 < 0x100 && a3 < 0x1000 && n < 0x1_0000;
    DigitStep(h, 16, 0x1_0000, 0, d3);
    DigitStep(h[1..], 16, 0x1_0000, d3, d2);
    DigitStep(h[2..], 16, 0x1_0000, a2, d1);
    DigitStep(h[3..], 16, 0x1_0000, a3, d0);
    assert h[1..][1..] == h[2..] && h[2..][1..] == h[3..] && h[3..][1..] == [];
  }

  lemma Hex06Shape(v: nat)
    requires v < 0x1_0000
    ensures Hex06(v)[2..] == [HexDigitLower(v / 0x1000), HexDigitLower((v / 0x100) % 16),
                              HexDigitLower((v / 0x10) % 16), HexDigitLower(v % 16)]
  {
  }

  /** The six characters of `{:#06x}` from its four digits. */
  lemma Hex06Text(v: nat, c3: char, c2: char, c1: char, c0: char)
    requires v < 0x1_0000
    requires HexDigitLower(v / 0x1000) == c3 && HexDigitLower((v / 0x100) % 16) == c2
    requires HexDigitLower((v / 0x10) % 16) == c1 && HexDigitLower(v % 16) == c0
    ensures Hex06(v) == ['0', 'x', c3, c2, c1, c0]
  {
  }

  /** `{:#06x}` of a u16 read back as base-16 digits gives the value. */
  lemma Hex06Digits(v: nat)
    requires v < 0x1_0000
    ensures ParseDigits(Hex06(v)[2..], 16, 0x1_0000, 0) == Success(v)
  {
    HexPlaces(v);
    var h := Hex06(v)[2..];
    var d3, d2, d1, d0 := v / 0x1000, (v / 0x100) % 16, (v / 0x10) % 16, v % 16;
    Hex06Shape(v);
    HexDigitValue(d3);
    HexDigitValue(d2);
    HexDigitValue(d1);
    HexDigitValue(d0);
    ParseFourHexDigits(h, d3, d2, d1, d0, v / 0x100, v / 0x10, v);
  }
}
