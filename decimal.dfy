/**
  The fixed-width decimal addresses carried inside every onion layer:
  `String(port).padStart(10, "0")` for an integer port, and the numeric
  value such a string denotes, which is the inverse that a relay would use.
 */
module Decimal {

  /** Width of the destination field inside a layer. */
  const AddressWidth: nat := 10

  /** The first port too large for the destination field: `10^AddressWidth`. */
  const AddressLimit: nat := 10_000_000_000

  function Pow10(k: nat): (r: nat)
    ensures r >= 1
    ensures k >= 1 ==> r >= 10
  {
    if k == 0 then 1 else 10 * Pow10(k - 1)
  }

  predicate IsDigit(c: char) {
    '0' <= c <= '9'
  }

  predicate AllDigits(s: string) {
    forall i :: 0 <= i < |s| ==> IsDigit(s[i])
  }

  function DigitChar(d: nat): (c: char)
    requires d < 10
    ensures IsDigit(c) && c as int - '0' as int == d
  {
    ('0' as int + d) as char
  }

  /** The decimal digits of `n`, most significant first, without leading zeros. */
  function Digits(n: nat): (s: string)
    ensures |s| >= 1 && AllDigits(s)
    ensures n > 0 ==> s[0] != '0'
    decreases n
  {
    if n < 10 then [DigitChar(n)] else Digits(n / 10) + [DigitChar(n % 10)]
  }

  /** JavaScript's `String(n)` on an integer: an optional minus sign, then the digits. */
  function NumberToString(n: int): string {
    if n < 0 then "-" + Digits(-n) else Digits(n)
  }

  /** JavaScript's `s.padStart(width, fill)` for a one-character fill string. */
  function PadStart(s: string, width: nat, fill: char): (r: string)
    ensures |r| == if |s| >= width then |s| else width
  {
    if |s| >= width then s else seq(width - |s|, _ => fill) + s
  }

  /** The padded string ends with `s`, and everything before it is `fill`. */
  lemma PadStartShape(s: string, width: nat, fill: char)
    ensures var r := PadStart(s, width, fill);
      && r[|r| - |s|..] == s
      && forall i :: 0 <= i < |r| - |s| ==> r[i] == fill
  {
  }

  /** The destination string a layer carries for `port` (src/users/user.ts:83, 94). */
  function Address(port: int): string {
    PadStart(NumberToString(port), AddressWidth, '0')
  }

  /** The number a string of decimal digits denotes (leading zeros allowed). */
  function DecimalValue(s: string): (v: nat)
    requires AllDigits(s)
  {
    if s == [] then 0
    else DecimalValue(s[..|s| - 1]) * 10 + (s[|s| - 1] as int - '0' as int)
  }

  /** Reading the digits back gives the number. */
  lemma {:induction false} DigitsValue(n: nat)
    ensures DecimalValue(Digits(n)) == n
    decreases n
  {
    if n >= 10 {
      var s := Digits(n);
      assert s[..|s| - 1] == Digits(n / 10);
      DigitsValue(n / 10);
    }
  }

  /** `n` has at most `k` digits exactly when it is below `10^k`. */
  lemma {:induction false} DigitsLength(n: nat, k: nat)
    requires k >= 1
    ensures |Digits(n)| <= k <==> n < Pow10(k)
    decreases n
  {
    if n >= 10 {
      if k == 1 {
        assert |Digits(n)| == |Digits(n / 10)| + 1;
      } else {
        DigitsLength(n / 10, k - 1);
        assert n / 10 < Pow10(k - 1) <==> n < 10 * Pow10(k - 1);
      }
    }
  }

  /** Zeros in front of a digit string do not change its value. */
  lemma {:induction false} LeadingZerosValue(z: nat, s: string)
    requires AllDigits(s)
    ensures AllDigits(seq(z, _ => '0') + s)
    ensures DecimalValue(seq(z, _ => '0') + s) == DecimalValue(s)
    decreases |s|, z
  {
    var t := seq(z, _ => '0') + s;
    if s == [] {
      if z > 0 {
        assert t[..|t| - 1] == seq(z - 1, _ => '0');
        LeadingZerosValue(z - 1, []);
        assert seq(z - 1, _ => '0') + [] == seq(z - 1, _ => '0');
      }
    } else {
      var s' := s[..|s| - 1];
      assert t[..|t| - 1] == seq(z, _ => '0') + s';
      LeadingZerosValue(z, s');
    }
  }

  /**
    For a non-negative port, the destination is all digits and denotes the port;
    it is exactly `AddressWidth` characters long precisely when the port has at
    most `AddressWidth` digits, and longer otherwise.
   */
  lemma AddressShape(port: int)
    requires port >= 0
    ensures AllDigits(Address(port)) && DecimalValue(Address(port)) == port
    ensures |Address(port)| >= AddressWidth
    ensures |Address(port)| == AddressWidth <==> port < Pow10(AddressWidth)
  {
    var s := Digits(port);
    DigitsValue(port);
    DigitsLength(port, AddressWidth);
    if |s| < AddressWidth {
      LeadingZerosValue(AddressWidth - |s|, s);
    }
  }

  /** A port of at most `AddressWidth` digits gives a destination of exactly that width. */
  lemma FixedWidthAddress(port: int)
    requires 0 <= port < AddressLimit
    ensures |Address(port)| == AddressWidth && AllDigits(Address(port))
    ensures DecimalValue(Address(port)) == port
  {
    assert Pow10(AddressWidth) == AddressLimit;
    AddressShape(port);
  }

  /** A negative port yields a destination that is not a decimal number. */
  lemma NegativeAddress(port: int)
    requires port < 0
    ensures !AllDigits(Address(port))
  {
    var s := NumberToString(port);
    var a := Address(port);
    PadStartShape(s, AddressWidth, '0');
    assert a[|a| - |s|] == '-';
  }
}
