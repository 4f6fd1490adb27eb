/** Exact comparison of decimal spellings, without ever forming the number. */
module Decimals {
  import opened Common

  type Digit = d: nat | d < 10

  /** The groups of the decimal grammar: sign, digits before and after the point, exponent. */
  datatype Spelling = Spelling(negative: bool, whole: seq<Digit>, fraction: seq<Digit>, exponent: int)

  // ---- What a spelling denotes -------------------------------------------------------

  function Nat(digits: seq<Digit>): nat {
    if digits == [] then 0 else Nat(digits[..|digits| - 1]) * 10 + digits[|digits| - 1]
  }

  function Ten(e: int): real
    decreases if e < 0 then -e else e
  {
    if e == 0 then 1.0 else if e > 0 then 10.0 * Ten(e - 1) else Ten(e + 1) / 10.0
  }

  /** `n` times ten to the power `e`. */
  function Scaled(n: nat, e: int): real
    decreases n
  {
    if n == 0 then 0.0 else Scaled(n - 1, e) + Ten(e)
  }

  function Value(s: Spelling): real {
    var magnitude := Scaled(Nat(s.whole + s.fraction), s.exponent - |s.fraction|);
    if s.negative then -magnitude else magnitude
  }

  function Sign(x: real): int {
    if x < 0.0 then -1 else if x > 0.0 then 1 else 0
  }

  function Order(m: int, n: int): int {
    if m < n then -1 else if m > n then 1 else 0
  }

  // ---- The comparison ------------------------------------------------------------------

  datatype Parts = Parts(digits: seq<Digit>, order: int, sign: int)

  function Stripped(digits: seq<Digit>): seq<Digit> {
    if digits != [] && digits[0] == 0 then Stripped(digits[1..]) else digits
  }

  function PartsOf(s: Spelling): Parts {
    var significant := Stripped(s.whole + s.fraction);
    var digits := if significant == [] then [0] else significant;
    Parts(digits, |digits| + s.exponent - |s.fraction|,
          if digits == [0] then 0 else if s.negative then -1 else 1)
  }

  function Padded(digits: seq<Digit>, length: nat): seq<Digit>
    requires |digits| <= length
  {
    digits + seq(length - |digits|, _ => 0)
  }

  /** String order of two digit strings of one length. */
  function Lexical(a: seq<Digit>, b: seq<Digit>): int
    requires |a| == |b|
  {
    if a == [] then 0 else if a[0] < b[0] then -1 else if a[0] > b[0] then 1 else Lexical(a[1..], b[1..])
  }

  function CompareParts(a: Parts, b: Parts): int {
    if a.sign != b.sign then (if a.sign < b.sign then -1 else 1)
    else if a.sign == 0 then 0
    else if a.order != b.order then (if a.order < b.order then -1 else 1) * a.sign
    else
      var length := if |a.digits| < |b.digits| then |b.digits| else |a.digits|;
      Lexical(Padded(a.digits, length), Padded(b.digits, length)) * a.sign
  }

  function CompareDecimal(left: Spelling, right: Spelling): int {
    CompareParts(PartsOf(left), PartsOf(right))
  }

  // ---- Powers of ten ---------------------------------------------------------------------

  lemma {:induction false} TenPositive(e: int)
    ensures Ten(e) > 0.0
    decreases if e < 0 then -e else e
  {
    if e > 0 { TenPositive(e - 1); } else if e < 0 { TenPositive(e + 1); }
  }

  lemma {:induction false} TenMonotone(a: int, b: int)
    requires a <= b
    ensures Ten(a) <= Ten(b)
    decreases b - a
  {
    if a < b {
      TenMonotone(a, b - 1);
      TenPositive(b - 1);
      assert Ten(b) == 10.0 * Ten(b - 1);
    }
  }

  lemma {:induction false} ScaledIsProduct(n: nat, e: int)
    ensures Scaled(n, e) == n as real * Ten(e)
    decreases n
  {
    if n > 0 {
      ScaledIsProduct(n - 1, e);
      assert n as real == (n - 1) as real + 1.0;
    }
  }

  lemma {:induction false} ScaledShift(n: nat, e: int)
    ensures Scaled(10 * n, e) == Scaled(n, e + 1)
    decreases n
  {
    if n > 0 {
      ScaledShift(n - 1, e);
      var m := 10 * (n - 1);
      assert Scaled(m + 2, e) == Scaled(m, e) + 2.0 * Ten(e);
      assert Scaled(m + 4, e) == Scaled(m + 2, e) + 2.0 * Ten(e);
      assert Scaled(m + 6, e) == Scaled(m + 4, e) + 2.0 * Ten(e);
      assert Scaled(m + 8, e) == Scaled(m + 6, e) + 2.0 * Ten(e);
      assert Scaled(m + 10, e) == Scaled(m + 8, e) + 2.0 * Ten(e);
      assert Ten(e + 1) == 10.0 * Ten(e);
    }
  }

  lemma {:induction false} ScaledMonotone(a: nat, b: nat, e: int)
    ensures a < b ==> Scaled(a, e) < Scaled(b, e)
    ensures a <= b ==> Scaled(a, e) <= Scaled(b, e)
    decreases b
  {
    if a < b {
      ScaledMonotone(a, b - 1, e);
      TenPositive(e);
    }
  }

  // ---- Digit strings -----------------------------------------------------------------------

  function Pow(k: nat): nat {
    if k == 0 then 1 else 10 * Pow(k - 1)
  }

  lemma {:induction false} ScaledPow(k: nat, e: int)
    ensures Scaled(Pow(k), e) == Ten(e + k)
    decreases k
  {
    if k == 0 {
      assert Scaled(1, e) == Scaled(0, e) + Ten(e);
    } else {
      ScaledShift(Pow(k - 1), e);
      ScaledPow(k - 1, e + 1);
    }
  }

  lemma {:induction false} NatBound(digits: seq<Digit>)
    ensures Nat(digits) < Pow(|digits|)
    ensures digits != [] && digits[0] != 0 ==> Pow(|digits| - 1) <= Nat(digits)
  {
    if digits != [] {
      NatBound(digits[..|digits| - 1]);
    }
  }

  lemma {:induction false} NatLeadingZero(digits: seq<Digit>)
    ensures Nat([0] + digits) == Nat(digits)
  {
    var all := [0] + digits;
    if digits == [] {
      assert all[..0] == [];
    } else {
      assert all[..|all| - 1] == [0] + digits[..|digits| - 1];
      NatLeadingZero(digits[..|digits| - 1]);
    }
  }

  lemma {:induction false} NatStripped(digits: seq<Digit>)
    ensures Nat(Stripped(digits)) == Nat(digits)
    ensures Stripped(digits) != [] ==> Stripped(digits)[0] != 0
  {
    if digits != [] && digits[0] == 0 {
      NatStripped(digits[1..]);
      assert digits == [0] + digits[1..];
      NatLeadingZero(digits[1..]);
    }
  }

  lemma NatLast(x: seq<Digit>, a: seq<Digit>)
    requires a != []
    ensures Nat(x + a) == Nat(x + a[..|a| - 1]) * 10 + a[|a| - 1]
  {
    var all := x + a;
    assert all[..|all| - 1] == x + a[..|a| - 1] && all[|all| - 1] == a[|a| - 1];
  }

  /** A smaller prefix stays smaller whatever digits follow. */
  lemma {:induction false} NatPrefixDecides(x: seq<Digit>, a: seq<Digit>, y: seq<Digit>, b: seq<Digit>)
    requires |a| == |b| && Nat(x) < Nat(y)
    ensures Nat(x + a) < Nat(y + b)
    decreases |a|
  {
    if a == [] {
      assert x + a == x && y + b == y;
    } else {
      var n := |a| - 1;
      NatPrefixDecides(x, a[..n], y, b[..n]);
      NatLast(x, a);
      NatLast(y, b);
    }
  }

  lemma {:induction false} LexicalIsNumeric(x: seq<Digit>, a: seq<Digit>, y: seq<Digit>, b: seq<Digit>)
    requires |a| == |b| && Nat(x) == Nat(y)
    ensures Lexical(a, b) == Order(Nat(x + a), Nat(y + b))
    decreases |a|
  {
    if a == [] {
      assert x + a == x && y + b == y;
    } else {
      var x', y' := x + [a[0]], y + [b[0]];
      assert x'[..|x'| - 1] == x && y'[..|y'| - 1] == y;
      assert x + a == x' + a[1..] && y + b == y' + b[1..];
      if a[0] < b[0] {
        NatPrefixDecides(x', a[1..], y', b[1..]);
      } else if a[0] > b[0] {
        NatPrefixDecides(y', b[1..], x', a[1..]);
      } else {
        LexicalIsNumeric(x', a[1..], y', b[1..]);
      }
    }
  }

  // ---- Magnitudes -----------------------------------------------------------------------------

  /** A leading nonzero digit fixes the magnitude between two powers of ten. */
  lemma MagnitudeBounds(digits: seq<Digit>, e: int)
    requires digits != [] && digits[0] != 0
    ensures Ten(|digits| + e - 1) <= Scaled(Nat(digits), e) < Ten(|digits| + e)
  {
    NatBound(digits);
    ScaledPow(|digits|, e);
    ScaledPow(|digits| - 1, e);
    ScaledMonotone(Pow(|digits| - 1), Nat(digits), e);
    ScaledMonotone(Nat(digits), Pow(|digits|), e);
  }

  lemma SmallerOrder(a: seq<Digit>, ea: int, b: seq<Digit>, eb: int)
    requires a != [] && a[0] != 0 && b != [] && b[0] != 0
    requires |a| + ea < |b| + eb
    ensures Scaled(Nat(a), ea) < Scaled(Nat(b), eb)
  {
    MagnitudeBounds(a, ea);
    MagnitudeBounds(b, eb);
    TenMonotone(|a| + ea, |b| + eb - 1);
  }

  lemma {:induction false} PaddedMagnitude(digits: seq<Digit>, e: int, length: nat)
    requires |digits| <= length
    ensures Scaled(Nat(digits), e) == Scaled(Nat(Padded(digits, length)), |digits| + e - length)
    decreases length
  {
    var p := Padded(digits, length);
    if |digits| == length {
      assert p == digits;
    } else {
      PaddedMagnitude(digits, e, length - 1);
      assert p[..|p| - 1] == Padded(digits, length - 1);
      ScaledShift(Nat(Padded(digits, length - 1)), |digits| + e - length);
    }
  }

  lemma EqualOrder(a: seq<Digit>, ea: int, b: seq<Digit>, eb: int, length: nat)
    requires |a| <= length && |b| <= length && |a| + ea == |b| + eb
    ensures Lexical(Padded(a, length), Padded(b, length)) == Sign(Scaled(Nat(a), ea) - Scaled(Nat(b), eb))
  {
    var p, q := Padded(a, length), Padded(b, length);
    var e := |a| + ea - length;
    assert Scaled(Nat(a), ea) == Scaled(Nat(p), e) by { PaddedMagnitude(a, ea, length); }
    assert Scaled(Nat(b), eb) == Scaled(Nat(q), e) by { PaddedMagnitude(b, eb, length); }
    assert Lexical(p, q) == Order(Nat(p), Nat(q)) by {
      assert [] + p == p && [] + q == q;
      LexicalIsNumeric([], p, [], q);
    }
    ScaledOrder(Nat(p), Nat(q), e);
  }

  lemma ScaledOrder(m: nat, n: nat, e: int)
    ensures Sign(Scaled(m, e) - Scaled(n, e)) == Order(m, n)
  {
    ScaledMonotone(m, n, e);
    ScaledMonotone(n, m, e);
  }

  /** Parts say everything about the value. */
  lemma PartsValue(s: Spelling)
    ensures var p := PartsOf(s);
            var magnitude := Scaled(Nat(p.digits), p.order - |p.digits|);
            && p.digits != [] && (p.sign != 0 ==> p.digits[0] != 0)
            && Value(s) == (if p.sign == 0 then 0.0 else if p.sign < 0 then -magnitude else magnitude)
            && (p.sign != 0 ==> magnitude > 0.0)
            && -1 <= p.sign <= 1
  {
    NatStripped(s.whole + s.fraction);
    var p := PartsOf(s);
    if Stripped(s.whole + s.fraction) != [] {
      MagnitudeBounds(p.digits, p.order - |p.digits|);
      TenPositive(p.order - 1);
    }
  }

  // ---- The main results -------------------------------------------------------------------------

  /** The comparison is the sign of the exact difference, for every two spellings. */
  lemma CompareIsExact(left: Spelling, right: Spelling)
    ensures CompareDecimal(left, right) == Sign(Value(left) - Value(right))
  {
    PartsValue(left);
    PartsValue(right);
    var a, b := PartsOf(left), PartsOf(right);
    if a.sign == b.sign && a.sign != 0 {
      var ea, eb := a.order - |a.digits|, b.order - |b.digits|;
      if a.order < b.order {
        SmallerOrder(a.digits, ea, b.digits, eb);
      } else if a.order > b.order {
        SmallerOrder(b.digits, eb, a.digits, ea);
      } else {
        var length := if |a.digits| < |b.digits| then |b.digits| else |a.digits|;
        EqualOrder(a.digits, ea, b.digits, eb, length);
      }
    }
  }

  /** The comparator of two rows' values, of which either may be null. */
  function CompareCells(left: Option<Spelling>, right: Option<Spelling>): int {
    if left.None? || right.None? then (if left == right then 0 else if left.None? then 1 else -1)
    else CompareDecimal(left.value, right.value)
  }

  /** A total preorder: values in the order of what they denote, nulls after every value and equal
      among themselves. */
  lemma ComparePreorder(x: Option<Spelling>, y: Option<Spelling>, z: Option<Spelling>)
    ensures CompareCells(x, x) == 0
    ensures CompareCells(x, y) == -CompareCells(y, x)
    ensures CompareCells(x, y) <= 0 && CompareCells(y, z) <= 0 ==> CompareCells(x, z) <= 0
    ensures CompareCells(x, y) <= 0 <==> y.None? || (x.Some? && Value(x.value) <= Value(y.value))
  {
    if x.Some? { CompareIsExact(x.value, x.value); }
    if x.Some? && y.Some? {
      CompareIsExact(x.value, y.value);
      CompareIsExact(y.value, x.value);
    }
    if y.Some? && z.Some? { CompareIsExact(y.value, z.value); }
    if x.Some? && z.Some? { CompareIsExact(x.value, z.value); }
  }

  /** Leading zeros do not matter... */
  lemma LeadingZeroIsEqual(s: Spelling)
    ensures CompareDecimal(s, s.(whole := [0] + s.whole)) == 0
  {
    var led := s.(whole := [0] + s.whole);
    assert Value(s) == Value(led) by {
      assert led.whole + led.fraction == [0] + (s.whole + s.fraction);
      NatLeadingZero(s.whole + s.fraction);
    }
    CompareIsExact(s, led);
  }

  /** ...nor trailing zeros of the fraction... */
  lemma TrailingZeroIsEqual(s: Spelling)
    ensures CompareDecimal(s, s.(fraction := s.fraction + [0])) == 0
  {
    var trailed := s.(fraction := s.fraction + [0]);
    var longer := trailed.whole + trailed.fraction;
    assert longer[..|longer| - 1] == s.whole + s.fraction;
    ScaledShift(Nat(s.whole + s.fraction), s.exponent - |s.fraction| - 1);
    CompareIsExact(s, trailed);
  }

  /** ...nor a point traded for an exponent: 1, 1.0 and 10e-1 are one number. */
  lemma MovedPointIsEqual(s: Spelling)
    ensures CompareDecimal(s, Spelling(s.negative, s.whole + s.fraction, [], s.exponent - |s.fraction|)) == 0
  {
    var moved := Spelling(s.negative, s.whole + s.fraction, [], s.exponent - |s.fraction|);
    assert moved.whole + moved.fraction == s.whole + s.fraction;
    CompareIsExact(s, moved);
  }
}
