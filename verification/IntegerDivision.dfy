/**
 Lowering of integer division and remainder.  Every lowering is proved against Euclidean division
 (`a == q * b + r` with `0 <= r < |b|`, which is Dafny's `/` and `%`), at every width.
 */
module IntegerDivision {
  import opened Arith
  import opened FixedWidth

  // ----- Division that rounds to zero -----

  function Abs(x: int): (r: int)
    ensures r >= 0 && (r == x || r == -x)
  {
    if x < 0 then -x else x
  }

  /** C-style division. */
  function Truncated(a: int, b: int): int
    requires b != 0
  {
    if (a < 0) == (b < 0) then Abs(a) / Abs(b) else -(Abs(a) / Abs(b))
  }

  function TruncatedMod(a: int, b: int): int
    requires b != 0
  {
    if a < 0 then -(Abs(a) % Abs(b)) else Abs(a) % Abs(b)
  }

  /** The machine instruction faults on a zero divisor and on the one quotient that does not fit. */
  predicate NoFault(w: nat, a: int, b: int)
    requires w >= 1
  {
    b != 0 && !(b == -1 && a == 0 - Pow2(w - 1))
  }

  lemma EuclideanIs(a: int, b: int, q: int, r: int)
    requires b != 0 && a == q * b + r && 0 <= r < Abs(b)
    ensures a / b == q && a % b == r
  {
    if b > 0 {
      DivModIs(a, b, q, r);
    } else {
      assert a == (a / b) * b + a % b;
      assert (a / b) * b == -(a / b) * -b && q * b == -q * -b;
      UniqueQuotient(-b, -(a / b), a % b, -q, r);
    }
  }

  /** Rounding to zero after moving a negative numerator up by one, and correcting, is Euclidean division. */
  lemma EuclideanFromTruncated(a: int, b: int)
    requires b != 0
    ensures a >= 0 ==> a / b == Truncated(a, b) && a % b == TruncatedMod(a, b)
    ensures a < 0 ==> a / b == Truncated(a + 1, b) + (if b < 0 then 1 else -1)
    ensures a < 0 ==> a % b == TruncatedMod(a + 1, b) + Abs(b) - 1
  {
    var d := Abs(b);
    var n := if a < 0 then -a - 1 else a;
    var q, r := n / d, n % d;
    DivModSplit(n, d);
    DivAtLeast(n, d, 0);
    if a >= 0 {
      if b > 0 {
        EuclideanIs(a, b, q, r);
      } else {
        assert q * d == -q * b;
        EuclideanIs(a, b, -q, r);
      }
    } else {
      assert a == -(q * d) - 1 - r;
      if b > 0 {
        assert (-q - 1) * b == -(q * d) - d;
        EuclideanIs(a, b, -q - 1, d - 1 - r);
      } else {
        assert (q + 1) * b == -(q * d) - d;
        EuclideanIs(a, b, q + 1, d - 1 - r);
      }
      if a == -1 {
        assert q == 0 && r == 0;
      }
    }
  }

  lemma TruncatedFits(w: nat, a: int, b: int)
    requires w >= 1 && IsSigned(w, a) && NoFault(w, a, b)
    ensures IsSigned(w, Truncated(a, b))
  {
    QuotientAtMost(Abs(a), Abs(b));
    if Abs(b) >= 2 {
      HalfBound(Abs(a), Abs(b));
    }
  }

  // ----- lower_euclidean_div -----

  /** What `can_prove` answered about the operands; it is trusted to answer yes only for facts. */
  datatype Proofs = Proofs(bNonzero: bool, aNonneg: bool, aNeg: bool, bNonneg: bool, bNeg: bool)

  ghost predicate Sound(p: Proofs, a: int, b: int) {
    && (p.bNonzero ==> b != 0)
    && (p.aNonneg ==> a >= 0) && (p.aNeg ==> a < 0)
    && (p.bNonneg ==> b >= 0) && (p.bNeg ==> b < 0)
  }

  method SignMasks(w: nat, a: int, b: int, p: Proofs) returns (aNeg: int, bNeg: int, bZero: int)
    requires w >= 1 && IsSigned(w, a) && IsSigned(w, b) && Sound(p, a, b)
    ensures aNeg == if a < 0 then -1 else 0
    ensures bNeg == if b < 0 then -1 else 0
    ensures bZero == if b == 0 then -1 else 0
  {
    SignMaskIs(w, a);
    SignMaskIs(w, b);
    aNeg := SignMask(w, a);
    bNeg := SignMask(w, b);
    bZero := if b == 0 then -1 else 0;
    if p.bNonzero {
      bZero := 0;
    }
    if p.aNonneg {
      aNeg := 0;
    } else if p.aNeg {
      aNeg := -1;
    }
    if p.bNonneg {
      bNeg := 0;
    } else if p.bNeg {
      bNeg := -1;
    }
  }

  /**
   `lower_euclidean_div` for signed operands.  The machine division never faults; the result is the
   Euclidean quotient, 0 for a zero divisor, and wraps to the most negative value in the one case where
   the quotient does not fit.
   */
  method LowerSignedDiv(w: nat, a0: int, b0: int, p: Proofs) returns (q: int)
    requires w >= 1 && IsSigned(w, a0) && IsSigned(w, b0) && Sound(p, a0, b0)
    ensures q == if b0 == 0 then 0 else Signed(w, a0 / b0)
    ensures IsSigned(w, q)
    ensures w >= 2 && b0 != 0 && !(a0 == 0 - Pow2(w - 1) && b0 == -1) ==> q == a0 / b0
    ensures a0 == 0 - Pow2(w - 1) && b0 == -1 ==> q == a0
  {
    var a, b := a0, b0;
    var aNeg, bNeg, bZero := SignMasks(w, a, b, p);
    AdjustedOperands(w, a, b);
    b := Signed(w, b - bZero);
    a := Signed(w, a - aNeg);
    TruncatedFits(w, a, b);
    q := Truncated(a, b);
    MaskedCorrection(w, q, a0 < 0, b0);
    q := Signed(w, q + SignedBitwise(And, w, aNeg, Signed(w, Complement(w, bNeg) - bNeg)));
    KeepOrClear(w, q, b0);
    q := SignedBitwise(And, w, q, Complement(w, bZero));
    if b0 != 0 {
      EuclideanFromTruncated(a0, b0);
      QuotientFits(w, a0, b0);
    }
  }

  /** The operands of the division never make it fault. */
  lemma AdjustedOperands(w: nat, a: int, b: int)
    requires w >= 1 && IsSigned(w, a) && IsSigned(w, b)
    ensures Signed(w, a - (if a < 0 then -1 else 0)) == if a < 0 then a + 1 else a
    ensures b != 0 ==> Signed(w, b - 0) == b
    ensures b == 0 ==> Signed(w, b - -1) == if w == 1 then -1 else 1
    ensures NoFault(w, if a < 0 then a + 1 else a, Signed(w, b - (if b == 0 then -1 else 0)))
  {
    SignedFits(w, if a < 0 then a + 1 else a);
    SignedFits(w, b);
    OneIsNonzero(w);
  }

  /** The correction adds -1 or 1 to the quotient of a negative numerator, depending on the divisor's sign. */
  lemma MaskedCorrection(w: nat, q: int, negative: bool, b: int)
    requires w >= 1 && IsSigned(w, q)
    ensures var aNeg, bNeg := if negative then -1 else 0, if b < 0 then -1 else 0;
            Signed(w, q + SignedBitwise(And, w, aNeg, Signed(w, Complement(w, bNeg) - bNeg)))
            == Signed(w, q + if !negative then 0 else if b < 0 then 1 else -1)
  {
    var bNeg := if b < 0 then -1 else 0;
    CorrectionIs(w, bNeg);
    var c := Signed(w, -2 * bNeg - 1);
    SignedMask(And, w, c);
    if negative {
      SignedAdd(w, -2 * bNeg - 1, q);
    }
  }

  lemma CorrectionIs(w: nat, bNeg: int)
    requires w >= 1 && (bNeg == 0 || bNeg == -1)
    ensures Signed(w, Complement(w, bNeg) - bNeg) == Signed(w, -2 * bNeg - 1)
  {
    SignedMask(Xor, w, bNeg);
  }

  /** The last mask clears the result for a zero divisor only. */
  lemma KeepOrClear(w: nat, q: int, b: int)
    requires w >= 1 && IsSigned(w, q)
    ensures SignedBitwise(And, w, q, Complement(w, if b == 0 then -1 else 0)) == if b == 0 then 0 else q
  {
    SignedMask(Xor, w, if b == 0 then -1 else 0);
    SignedMask(And, w, q);
  }

  lemma OneIsNonzero(w: nat)
    requires w >= 1
    ensures Signed(w, 1) == if w == 1 then -1 else 1
  {
    if w == 1 {
      assert Pow2(0) == 1 && Pow2(1) == 2;
    } else {
      Pow2Order(0, w - 1);
      SignedFits(w, 1);
    }
  }

  /** The Euclidean quotient fits, except for the most negative value divided by -1, where it wraps to itself. */
  lemma QuotientFits(w: nat, a: int, b: int)
    requires w >= 1 && IsSigned(w, a) && IsSigned(w, b) && b != 0
    ensures if a == 0 - Pow2(w - 1) && b == -1 then Signed(w, a / b) == a else Signed(w, a / b) == a / b
  {
    var m: int := Pow2(w - 1);
    if a == -m && b == -1 {
      EuclideanIs(a, b, m, 0);
      SameWord(w, m, -m, 1);
      SignedFits(w, -m);
    } else {
      if b == -1 {
        EuclideanIs(a, b, -a, 0);
      } else if b == 1 {
        EuclideanIs(a, b, a, 0);
      } else {
        QuotientShrinks(a, b);
        if w > 1 {
          Pow2Order(0, w - 1);
        }
      }
      SignedFits(w, a / b);
    }
  }

  lemma QuotientShrinks(a: int, b: int)
    requires b >= 2 || b <= -2
    ensures -Abs(a) <= a / b <= Abs(a)
    ensures 2 * (a / b) <= Abs(a) + 1
  {
    var n, d := if a < 0 then -a - 1 else a, Abs(b);
    EuclideanFromTruncated(a, b);
    HalfBound(n, d);
  }

  lemma HalfBound(n: int, d: int)
    requires n >= 0 && d >= 2
    ensures 0 <= n / d && 2 * (n / d) <= n
  {
    DivModSplit(n, d);
    DivAtLeast(n, d, 0);
    var q := n / d;
    assert q * d >= q * 2 by { assert q * (d - 2) >= 0; }
  }

  /** `lower_euclidean_div` for unsigned operands. */
  method LowerUnsignedDiv(w: nat, a: int, b0: int, provedNonzero: bool) returns (q: int)
    requires w >= 1 && IsUnsigned(w, a) && IsUnsigned(w, b0) && (provedNonzero ==> b0 != 0)
    ensures q == if b0 == 0 then 0 else a / b0
    ensures IsUnsigned(w, q)
  {
    var b := b0;
    if !provedNonzero {
      SetLowestBit(w, b0);
      b := Bitwise(Or, w, b, if b0 == 0 then 1 else 0);
    }
    q := a / b;
    QuotientAtMost(a, b);
    q := if b0 == 0 then 0 else q;
  }

  /** Or-ing in the comparison with zero turns zero into one and leaves the rest alone. */
  lemma SetLowestBit(w: nat, b: int)
    requires w >= 1 && IsUnsigned(w, b)
    ensures Bitwise(Or, w, b, if b == 0 then 1 else 0) == if b == 0 then 1 else b
  {
    if b == 0 {
      Pow2Order(0, w);
      BitwiseZero(Or, w, 1);
    } else {
      BitwiseZero(Or, w, b);
    }
  }

  lemma QuotientAtMost(a: int, b: int)
    requires a >= 0 && b >= 1
    ensures 0 <= a / b <= a
  {
    DivModSplit(a, b);
    DivAtLeast(a, b, 0);
    assert (a / b) * b >= a / b by { assert (a / b) * (b - 1) >= 0; }
  }

  // ----- lower_euclidean_mod -----

  /** `lower_euclidean_mod` for signed operands: in `[0, |b|)`, 0 for a zero divisor, and no fault. */
  method LowerSignedMod(w: nat, a0: int, b: int, p: Proofs) returns (q: int)
    requires w >= 1 && IsSigned(w, a0) && IsSigned(w, b) && Sound(p, a0, b)
    ensures q == if b == 0 then 0 else a0 % b
    ensures IsSigned(w, q) && (b != 0 ==> 0 <= q < Abs(b))
  {
    var a := a0;
    var aNeg, bNeg, bZero := SignMasks(w, a, b, p);
    AdjustedOperands(w, a, b);
    a := Signed(w, a - aNeg);
    NonzeroDivisor(w, a0, b);
    assert NoFault(w, a, SignedBitwise(Or, w, b, bZero));
    q := TruncatedMod(a, SignedBitwise(Or, w, b, bZero));
    MaskedDivisor(w, a0 < 0, b);
    q := Signed(w, q + SignedBitwise(And, w, aNeg,
                                     Signed(w, SignedBitwise(Xor, w, b, bNeg) + Complement(w, bNeg))));
    KeepOrClear(w, q, b);
    q := SignedBitwise(And, w, q, Complement(w, bZero));
    if b != 0 {
      EuclideanFromTruncated(a0, b);
      SignedFits(w, a0 % b);
    }
  }

  /** The divisor of the remainder instruction is `b`, or -1 in place of zero; it never faults. */
  lemma NonzeroDivisor(w: nat, a: int, b: int)
    requires w >= 1 && IsSigned(w, a) && IsSigned(w, b)
    ensures var d := SignedBitwise(Or, w, b, if b == 0 then -1 else 0);
            d == (if b == 0 then -1 else b) && NoFault(w, if a < 0 then a + 1 else a, d)
  {
    SignedMask(Or, w, b);
  }

  /** What is added for a negative numerator: `|b| - 1`. */
  lemma MaskedDivisor(w: nat, negative: bool, b: int)
    requires w >= 1 && IsSigned(w, b)
    ensures var aNeg, bNeg := if negative then -1 else 0, if b < 0 then -1 else 0;
            SignedBitwise(And, w, aNeg, Signed(w, SignedBitwise(Xor, w, b, bNeg) + Complement(w, bNeg)))
            == if negative then Abs(b) - 1 else 0
  {
    FlippedDivisor(w, b);
    SignedMask(And, w, Abs(b) - 1);
  }

  lemma FlippedDivisor(w: nat, b: int)
    requires w >= 1 && IsSigned(w, b)
    ensures var bNeg := if b < 0 then -1 else 0;
            IsSigned(w, Abs(b) - 1)
            && Signed(w, SignedBitwise(Xor, w, b, bNeg) + Complement(w, bNeg)) == Abs(b) - 1
  {
    var bNeg := if b < 0 then -1 else 0;
    SignedMask(Xor, w, b);
    SignedMask(Xor, w, bNeg);
    SignedFits(w, Abs(b) - 1);
  }

  method LowerUnsignedMod(w: nat, a: int, b0: int, provedNonzero: bool) returns (q: int)
    requires w >= 1 && IsUnsigned(w, a) && IsUnsigned(w, b0) && (provedNonzero ==> b0 != 0)
    ensures q == if b0 == 0 then 0 else a % b0
    ensures IsUnsigned(w, q)
  {
    var b := b0;
    if !provedNonzero {
      SetLowestBit(w, b0);
      b := Bitwise(Or, w, b, if b0 == 0 then 1 else 0);
    }
    q := a % b;
    q := if b0 == 0 then 0 else q;
  }

  /** Quotient and remainder recombine to the numerator in wrapping arithmetic, even where the quotient wraps. */
  lemma DivisionIdentity(w: nat, a: int, b: int)
    requires w >= 1 && IsSigned(w, a) && IsSigned(w, b) && b != 0
    ensures Signed(w, Signed(w, Signed(w, a / b) * b) + a % b) == a
  {
    Recombine(w, a, a / b, b, a % b);
  }

  lemma Recombine(w: nat, a: int, q: int, b: int, r: int)
    requires w >= 1 && IsSigned(w, a) && a == q * b + r
    ensures Signed(w, Signed(w, Signed(w, q) * b) + r) == a
  {
    SignedMul(w, q, b);
    SignedAdd(w, q * b, r);
    SignedFits(w, a);
  }

  // ----- Restoring long division -----

  function CountLeadingZeros(w: nat, x: int): (n: nat)
    requires IsUnsigned(w, x)
    ensures n <= w
  {
    if w == 0 || x >= Pow2(w - 1) then 0 else 1 + CountLeadingZeros(w - 1, x)
  }

  lemma ProductAtLeast(x: int, y: int, s: int, t: int)
    requires 0 <= y <= x && 0 <= t <= s
    ensures x * s >= y * t
  {
    assert (x - y) * s >= 0 && y * (s - t) >= 0;
  }

  /** A shift that drops no set bit is one by at most the number of leading zeros. */
  lemma {:induction false} LeadingZeros(w: nat, x: int, s: nat)
    requires IsUnsigned(w, x) && x > 0
    ensures s <= CountLeadingZeros(w, x) <==> x * Pow2(s) < Pow2(w)
  {
    if x >= Pow2(w - 1) {
      if s > 0 {
        ProductAtLeast(x, Pow2(w - 1), Pow2(s), 2);
      }
    } else if s > 0 {
      LeadingZeros(w - 1, x, s - 1);
      var p := Pow2(s - 1);
      assert x * (2 * p) == 2 * (x * p);
    }
  }

  /** How often a value can be halved before it is zero. */
  function Halvings(v: nat): nat {
    if v == 0 then 0 else 1 + Halvings(v / 2)
  }

  datatype UpperBound = Unbounded | AtMost(value: nat)

  /** The number of quotient bits the loop evaluates. */
  function QuotientBits(times: nat, upperBound: UpperBound): nat {
    match upperBound
    case Unbounded => times
    case AtMost(v) => 1 + Halvings(v / 2)
  }

  /** A quotient within the bound fits in the evaluated bits. */
  lemma {:induction false} BoundFits(v: nat)
    ensures v < Pow2(1 + Halvings(v / 2))
  {
    if v > 1 {
      BoundFits(v / 2);
    }
  }

  method StartBit(times: nat, upperBound: UpperBound) returns (start: int)
    ensures start == times + 1 - QuotientBits(times, upperBound)
  {
    start := 1;
    if upperBound.AtMost? {
      start := times;
      var max: nat := upperBound.value / 2;
      while max > 0
        invariant start == times - Halvings(upperBound.value / 2) + Halvings(max)
      {
        start := start - 1;
        max := max / 2;
      }
    }
  }

  function Min(x: int, y: int): int {
    if x <= y then x else y
  }

  /** The state of the bit loop with `s` of the `n` quotient bits still to come. */
  ghost predicate Restoring(num: int, den: int, n: nat, s: nat, q: int, r: int) {
    && num == q * den + r && r >= 0
    && 0 <= q <= Pow2(n) - Pow2(s) && q % Pow2(s) == 0
    && (r < den * Pow2(s) || q == Pow2(n) - Pow2(s))
  }

  lemma RestoringStep(num: int, den: int, n: nat, s: nat, q: int, r: int)
    requires den > 0 && s < n && Restoring(num, den, n, s + 1, q, r)
    ensures if r >= den * Pow2(s) then Restoring(num, den, n, s, q + Pow2(s), r - den * Pow2(s))
            else Restoring(num, den, n, s, q, r)
  {
    var p := Pow2(s);
    HalfPower(q, s);
    assert den * (2 * p) == 2 * (den * p);
    assert (q + p) * den == q * den + den * p;
  }

  lemma HalfPower(q: int, s: nat)
    requires q % Pow2(s + 1) == 0
    ensures q % Pow2(s) == 0 && (q + Pow2(s)) % Pow2(s) == 0
  {
    var p := Pow2(s);
    DivModSplit(q, 2 * p);
    var k := q / (2 * p);
    assert k * (2 * p) == (2 * k) * p && (2 * k + 1) * p == (2 * k) * p + p;
    DivModIs(q, p, 2 * k, 0);
    DivModIs(q + p, p, 2 * k + 1, 0);
  }

  lemma RestoringDone(num: int, den: int, n: nat, q: int, r: int)
    requires den > 0 && Restoring(num, den, n, 0, q, r)
    ensures q == Min(num / den, Pow2(n) - 1)
    ensures r < den <==> num / den < Pow2(n)
  {
    DivAtLeast(num, den, q);
    DivAtLeast(num, den, q + 1);
    assert (q + 1) * den == q * den + den;
  }

  /**
   `unsigned_long_div_mod_round_to_zero`: for a nonzero divisor the loop gives the quotient cut off at
   the evaluated bits, and the matching remainder.
   */
  method UnsignedLongDiv(w: nat, num: int, den: int, upperBound: UpperBound) returns (q: int, r: int)
    requires w >= 1 && IsUnsigned(w, num) && IsUnsigned(w, den)
    ensures IsUnsigned(w, q) && IsUnsigned(w, r)
    ensures den > 0 ==> num == q * den + r
    ensures den > 0 ==> q == Min(num / den, Pow2(QuotientBits(w, upperBound)) - 1)
    ensures den > 0 ==> (r < den <==> num / den < Pow2(QuotientBits(w, upperBound)))
  {
    q := 0;
    var leadingZeros := CountLeadingZeros(w, den);
    var times := w;
    var start := StartBit(times, upperBound);
    ghost var n := QuotientBits(w, upperBound);
    r := num;
    var i := start;
    while i <= times
      invariant start <= i <= times + 1
      invariant IsUnsigned(w, q) && IsUnsigned(w, r)
      invariant den > 0 ==> Restoring(num, den, n, times + 1 - i, q, r)
    {
      var shift := times - i;
      var shifted := Unsigned(w, den * Pow2(shift));
      var newR := Unsigned(w, r - shifted);
      var bitSet := shift <= leadingZeros && r >= shifted;
      if den > 0 {
        BitDecision(w, num, den, n, shift, q, r);
      }
      if bitSet {
        r := newR;
        q := Bitwise(Or, w, Unsigned(w, Pow2(shift)), q);
      }
      i := i + 1;
    }
    if den > 0 {
      RestoringDone(num, den, n, q, r);
    }
  }

  /** One iteration sets its bit exactly when the shifted divisor still fits under the remainder. */
  lemma BitDecision(w: nat, num: int, den: int, n: nat, shift: nat, q: int, r: int)
    requires w >= 1 && IsUnsigned(w, num) && IsUnsigned(w, den) && den > 0 && IsUnsigned(w, r) && IsUnsigned(w, q)
    requires shift < n && Restoring(num, den, n, shift + 1, q, r)
    ensures var shifted := Unsigned(w, den * Pow2(shift));
            if shift <= CountLeadingZeros(w, den) && r >= shifted then
              Restoring(num, den, n, shift, Bitwise(Or, w, Unsigned(w, Pow2(shift)), q), Unsigned(w, r - shifted))
            else Restoring(num, den, n, shift, q, r)
  {
    LeadingZeros(w, den, shift);
    RestoringStep(num, den, n, shift, q, r);
    var d := den * Pow2(shift);
    assert d >= 0 by { ProductAtLeast(den, 0, Pow2(shift), 0); }
    if shift <= CountLeadingZeros(w, den) {
      UnsignedFits(w, d);
      if r >= d {
        UnsignedFits(w, r - d);
        ProductAtLeast(den, 1, Pow2(shift), Pow2(shift));
        UnsignedFits(w, Pow2(shift));
        ShiftInWidth(w, shift);
        OrBit(w, q, shift);
      }
    }
  }

  lemma ShiftInWidth(w: nat, s: nat)
    requires Pow2(s) < Pow2(w)
    ensures s < w
  {
    if s > w {
      Pow2Order(w, s);
    }
  }

  lemma UnitFactor(w: nat, q: int, f: int)
    requires w >= 1 && (f == 1 || f == -1)
    ensures Signed(w, Signed(w, q) * f) == Signed(w, if f == 1 then q else -q)
  {
    SignedMul(w, q, f);
  }

  /** The factor `(x | 1)` for a sign mask `x` flips the sign of a word when the mask is set. */
  lemma SignFactor(w: nat, q: int, mask: int)
    requires w >= 1 && (mask == 0 || mask == -1)
    ensures Signed(w, Signed(w, q) * SignedBitwise(Or, w, mask, 1)) == Signed(w, if mask == 0 then q else -q)
  {
    OrOne(w, mask);
    UnitFactor(w, q, SignedBitwise(Or, w, mask, 1));
  }

  lemma XorOfSigns(w: nat, x: int, y: int)
    requires w >= 1 && (x == 0 || x == -1) && (y == 0 || y == -1)
    ensures SignedBitwise(Xor, w, x, y) == if x == y then 0 else -1
  {
    SignedMask(Xor, w, x);
  }

  /**
   `long_div_mod_round_to_zero` for signed operands.  When the quotient's magnitude is within the given
   bound (or there is none), it is the truncating quotient, wrapped only for the most negative value
   divided by -1, and the truncating remainder.
   */
  method SignedLongDiv(w: nat, num: int, den: int, maxAbs: UpperBound) returns (q: int, r: int)
    requires w >= 1 && IsSigned(w, num) && IsSigned(w, den)
    ensures den != 0 && (maxAbs.AtMost? ==> Abs(num) / Abs(den) <= maxAbs.value) ==>
              q == Signed(w, Truncated(num, den)) && r == TruncatedMod(num, den)
    ensures den != 0 && (maxAbs.AtMost? ==> Abs(num) / Abs(den) <= maxAbs.value) && NoFault(w, num, den) ==>
              q == Truncated(num, den)
  {
    var uq, ur := UnsignedLongDiv(w, Abs(num), Abs(den), maxAbs);
    SignMaskIs(w, num);
    SignMaskIs(w, den);
    var numNeg := SignMask(w, num);
    var denNeg := SignMask(w, den);
    XorOfSigns(w, numNeg, denNeg);
    SignFactor(w, uq, SignedBitwise(Xor, w, numNeg, denNeg));
    SignFactor(w, ur, numNeg);
    q := Signed(w, Signed(w, uq) * SignedBitwise(Or, w, SignedBitwise(Xor, w, numNeg, denNeg), 1));
    r := Signed(w, Signed(w, ur) * SignedBitwise(Or, w, numNeg, 1));
    if den != 0 && (maxAbs.AtMost? ==> Abs(num) / Abs(den) <= maxAbs.value) {
      LongQuotientExact(w, num, den, maxAbs, uq, ur);
      SignedFits(w, TruncatedMod(num, den));
      if NoFault(w, num, den) {
        TruncatedFits(w, num, den);
        SignedFits(w, Truncated(num, den));
      }
    }
  }

  lemma LongQuotientExact(w: nat, num: int, den: int, maxAbs: UpperBound, uq: int, ur: int)
    requires w >= 1 && IsSigned(w, num) && IsSigned(w, den) && den != 0
    requires maxAbs.AtMost? ==> Abs(num) / Abs(den) <= maxAbs.value
    requires Abs(num) == uq * Abs(den) + ur && uq == Min(Abs(num) / Abs(den), Pow2(QuotientBits(w, maxAbs)) - 1)
    ensures uq == Abs(num) / Abs(den) && ur == Abs(num) % Abs(den)
    ensures IsSigned(w, TruncatedMod(num, den))
  {
    QuotientAtMost(Abs(num), Abs(den));
    if maxAbs.AtMost? {
      BoundFits(maxAbs.value);
    }
    DivModSplit(Abs(num), Abs(den));
  }

  // ----- Multiplying by a reciprocal -----

  /** Multiply two words, keep the high half and shift it right. */
  function MulHighShift(w: nat, a: int, b: int, shift: nat): int {
    a * b / Pow2(w) / Pow2(shift)
  }

  /** The mean of two words, rounded down, for `a <= b`; the subtraction wraps otherwise. */
  function SortedAverage(w: nat, a: int, b: int): int {
    a + Unsigned(w, b - a) / 2
  }

  /** The last numerator below `limit` that leaves remainder `d - 1`. */
  function LastBefore(limit: nat, d: nat): int
    requires d >= 1
  {
    limit / d * d - 1
  }

  /** `multiplier / scale` is close enough to `1 / d` for every numerator below `limit`. */
  ghost predicate Reciprocal(multiplier: int, scale: int, d: nat, limit: nat)
    requires d >= 1
  {
    var error := multiplier * d - scale;
    0 <= error && error * LastBefore(limit, d) < scale
  }

  lemma NestedDiv(x: int, a: int, b: int)
    requires x >= 0 && a >= 1 && b >= 1
    ensures a * b >= 1 && x / a / b == x / (a * b)
  {
    DivModSplit(x, a);
    DivModSplit(x / a, b);
    MulAtLeast(a, b);
    NestedDigits(x, a, b, x / a / b, x / a % b, x % a);
  }

  lemma NestedDigits(x: int, a: int, b: int, k: int, l: int, r: int)
    requires a >= 1 && b >= 1 && a * b >= 1 && 0 <= l < b && 0 <= r < a && x == (k * b + l) * a + r
    ensures x / (a * b) == k
  {
    assert (k * b + l) * a == k * (a * b) + l * a;
    ProductAtLeast(b - 1, l, a, a);
    assert (b - 1) * a == a * b - a;
    ProductAtLeast(l, 0, a, 0);
    DivModIs(x, a * b, k, l * a + r);
  }

  lemma ScaledRest(n: int, m: int, scale: int, d: int, q: int, r: int, e: int)
    requires n == q * d + r && m * d == scale + e
    ensures (n * m - q * scale) * d == r * scale + n * e
  {
    calc {
      (n * m - q * scale) * d;
      n * m * d - q * scale * d;
      { assert n * m * d == n * (m * d); assert q * scale * d == (q * d) * scale; }
      n * (scale + e) - (n - r) * scale;
      { assert n * (scale + e) == n * scale + n * e; assert (n - r) * scale == n * scale - r * scale; }
      r * scale + n * e;
    }
  }

  lemma RestInRange(rest: int, d: int, scale: int)
    requires d >= 1 && 0 <= rest * d < d * scale
    ensures 0 <= rest < scale
  {
    if rest < 0 {
      assert (-rest) * d == -(rest * d);
      MulAtLeast(-rest, d);
    } else if rest >= scale {
      assert (rest - scale) * d == rest * d - d * scale;
      ProductAtLeast(rest - scale, 0, d, 0);
    }
  }

  lemma FullBlockError(n: int, last: int, r: int, d: int, e: int, scale: int)
    requires 0 <= n <= last && 0 <= r < d && e >= 0 && e * last < scale
    ensures 0 <= r * scale + n * e < d * scale
  {
    ProductAtLeast(last, n, e, e);
    ProductAtLeast(d - 1, r, scale, scale);
    assert (d - 1) * scale == d * scale - scale;
    assert n * e >= 0 && r * scale >= 0 && last * e == e * last;
  }

  lemma PartialBlockError(n: int, last: int, r: int, d: int, e: int, scale: int)
    requires n == last + (1 + r) && 0 <= r <= d - 2 && 1 + r <= last && e >= 0 && e * last < scale
    ensures 0 <= r * scale + n * e < d * scale
  {
    assert n * e == last * e + (1 + r) * e;
    ProductAtLeast(last, 1 + r, e, e);
    ProductAtLeast(d - 2, r, scale, scale);
    assert (d - 2) * scale == d * scale - 2 * scale;
    assert n * e >= 0 && r * scale >= 0 && last * e == e * last;
  }

  /** Dividing by multiplying: exact for one numerator, from the error bound. */
  lemma ReciprocalAt(n: int, m: int, scale: int, d: nat, limit: nat)
    requires 1 <= d <= limit && scale >= 1 && 0 <= n < limit
    requires Reciprocal(m, scale, d, limit)
    ensures n * m / scale == n / d
  {
    var e, last, blocks := m * d - scale, LastBefore(limit, d), limit / d;
    var q, r := n / d, n % d;
    DivModSplit(n, d);
    DivModSplit(limit, d);
    DivAtLeast(limit, d, 1);
    DivAtLeast(n, d, 0);
    DivMonotone(n, limit, d);
    MulAtLeast(blocks, d);
    if q < blocks {
      MulOrder(q, blocks, d);
      FullBlockError(n, last, r, d, e, scale);
    } else {
      PartialBlockError(n, last, r, d, e, scale);
    }
    ScaledRest(n, m, scale, d, q, r, e);
    RestInRange(n * m - q * scale, d, scale);
    DivModIs(n * m, scale, q, n * m - q * scale);
  }

  /** The bound is exact: without it some numerator below `limit` is divided wrongly. */
  lemma ReciprocalIsExact(m: int, scale: int, d: nat, limit: nat)
    requires 1 <= d < limit && scale >= 1
    ensures Reciprocal(m, scale, d, limit) <==> forall n :: 0 <= n < limit ==> n * m / scale == n / d
  {
    if Reciprocal(m, scale, d, limit) {
      forall n | 0 <= n < limit ensures n * m / scale == n / d {
        ReciprocalAt(n, m, scale, d, limit);
      }
    }
    if forall n :: 0 <= n < limit ==> n * m / scale == n / d {
      assert d * m / scale == d / d;
      var last := LastBefore(limit, d);
      assert last * m / scale == last / d;
      ReciprocalFromAbove(m, scale, d, limit);
    }
  }

  lemma ReciprocalFromAbove(m: int, scale: int, d: nat, limit: nat)
    requires 1 <= d < limit && scale >= 1
    requires LastBefore(limit, d) * m / scale == LastBefore(limit, d) / d
    ensures (m * d - scale) * LastBefore(limit, d) < scale
  {
    var last, blocks := LastBefore(limit, d), limit / d;
    LastQuotient(last, blocks, d);
    DivModSplit(last * m, scale);
    assert (blocks - 1) * scale == blocks * scale - scale;
  }

  lemma LastQuotient(last: int, blocks: int, d: int)
    requires last == blocks * d - 1 && d >= 1
    ensures last / d == blocks - 1
  {
    assert (blocks - 1) * d == blocks * d - d;
    DivModIs(last, d, blocks - 1, d - 1);
  }

  // ----- lower_int_uint_div -----

  /** A row of the reciprocal tables. */
  datatype Row = Row(method_: int, multiplier: int, shift: nat)

  /** Signed rows serve numerators below 2^(w-1). */
  ghost predicate GoodSignedRow(w: nat, d: nat, row: Row)
    requires w >= 1 && d >= 1
  {
    IsUnsigned(w, row.multiplier) && Reciprocal(row.multiplier, Pow2(w + row.shift), d, Pow2(w - 1))
  }

  /** Unsigned rows serve every numerator; method 2 stands for a multiplier of one bit more than the width. */
  ghost predicate GoodUnsignedRow(w: nat, d: nat, row: Row)
    requires d >= 1
  {
    && IsUnsigned(w, row.multiplier)
    && (row.method_ == 1 || row.method_ == 2)
    && (row.method_ == 1 ==> Reciprocal(row.multiplier, Pow2(w + row.shift), d, Pow2(w)))
    && (row.method_ == 2 ==> Reciprocal(Pow2(w) + row.multiplier, Pow2(w + 1 + row.shift), d, Pow2(w)))
  }

  lemma MulHighShiftIs(w: nat, a: int, b: int, shift: nat)
    requires a >= 0 && b >= 0
    ensures MulHighShift(w, a, b, shift) == a * b / Pow2(w + shift)
  {
    Pow2Add(w, shift);
    assert a * b >= 0;
    NestedDiv(a * b, Pow2(w), Pow2(shift));
  }

  /** Flipping the bits of a negative numerator makes it nonnegative. */
  lemma FlipIn(w: nat, a: int)
    requires w >= 1 && IsSigned(w, a)
    ensures Bitwise(Xor, w, Unsigned(w, a), Unsigned(w, SignMask(w, a))) == if a < 0 then -1 - a else a
  {
    SignMaskIs(w, a);
    SignedFits(w, SignMask(w, a));
    SignedFits(w, a);
    BitwiseZero(Xor, w, Unsigned(w, a));
    BitwiseOnes(Xor, w, Unsigned(w, a));
  }

  /** Flipping them again turns the quotient `q` into `-1 - q`. */
  lemma FlipOut(w: nat, a: int, q: int)
    requires w >= 1 && IsSigned(w, a) && 0 <= q < Pow2(w - 1)
    ensures Signed(w, Bitwise(Xor, w, q, Unsigned(w, SignMask(w, a)))) == if a < 0 then -1 - q else q
  {
    SignMaskIs(w, a);
    SignedFits(w, SignMask(w, a));
    BitwiseZero(Xor, w, q);
    BitwiseOnes(Xor, w, q);
    if a < 0 {
      SameWord(w, Pow2(w) - 1 - q, -1 - q, 1);
      SignedFits(w, -1 - q);
    } else {
      SignedFits(w, q);
    }
  }

  lemma FlippedQuotient(a: int, d: nat)
    requires d >= 1
    ensures a / d == if a < 0 then -1 - (-1 - a) / d else a / d
  {
    if a < 0 {
      var n := -1 - a;
      DivModSplit(n, d);
      var q, r := n / d, n % d;
      assert (-1 - q) * d == 0 - d - q * d;
      DivModIs(a, d, -1 - q, d - 1 - r);
    }
  }

  /** Flip the bits of a negative numerator, multiply by the reciprocal, flip back. */
  method SignedByReciprocal(w: nat, a: int, d: nat, row: Row) returns (num: int)
    requires w >= 1 && IsSigned(w, a) && 1 <= d <= Pow2(w - 1) && GoodSignedRow(w, d, row)
    ensures num == a / d
  {
    var sign := Unsigned(w, SignMask(w, a));
    FlipIn(w, a);
    num := Bitwise(Xor, w, Unsigned(w, a), sign);
    MulHighShiftIs(w, num, row.multiplier, row.shift);
    ReciprocalAt(num, row.multiplier, Pow2(w + row.shift), d, Pow2(w - 1));
    QuotientAtMost(num, d);
    num := MulHighShift(w, num, row.multiplier, row.shift);
    FlipOut(w, a, num);
    num := Signed(w, Bitwise(Xor, w, num, sign));
    FlippedQuotient(a, d);
  }

  /** The high half of a product of words is at most either factor. */
  lemma HighHalf(n: int, m: int, p: int)
    requires 0 <= n < p && 0 <= m < p
    ensures n * m >= 0 && 0 <= n * m / p <= n
    ensures n * (p + m) >= 0 && n * (p + m) / p == n + n * m / p
  {
    ProductAtLeast(n, 0, m, 0);
    ProductAtLeast(n, n, p, m);
    var x := n * m;
    DivAtLeast(x, p, 0);
    DivAtLeast(x, p, n + 1);
    assert (n + 1) * p == n * p + p;
    assert n * (p + m) == n * p + x;
    QuotientOfSum(n, x, p);
  }

  lemma QuotientOfSum(n: int, x: int, p: int)
    requires n >= 0 && x >= 0 && p >= 1
    ensures n * p + x >= 0 && (n * p + x) / p == n + x / p
  {
    DivModSplit(x, p);
    ProductAtLeast(n, 0, p, 0);
    var v := x / p;
    assert (n + v) * p == n * p + v * p;
    DivModIs(n * p + x, p, n + v, x % p);
  }

  /** Method 2 averages the high half with the numerator; the high half is the smaller of the two. */
  lemma AverageIs(w: nat, n: int, m: int, shift: nat)
    requires IsUnsigned(w, n) && IsUnsigned(w, m)
    ensures MulHighShift(w, n, m, 0) <= n
    ensures SortedAverage(w, MulHighShift(w, n, m, 0), n) / Pow2(shift) == n * (Pow2(w) + m) / Pow2(w + 1 + shift)
  {
    var p := Pow2(w);
    HighHalf(n, m, p);
    var v := n * m / p;
    assert MulHighShift(w, n, m, 0) == v;
    UnsignedFits(w, n - v);
    assert SortedAverage(w, v, n) == (n + v) / 2;
    DoubledPower(w, shift);
    var y := n * (p + m);
    NestedDiv(y, p, 2);
    NestedDiv(y, p * 2, Pow2(shift));
  }

  lemma DoubledPower(w: nat, shift: nat)
    ensures Pow2(w + 1 + shift) == Pow2(w) * 2 * Pow2(shift)
  {
    Pow2Add(w + 1, shift);
  }

  method UnsignedByReciprocal(w: nat, num: int, d: nat, row: Row) returns (val: int)
    requires w >= 1 && IsUnsigned(w, num) && 1 <= d <= Pow2(w) && GoodUnsignedRow(w, d, row)
    ensures val == num / d
  {
    val := MulHighShift(w, num, row.multiplier, if row.method_ == 1 then row.shift else 0);
    if row.method_ == 1 {
      MulHighShiftIs(w, num, row.multiplier, row.shift);
      ReciprocalAt(num, row.multiplier, Pow2(w + row.shift), d, Pow2(w));
    } else {
      AverageIs(w, num, row.multiplier, row.shift);
      ReciprocalAt(num, Pow2(w) + row.multiplier, Pow2(w + 1 + row.shift), d, Pow2(w));
      val := SortedAverage(w, val, num);
      if row.shift != 0 {
        val := val / Pow2(row.shift);
      }
    }
  }

  datatype NumberType = Int(bits: nat) | UInt(bits: nat)

  /** The operands of a division; the divisor may be a compile-time constant. */
  datatype Operands = Operands(t: NumberType, a: int, b: int, bIsConst: bool)

  ghost predicate InType(t: NumberType, x: int)
    requires t.bits >= 1
  {
    if t.Int? then IsSigned(t.bits, x) else IsUnsigned(t.bits, x)
  }

  /** The exponent of a power of two, or -1. */
  function PowerOfTwo(b: int): (k: int)
    ensures k >= 0 ==> b == Pow2(k)
    ensures k < 0 ==> k == -1
  {
    if b <= 0 then -1
    else if b == 1 then 0
    else if b % 2 == 1 then -1
    else
      var k := PowerOfTwo(b / 2);
      if k < 0 then -1 else k + 1
  }

  predicate SmallWidth(bits: nat) {
    bits == 8 || bits == 16 || bits == 32
  }

  predicate UsesSignedTable(o: Operands) {
    && o.bIsConst && o.t.Int? && SmallWidth(o.t.bits) && o.b > 1
    && ((o.t.bits > 8 && o.b < 256) || o.b < 128)
  }

  predicate UsesUnsignedTable(o: Operands) {
    o.bIsConst && o.t.UInt? && SmallWidth(o.t.bits) && 1 < o.b < 256
  }

  /** The tables, by type and divisor; only the rows that can be looked up need to be good. */
  type Tables = (NumberType, int) -> Row

  ghost predicate GoodTables(tables: Tables, o: Operands) {
    && (UsesSignedTable(o) ==> GoodSignedRow(o.t.bits, o.b, tables(o.t, o.b)))
    && (UsesUnsignedTable(o) ==> GoodUnsignedRow(o.t.bits, o.b, tables(o.t, o.b)))
  }

  /** The value of a division in the operands' type. */
  function Quotient(o: Operands): int
    requires o.t.bits >= 1
  {
    if o.b == 0 then 0 else if o.t.Int? then Signed(o.t.bits, o.a / o.b) else o.a / o.b
  }

  function Remainder(o: Operands): int {
    if o.b == 0 then 0 else o.a % o.b
  }

  lemma TableDivisorFits(o: Operands)
    requires UsesSignedTable(o) || UsesUnsignedTable(o)
    ensures 1 <= o.b <= Pow2(o.t.bits - 1) || (o.t.UInt? && 1 <= o.b <= Pow2(o.t.bits))
  {
    Pow2At8();
    if o.t.bits > 8 {
      Pow2Order(8, o.t.bits);
      Pow2Order(7, o.t.bits - 1);
      Pow2Order(7, 8);
      if o.t.bits - 1 > 8 {
        Pow2Order(8, o.t.bits - 1);
      }
    }
  }

  lemma Pow2At8()
    ensures Pow2(7) == 128 && Pow2(8) == 256
  {
    assert Pow2(1) == 2 && Pow2(2) == 4 && Pow2(3) == 8;
    assert Pow2(4) == 16 && Pow2(5) == 32 && Pow2(6) == 64;
  }

  /** `lower_int_uint_div`: every path computes the Euclidean quotient. */
  method LowerDiv(o: Operands, p: Proofs, tables: Tables) returns (q: int)
    requires o.t.bits >= 1 && InType(o.t, o.a) && InType(o.t, o.b) && Sound(p, o.a, o.b) && GoodTables(tables, o)
    ensures q == Quotient(o)
    ensures InType(o.t, q)
  {
    var w := o.t.bits;
    var shift := PowerOfTwo(o.b);
    if o.bIsConst && shift >= 0 {
      q := o.a / Pow2(shift);
      PowerQuotientFits(o);
    } else if UsesSignedTable(o) {
      TableDivisorFits(o);
      q := SignedByReciprocal(w, o.a, o.b, tables(o.t, o.b));
      QuotientFits(w, o.a, o.b);
    } else if UsesUnsignedTable(o) {
      TableDivisorFits(o);
      q := UnsignedByReciprocal(w, o.a, o.b, tables(o.t, o.b));
      QuotientAtMost(o.a, o.b);
    } else if o.t.UInt? {
      q := LowerUnsignedDiv(w, o.a, o.b, p.bNonzero);
    } else {
      q := LowerSignedDiv(w, o.a, o.b, p);
    }
  }

  lemma PowerQuotientFits(o: Operands)
    requires o.t.bits >= 1 && InType(o.t, o.a) && InType(o.t, o.b) && o.b >= 1
    ensures Quotient(o) == o.a / o.b && InType(o.t, o.a / o.b)
  {
    if o.t.Int? {
      QuotientFits(o.t.bits, o.a, o.b);
    } else {
      QuotientAtMost(o.a, o.b);
    }
  }

  /** `lower_int_uint_mod`: every path computes the Euclidean remainder. */
  method LowerMod(o: Operands, p: Proofs, tables: Tables) returns (r: int)
    requires o.t.bits >= 1 && InType(o.t, o.a) && InType(o.t, o.b) && Sound(p, o.a, o.b) && GoodTables(tables, o)
    ensures r == Remainder(o)
    ensures InType(o.t, r)
  {
    var w := o.t.bits;
    var bits := PowerOfTwo(o.b);
    if o.bIsConst && bits >= 0 {
      MaskRemainder(o, bits);
      r := if o.t.Int? then SignedBitwise(And, w, o.a, o.b - 1) else Bitwise(And, w, o.a, o.b - 1);
    } else if UsesSignedTable(o) || UsesUnsignedTable(o) {
      var q := LowerDiv(o, p, tables);
      RemainderByMultiplying(o);
      r := if o.t.Int? then Signed(w, o.a - Signed(w, q * o.b)) else Unsigned(w, o.a - Unsigned(w, q * o.b));
    } else if o.t.UInt? {
      r := LowerUnsignedMod(w, o.a, o.b, p.bNonzero);
    } else {
      r := LowerSignedMod(w, o.a, o.b, p);
    }
  }

  lemma MaskRemainder(o: Operands, k: nat)
    requires o.t.bits >= 1 && InType(o.t, o.a) && InType(o.t, o.b) && o.b == Pow2(k)
    ensures o.t.Int? ==> SignedBitwise(And, o.t.bits, o.a, o.b - 1) == o.a % o.b
    ensures o.t.UInt? ==> Bitwise(And, o.t.bits, o.a, o.b - 1) == o.a % o.b
    ensures InType(o.t, o.a % o.b)
  {
    var w := o.t.bits;
    ShiftInWidth(w, k);
    if o.t.UInt? {
      LowBits(w, o.a, k);
    } else {
      SignedFits(w, o.b - 1);
      LowBits(w, Unsigned(w, o.a), k);
      SignedLowBits(w, o.a, k);
      SignedFits(w, o.a % o.b);
    }
  }

  /** A signed word and its unsigned reading have the same low bits. */
  lemma SignedLowBits(w: nat, a: int, k: nat)
    requires w >= 1 && IsSigned(w, a) && k < w
    ensures Unsigned(w, a) % Pow2(k) == a % Pow2(k)
  {
    SignedFits(w, a);
    if a < 0 {
      Pow2Add(w - k, k);
      AddMultiple(a, Pow2(k), Pow2(w - k));
    }
  }

  lemma AddMultiple(a: int, d: int, c: int)
    requires d >= 1
    ensures (a + c * d) % d == a % d
  {
    DivModSplit(a, d);
    assert (a / d + c) * d == (a / d) * d + c * d;
    DivModIs(a + c * d, d, a / d + c, a % d);
  }

  lemma RemainderByMultiplying(o: Operands)
    requires o.t.bits >= 1 && InType(o.t, o.a) && InType(o.t, o.b) && o.b > 1
    ensures var w, q := o.t.bits, Quotient(o);
            && (o.t.Int? ==> Signed(w, o.a - Signed(w, q * o.b)) == o.a % o.b)
            && (o.t.UInt? ==> Unsigned(w, o.a - Unsigned(w, q * o.b)) == o.a % o.b)
    ensures InType(o.t, o.a % o.b)
  {
    var w, q, r := o.t.bits, o.a / o.b, o.a % o.b;
    assert o.a == q * o.b + r;
    if o.t.Int? {
      QuotientFits(w, o.a, o.b);
      WrapTwice(w, q * o.b);
      var k :| Signed(w, q * o.b) == q * o.b + k * Pow2(w);
      assert r == o.a - Signed(w, q * o.b) + k * Pow2(w);
      SameWord(w, r, o.a - Signed(w, q * o.b), k);
      SignedFits(w, r);
    } else {
      DivAtLeast(o.a, o.b, 0);
      assert 0 <= q * o.b <= o.a;
      UnsignedFits(w, q * o.b);
      UnsignedFits(w, r);
    }
  }
}
