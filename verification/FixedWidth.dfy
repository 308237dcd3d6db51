/** Two's complement arithmetic at an arbitrary width of `w` bits, on integers. */
module FixedWidth {
  import opened Arith

  function Pow2(n: nat): (p: nat)
    ensures p >= 1
  {
    if n == 0 then 1 else 2 * Pow2(n - 1)
  }

  lemma {:induction false} Pow2Add(m: nat, n: nat)
    ensures Pow2(m + n) == Pow2(m) * Pow2(n)
  {
    if m > 0 {
      Pow2Add(m - 1, n);
      assert 2 * (Pow2(m - 1) * Pow2(n)) == (2 * Pow2(m - 1)) * Pow2(n);
    }
  }

  lemma {:induction false} Pow2Order(m: nat, n: nat)
    requires m < n
    ensures Pow2(m) < Pow2(n) && 2 * Pow2(m) <= Pow2(n)
  {
    if m + 1 < n {
      Pow2Order(m, n - 1);
    }
  }

  predicate IsUnsigned(w: nat, x: int) {
    0 <= x < Pow2(w)
  }

  predicate IsSigned(w: nat, x: int)
    requires w >= 1
  {
    0 - Pow2(w - 1) <= x < Pow2(w - 1)
  }

  /** The value of a `w`-bit unsigned result. */
  function Unsigned(w: nat, x: int): (r: int)
    ensures IsUnsigned(w, r)
  {
    x % Pow2(w)
  }

  /** The value of a `w`-bit signed result. */
  function Signed(w: nat, x: int): (r: int)
    requires w >= 1
    ensures IsSigned(w, r)
  {
    var u := x % Pow2(w);
    if u < Pow2(w - 1) then u else u - Pow2(w)
  }

  lemma UnsignedFits(w: nat, x: int)
    requires IsUnsigned(w, x)
    ensures Unsigned(w, x) == x
  {
    DivModIs(x, Pow2(w), 0, x);
  }

  lemma SignedFits(w: nat, x: int)
    requires w >= 1 && IsSigned(w, x)
    ensures Signed(w, x) == x
    ensures Unsigned(w, x) == if x < 0 then x + Pow2(w) else x
  {
    if x < 0 {
      DivModIs(x, Pow2(w), -1, x + Pow2(w));
    } else {
      DivModIs(x, Pow2(w), 0, x);
    }
  }

  /** Values a multiple of 2^w apart are the same word. */
  lemma SameWord(w: nat, x: int, y: int, k: int)
    requires w >= 1 && x == y + k * Pow2(w)
    ensures Signed(w, x) == Signed(w, y) && Unsigned(w, x) == Unsigned(w, y)
  {
    SameRemainder(x, y, k, Pow2(w));
  }

  lemma SameRemainder(x: int, y: int, k: int, p: int)
    requires p >= 1 && x == y + k * p
    ensures x % p == y % p
  {
    var q, r := y / p, y % p;
    DivModSplit(y, p);
    assert (q + k) * p == q * p + k * p;
    DivModIs(x, p, q + k, r);
  }

  /** Arithmetic may wrap early or late: words are congruent to the values they stand for. */
  lemma WrapTwice(w: nat, x: int)
    requires w >= 1
    ensures exists k :: Signed(w, x) == x + k * Pow2(w)
    ensures Signed(w, Unsigned(w, x)) == Signed(w, x)
  {
    var p := Pow2(w);
    DivModSplit(x, p);
    var u := x % p;
    if u < Pow2(w - 1) {
      assert Signed(w, x) == x + (-(x / p)) * p;
    } else {
      assert Signed(w, x) == x + (-(x / p) - 1) * p;
    }
    DivModIs(u, p, 0, u);
  }

  lemma SignedAdd(w: nat, x: int, y: int)
    requires w >= 1
    ensures Signed(w, Signed(w, x) + y) == Signed(w, x + y)
  {
    WrapTwice(w, x);
    var k :| Signed(w, x) == x + k * Pow2(w);
    SameWord(w, Signed(w, x) + y, x + y, k);
  }

  lemma SignedMul(w: nat, x: int, y: int)
    requires w >= 1
    ensures Signed(w, Signed(w, x) * y) == Signed(w, x * y)
  {
    WrapTwice(w, x);
    var k :| Signed(w, x) == x + k * Pow2(w);
    SameWord(w, Signed(w, x) * y, x * y, k * y);
  }

  // ----- Bitwise operators -----

  datatype BitOp = And | Or | Xor

  function Bit(op: BitOp, x: int, y: int): (r: int)
    ensures 0 <= r <= 1
  {
    match op
    case And => if x == 1 && y == 1 then 1 else 0
    case Or => if x == 1 || y == 1 then 1 else 0
    case Xor => if x != y then 1 else 0
  }

  /** A bitwise operator on `w`-bit unsigned words, bit by bit. */
  function Bitwise(op: BitOp, w: nat, x: int, y: int): (r: int)
    ensures IsUnsigned(w, r)
  {
    if w == 0 then 0
    else 2 * Bitwise(op, w - 1, x / 2, y / 2) + Bit(op, x % 2, y % 2)
  }

  /** The same operator on signed words. */
  function SignedBitwise(op: BitOp, w: nat, x: int, y: int): (r: int)
    requires w >= 1
    ensures IsSigned(w, r)
  {
    Signed(w, Bitwise(op, w, Unsigned(w, x), Unsigned(w, y)))
  }

  /** The bitwise complement of a signed word. */
  function Complement(w: nat, x: int): (r: int)
    requires w >= 1
    ensures IsSigned(w, r)
  {
    SignedBitwise(Xor, w, x, -1)
  }

  lemma {:induction false} BitwiseZero(op: BitOp, w: nat, x: int)
    requires IsUnsigned(w, x)
    ensures Bitwise(op, w, x, 0) == if op == And then 0 else x
    ensures Bitwise(op, w, 0, x) == if op == And then 0 else x
  {
    if w > 0 {
      BitwiseZero(op, w - 1, x / 2);
    }
  }

  lemma {:induction false} BitwiseOnes(op: BitOp, w: nat, x: int)
    requires IsUnsigned(w, x)
    ensures Bitwise(op, w, x, Pow2(w) - 1)
            == match op case And => x case Or => Pow2(w) - 1 case Xor => Pow2(w) - 1 - x
    ensures Bitwise(op, w, Pow2(w) - 1, x) == Bitwise(op, w, x, Pow2(w) - 1)
  {
    if w > 0 {
      BitwiseOnes(op, w - 1, x / 2);
    }
  }

  /** Masking with all zeros or all ones. */
  lemma SignedMask(op: BitOp, w: nat, x: int)
    requires w >= 1 && IsSigned(w, x)
    ensures SignedBitwise(op, w, x, 0) == (if op == And then 0 else x)
    ensures SignedBitwise(op, w, 0, x) == (if op == And then 0 else x)
    ensures SignedBitwise(op, w, x, -1) == (match op case And => x case Or => -1 case Xor => -1 - x)
    ensures SignedBitwise(op, w, -1, x) == SignedBitwise(op, w, x, -1)
  {
    SignedFits(w, x);
    SignedFits(w, 0);
    SignedFits(w, -1);
    BitwiseZero(op, w, Unsigned(w, x));
    BitwiseOnes(op, w, Unsigned(w, x));
    WrapTwice(w, x);
    SignedOnes(op, w, x);
  }

  /** The all-ones results, read as signed words. */
  lemma SignedOnes(op: BitOp, w: nat, x: int)
    requires w >= 1 && IsSigned(w, x)
    ensures var u := Unsigned(w, x);
            Signed(w, match op case And => u case Or => Pow2(w) - 1 case Xor => Pow2(w) - 1 - u)
            == match op case And => x case Or => -1 case Xor => -1 - x
  {
    SignedFits(w, x);
    match op
    case And => WrapTwice(w, x);
    case Or =>
      SignedFits(w, -1);
      SameWord(w, Pow2(w) - 1, -1, 1);
    case Xor =>
      SignedFits(w, -1 - x);
      SameWord(w, Pow2(w) - 1 - Unsigned(w, x), -1 - x, if x < 0 then 0 else 1);
  }

  /** Shifting a signed word right by `w - 1` spreads its sign bit. */
  function SignMask(w: nat, x: int): int
    requires w >= 1
  {
    x / Pow2(w - 1)
  }

  lemma SignMaskIs(w: nat, x: int)
    requires w >= 1 && IsSigned(w, x)
    ensures SignMask(w, x) == if x < 0 then -1 else 0
  {
    var h := Pow2(w - 1);
    if x < 0 {
      DivModIs(x, h, -1, x + h);
    } else {
      DivModIs(x, h, 0, x);
    }
  }

  /** Setting a bit above which nothing is set adds it. */
  lemma {:induction false} OrBit(w: nat, q: int, s: nat)
    requires IsUnsigned(w, q) && s < w && q % Pow2(s + 1) == 0
    ensures Bitwise(Or, w, Pow2(s), q) == q + Pow2(s)
  {
    if s == 0 {
      assert q % 2 == 0;
      BitwiseZero(Or, w - 1, q / 2);
    } else {
      HalfMultiple(q, s);
      assert Pow2(s) / 2 == Pow2(s - 1) && Pow2(s) % 2 == 0;
      OrBit(w - 1, q / 2, s - 1);
    }
  }

  lemma HalfMultiple(q: int, s: nat)
    requires q % Pow2(s + 1) == 0
    ensures q % 2 == 0 && (q / 2) % Pow2(s) == 0
  {
    var p := Pow2(s);
    DivModSplit(q, 2 * p);
    var k := q / (2 * p);
    assert q == k * (2 * p) == (k * p) * 2 + 0;
    DivModIs(q, 2, k * p, 0);
    DivModIs(k * p, p, k, 0);
  }

  lemma {:induction false} OrOne(w: nat, x: int)
    requires w >= 1 && (x == 0 || x == -1)
    ensures SignedBitwise(Or, w, x, 1) == if w == 1 then -1 else if x == 0 then 1 else -1
  {
    SignedFits(w, x);
    if w == 1 {
      assert Pow2(0) == 1 && Pow2(1) == 2;
      assert Unsigned(1, 1) == 1;
      assert Bitwise(Or, 1, Unsigned(1, x), 1) == 1 by {
        assert Bitwise(Or, 0, Unsigned(1, x) / 2, 0) == 0;
      }
      assert Signed(1, 1) == -1;
    } else {
      Pow2Order(0, w - 1);
      SignedFits(w, 1);
      if x == 0 {
        BitwiseZero(Or, w, 1);
      } else {
        BitwiseOnes(Or, w, 1);
        SameWord(w, Pow2(w) - 1, -1, 1);
      }
    }
  }

  /** Keeping the low `k` bits is the remainder by 2^k. */
  lemma {:induction false} LowBits(w: nat, x: int, k: nat)
    requires IsUnsigned(w, x) && k <= w
    ensures Bitwise(And, w, x, Pow2(k) - 1) == x % Pow2(k)
  {
    if k == 0 {
      BitwiseZero(And, w, x);
      DivModIs(x, 1, x, 0);
    } else {
      LowBits(w - 1, x / 2, k - 1);
      LowBitsStep(w, x, Pow2(k - 1));
    }
  }

  lemma LowBitsStep(w: nat, x: int, p: int)
    requires w >= 1 && p >= 1 && Bitwise(And, w - 1, x / 2, p - 1) == x / 2 % p
    ensures Bitwise(And, w, x, 2 * p - 1) == x % (2 * p)
  {
    TwoDigits(x, p);
  }

  lemma TwoDigits(x: int, p: int)
    requires p >= 1
    ensures x % (2 * p) == 2 * ((x / 2) % p) + x % 2
  {
    var h := x / 2;
    var q, r := h / p, h % p;
    DivModSplit(h, p);
    assert (q * p) * 2 == q * (2 * p);
    DivModIs(x, 2 * p, q, 2 * r + x % 2);
  }
}
