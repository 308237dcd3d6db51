/** Where the elements of a strided buffer are, for any number of dimensions and strides of either sign. */
module BufferAddressing {
  import opened Arith
  import opened Word64

  datatype Dim = Dim(min: int, extent: int, stride: int)

  const INT_RANGE: int := 0x1_0000_0000

  predicate IsInt32(x: int) {
    -INT_RANGE / 2 <= x < INT_RANGE / 2
  }

  /** The value of a 32-bit product; where C leaves an overflow undefined, it wraps around. */
  function Int32(x: int): (r: int)
    ensures IsInt32(r)
    ensures IsInt32(x) ==> r == x
  {
    var low := x % INT_RANGE;
    if low < INT_RANGE / 2 then low else low - INT_RANGE
  }

  predicate Fields(d: Dim) {
    IsInt32(d.min) && IsInt32(d.extent) && IsInt32(d.stride)
  }

  // ----- Sums and products -----

  function Sum(s: seq<int>): int {
    if s == [] then 0 else Sum(s[..|s| - 1]) + s[|s| - 1]
  }

  function Product(s: seq<int>): int {
    if s == [] then 1 else Product(s[..|s| - 1]) * s[|s| - 1]
  }

  function Remove<T>(s: seq<T>, k: nat): (r: seq<T>)
    requires k < |s|
    ensures |r| == |s| - 1
  {
    s[..k] + s[k + 1..]
  }

  lemma RemoveAt<T>(s: seq<T>, k: nat, i: nat)
    requires k < |s| && i < |s| - 1
    ensures Remove(s, k)[i] == s[if i < k then i else i + 1]
  {
  }

  function Insert<T>(s: seq<T>, k: nat, x: T): (r: seq<T>)
    requires k <= |s|
    ensures |r| == |s| + 1 && r[k] == x && Remove(r, k) == s
  {
    var r := s[..k] + [x] + s[k..];
    assert r[..k] == s[..k] && r[k + 1..] == s[k..];
    r
  }

  lemma {:induction false} SumRemove(s: seq<int>, k: nat)
    requires k < |s|
    ensures Sum(s) == Sum(Remove(s, k)) + s[k]
  {
    var n := |s| - 1;
    if k == n {
      assert Remove(s, k) == s[..n];
    } else {
      assert Remove(s, k)[..n - 1] == Remove(s[..n], k);
      SumRemove(s[..n], k);
    }
  }

  lemma {:induction false} ProductRemove(s: seq<int>, k: nat)
    requires k < |s|
    ensures Product(s) == Product(Remove(s, k)) * s[k]
  {
    var n := |s| - 1;
    if k == n {
      assert Remove(s, k) == s[..n];
    } else {
      assert Remove(s, k)[..n - 1] == Remove(s[..n], k);
      ProductRemove(s[..n], k);
      var p := Product(Remove(s[..n], k));
      assert (p * s[k]) * s[n] == (p * s[n]) * s[k];
    }
  }

  // ----- Offsets, in elements -----

  function Term(d: Dim, p: int): int {
    d.stride * (p - d.min)
  }

  function LowTerm(d: Dim): int {
    if d.stride < 0 then d.stride * (d.extent - 1) else 0
  }

  function HighTerm(d: Dim): int {
    if d.stride > 0 then d.stride * (d.extent - 1) else 0
  }

  function LowTerms(dims: seq<Dim>): (r: seq<int>)
    ensures |r| == |dims| && forall i :: 0 <= i < |dims| ==> r[i] == LowTerm(dims[i])
  {
    seq(|dims|, i requires 0 <= i < |dims| => LowTerm(dims[i]))
  }

  function HighTerms(dims: seq<Dim>): (r: seq<int>)
    ensures |r| == |dims| && forall i :: 0 <= i < |dims| ==> r[i] == HighTerm(dims[i])
  {
    seq(|dims|, i requires 0 <= i < |dims| => HighTerm(dims[i]))
  }

  function Extents(dims: seq<Dim>): (r: seq<int>)
    ensures |r| == |dims| && forall i :: 0 <= i < |dims| ==> r[i] == dims[i].extent
  {
    seq(|dims|, i requires 0 <= i < |dims| => dims[i].extent)
  }

  function Terms(dims: seq<Dim>, pos: seq<int>): (r: seq<int>)
    requires |pos| == |dims|
    ensures |r| == |dims| && forall i :: 0 <= i < |dims| ==> r[i] == Term(dims[i], pos[i])
  {
    seq(|dims|, i requires 0 <= i < |dims| => Term(dims[i], pos[i]))
  }

  function Offset(dims: seq<Dim>, pos: seq<int>): int
    requires |pos| == |dims|
  {
    Sum(Terms(dims, pos))
  }

  function Lowest(dims: seq<Dim>): int {
    Sum(LowTerms(dims))
  }

  function Highest(dims: seq<Dim>): int {
    Sum(HighTerms(dims))
  }

  function Volume(dims: seq<Dim>): int {
    Product(Extents(dims))
  }

  predicate Inhabited(dims: seq<Dim>) {
    forall i :: 0 <= i < |dims| ==> dims[i].extent >= 1
  }

  predicate InBounds(dims: seq<Dim>, pos: seq<int>) {
    |pos| == |dims| && forall i :: 0 <= i < |dims| ==> dims[i].min <= pos[i] < dims[i].min + dims[i].extent
  }

  lemma TermBounds(d: Dim, p: int)
    requires d.min <= p < d.min + d.extent
    ensures LowTerm(d) <= Term(d, p) <= HighTerm(d)
  {
    var q, n := p - d.min, d.extent - 1;
    if d.stride > 0 {
      ScaledBetween(d.stride, q, n);
    } else {
      ScaledBetween(-d.stride, q, n);
    }
  }

  lemma ScaledBetween(s: int, q: int, n: int)
    requires s >= 0 && 0 <= q <= n
    ensures 0 <= s * q <= s * n
  {
    assert s * n == s * q + s * (n - q);
  }

  lemma {:induction false} SumOrder(a: seq<int>, b: seq<int>)
    requires |a| == |b| && forall i :: 0 <= i < |a| ==> a[i] <= b[i]
    ensures Sum(a) <= Sum(b)
  {
    if a != [] {
      SumOrder(a[..|a| - 1], b[..|b| - 1]);
    }
  }

  /** Positions in bounds lie between the two ends. */
  lemma OffsetBounds(dims: seq<Dim>, pos: seq<int>)
    requires InBounds(dims, pos)
    ensures Lowest(dims) <= Offset(dims, pos) <= Highest(dims)
  {
    forall i | 0 <= i < |dims| ensures LowTerm(dims[i]) <= Term(dims[i], pos[i]) <= HighTerm(dims[i]) {
      TermBounds(dims[i], pos[i]);
    }
    SumOrder(LowTerms(dims), Terms(dims, pos));
    SumOrder(Terms(dims, pos), HighTerms(dims));
  }

  function Corner(dims: seq<Dim>, low: bool): (pos: seq<int>)
    requires Inhabited(dims)
    ensures InBounds(dims, pos)
  {
    seq(|dims|, i requires 0 <= i < |dims| =>
      if (dims[i].stride < 0) == low then dims[i].min + dims[i].extent - 1 else dims[i].min)
  }

  /** Some position in bounds has the offset. */
  ghost predicate Attained(dims: seq<Dim>, offset: int) {
    exists pos {:trigger InBounds(dims, pos)} :: InBounds(dims, pos) && Offset(dims, pos) == offset
  }

  /** Both ends are attained. */
  lemma EndsAttained(dims: seq<Dim>)
    requires Inhabited(dims)
    ensures Attained(dims, Lowest(dims)) && Attained(dims, Highest(dims))
  {
    var a, b := Corner(dims, true), Corner(dims, false);
    forall i | 0 <= i < |dims|
      ensures Term(dims[i], a[i]) == LowTerm(dims[i]) && Term(dims[i], b[i]) == HighTerm(dims[i])
    {
    }
    assert Terms(dims, a) == LowTerms(dims) && Terms(dims, b) == HighTerms(dims);
    assert InBounds(dims, a) && InBounds(dims, b);
  }

  // ----- Dense buffers -----

  /**
   In some order of the dimensions, each stride is, up to its sign, the number of elements in the dimensions
   before it; a dimension of one position may have any stride.
   */
  ghost predicate Dense(dims: seq<Dim>)
    decreases |dims|
  {
    dims == [] || exists k: nat {:trigger Outermost(dims, k)} :: Outermost(dims, k) && Dense(Remove(dims, k))
  }

  predicate Outermost(dims: seq<Dim>, k: nat) {
    && k < |dims|
    && (|| dims[k].extent == 1
        || dims[k].stride == Volume(Remove(dims, k))
        || dims[k].stride == -Volume(Remove(dims, k)))
  }

  /** The offset from the lowest element. */
  function Place(dims: seq<Dim>, pos: seq<int>): int
    requires |pos| == |dims|
  {
    Offset(dims, pos) - Lowest(dims)
  }

  /** How far along a dimension a position is from its low end. */
  function Digit(d: Dim, p: int): int {
    if d.stride < 0 then d.extent - 1 - (p - d.min) else p - d.min
  }

  lemma TermsRemove(dims: seq<Dim>, pos: seq<int>, k: nat)
    requires |pos| == |dims| && k < |dims|
    ensures Offset(dims, pos) == Offset(Remove(dims, k), Remove(pos, k)) + Term(dims[k], pos[k])
  {
    SumRemove(Terms(dims, pos), k);
    SameTerms(dims, pos, k);
  }

  lemma SameTerms(dims: seq<Dim>, pos: seq<int>, k: nat)
    requires |pos| == |dims| && k < |dims|
    ensures Terms(Remove(dims, k), Remove(pos, k)) == Remove(Terms(dims, pos), k)
  {
    var a, b := Terms(Remove(dims, k), Remove(pos, k)), Remove(Terms(dims, pos), k);
    forall i | 0 <= i < |dims| - 1 ensures a[i] == b[i] {
      RemoveAt(dims, k, i);
      RemoveAt(pos, k, i);
      RemoveAt(Terms(dims, pos), k, i);
    }
  }

  lemma LowestRemove(dims: seq<Dim>, k: nat)
    requires k < |dims|
    ensures Lowest(dims) == Lowest(Remove(dims, k)) + LowTerm(dims[k])
  {
    SumRemove(LowTerms(dims), k);
    forall i | 0 <= i < |dims| - 1 ensures LowTerms(Remove(dims, k))[i] == Remove(LowTerms(dims), k)[i] {
      RemoveAt(dims, k, i);
      RemoveAt(LowTerms(dims), k, i);
    }
    assert LowTerms(Remove(dims, k)) == Remove(LowTerms(dims), k);
  }

  lemma HighestRemove(dims: seq<Dim>, k: nat)
    requires k < |dims|
    ensures Highest(dims) == Highest(Remove(dims, k)) + HighTerm(dims[k])
  {
    SumRemove(HighTerms(dims), k);
    forall i | 0 <= i < |dims| - 1 ensures HighTerms(Remove(dims, k))[i] == Remove(HighTerms(dims), k)[i] {
      RemoveAt(dims, k, i);
      RemoveAt(HighTerms(dims), k, i);
    }
    assert HighTerms(Remove(dims, k)) == Remove(HighTerms(dims), k);
  }

  lemma VolumeRemove(dims: seq<Dim>, k: nat)
    requires k < |dims|
    ensures Volume(dims) == Volume(Remove(dims, k)) * dims[k].extent
  {
    ProductRemove(Extents(dims), k);
    forall i | 0 <= i < |dims| - 1 ensures Extents(Remove(dims, k))[i] == Remove(Extents(dims), k)[i] {
      RemoveAt(dims, k, i);
      RemoveAt(Extents(dims), k, i);
    }
    assert Extents(Remove(dims, k)) == Remove(Extents(dims), k);
  }

  /** The place is a number in mixed radix whose leading digit is the position in the outermost dimension. */
  lemma PlaceSplits(dims: seq<Dim>, pos: seq<int>, k: nat)
    requires InBounds(dims, pos) && Outermost(dims, k)
    ensures Place(dims, pos) ==
              Digit(dims[k], pos[k]) * Volume(Remove(dims, k)) + Place(Remove(dims, k), Remove(pos, k))
  {
    TermsRemove(dims, pos, k);
    LowestRemove(dims, k);
    VolumePositive(Remove(dims, k));
    DigitTerm(dims[k], pos[k], Volume(Remove(dims, k)));
  }

  lemma {:induction false} VolumePositive(dims: seq<Dim>)
    requires Inhabited(dims)
    ensures Volume(dims) >= 1
  {
    if dims != [] {
      var n := |dims| - 1;
      assert Remove(dims, n) == dims[..n];
      VolumePositive(dims[..n]);
      VolumeRemove(dims, n);
      MulAtLeast(dims[n].extent, Volume(dims[..n]));
      assert Volume(dims[..n]) * dims[n].extent == dims[n].extent * Volume(dims[..n]);
    }
  }

  lemma DigitTerm(d: Dim, p: int, v: int)
    requires d.min <= p < d.min + d.extent && v >= 1
    requires d.extent == 1 || d.stride == v || d.stride == -v
    ensures Term(d, p) - LowTerm(d) == Digit(d, p) * v
    ensures HighTerm(d) - LowTerm(d) == (d.extent - 1) * v
    ensures 0 <= Digit(d, p) < d.extent
  {
    var q, n := p - d.min, d.extent - 1;
    if d.extent > 1 && d.stride < 0 {
      assert d.stride * q - d.stride * n == (n - q) * v;
    }
  }

  lemma RestInBounds(dims: seq<Dim>, pos: seq<int>, k: nat)
    requires InBounds(dims, pos) && k < |dims|
    ensures InBounds(Remove(dims, k), Remove(pos, k))
  {
    forall i | 0 <= i < |dims| - 1
      ensures Remove(dims, k)[i].min <= Remove(pos, k)[i] < Remove(dims, k)[i].min + Remove(dims, k)[i].extent
    {
      RemoveAt(dims, k, i);
      RemoveAt(pos, k, i);
    }
  }

  lemma RestInhabited(dims: seq<Dim>, k: nat)
    requires Inhabited(dims) && k < |dims|
    ensures Inhabited(Remove(dims, k)) && Volume(Remove(dims, k)) >= 1
  {
    forall i | 0 <= i < |dims| - 1 ensures Remove(dims, k)[i].extent >= 1 {
      RemoveAt(dims, k, i);
    }
    VolumePositive(Remove(dims, k));
  }

  /** The places run from 0 to the volume, which is the distance between the ends. */
  ghost predicate Fills(dims: seq<Dim>) {
    && Highest(dims) - Lowest(dims) + 1 == Volume(dims)
    && forall pos {:trigger PlacedAt(dims, pos)} :: InBounds(dims, pos) ==> PlacedAt(dims, pos)
  }

  predicate PlacedAt(dims: seq<Dim>, pos: seq<int>)
    requires InBounds(dims, pos)
  {
    0 <= Place(dims, pos) < Volume(dims)
  }

  lemma {:induction false} DenseFills(dims: seq<Dim>)
    requires Dense(dims) && Inhabited(dims)
    ensures Fills(dims)
    decreases |dims|
  {
    if dims == [] {
      forall pos | InBounds(dims, pos) ensures PlacedAt(dims, pos) {
      }
    } else {
      var k: nat :| Outermost(dims, k) && Dense(Remove(dims, k));
      RestInhabited(dims, k);
      DenseFills(Remove(dims, k));
      FillsStep(dims, k);
    }
  }

  lemma FillsStep(dims: seq<Dim>, k: nat)
    requires Inhabited(dims) && Outermost(dims, k) && Fills(Remove(dims, k))
    ensures Fills(dims)
  {
    var v := Volume(Remove(dims, k));
    RestInhabited(dims, k);
    LowestRemove(dims, k);
    HighestRemove(dims, k);
    VolumeRemove(dims, k);
    DigitTerm(dims[k], dims[k].min, v);
    assert (dims[k].extent - 1) * v == v * dims[k].extent - v;
    forall pos | InBounds(dims, pos) ensures PlacedAt(dims, pos) {
      PlaceInRange(dims, pos, k);
    }
  }

  lemma PlaceInRange(dims: seq<Dim>, pos: seq<int>, k: nat)
    requires InBounds(dims, pos) && Inhabited(dims) && Outermost(dims, k) && Fills(Remove(dims, k))
    ensures PlacedAt(dims, pos)
  {
    var rest, v := Remove(dims, k), Volume(Remove(dims, k));
    RestInBounds(dims, pos, k);
    RestInhabited(dims, k);
    assert PlacedAt(rest, Remove(pos, k));
    PlaceSplits(dims, pos, k);
    DigitTerm(dims[k], pos[k], v);
    VolumeRemove(dims, k);
    MixedRadix(Digit(dims[k], pos[k]), dims[k].extent, v, Place(rest, Remove(pos, k)));
    assert v * dims[k].extent == dims[k].extent * v;
  }

  /** Different positions of a dense buffer have different places. */
  lemma {:induction false} DenseInjective(dims: seq<Dim>, p: seq<int>, q: seq<int>)
    requires Dense(dims) && Inhabited(dims) && InBounds(dims, p) && InBounds(dims, q)
             && Place(dims, p) == Place(dims, q)
    ensures p == q
    decreases |dims|
  {
    if dims != [] {
      var k: nat :| Outermost(dims, k) && Dense(Remove(dims, k));
      RestInhabited(dims, k);
      DenseFills(Remove(dims, k));
      SameDigits(dims, p, q, k);
      DenseInjective(Remove(dims, k), Remove(p, k), Remove(q, k));
      RemoveInjective(p, q, k);
    }
  }

  lemma SameDigits(dims: seq<Dim>, p: seq<int>, q: seq<int>, k: nat)
    requires InBounds(dims, p) && InBounds(dims, q) && Inhabited(dims) && Outermost(dims, k) && Fills(Remove(dims, k))
    requires Place(dims, p) == Place(dims, q)
    ensures InBounds(Remove(dims, k), Remove(p, k)) && InBounds(Remove(dims, k), Remove(q, k))
    ensures p[k] == q[k] && Place(Remove(dims, k), Remove(p, k)) == Place(Remove(dims, k), Remove(q, k))
  {
    var rest, v := Remove(dims, k), Volume(Remove(dims, k));
    RestInBounds(dims, p, k);
    RestInBounds(dims, q, k);
    assert PlacedAt(rest, Remove(p, k)) && PlacedAt(rest, Remove(q, k));
    RestInhabited(dims, k);
    PlaceSplits(dims, p, k);
    PlaceSplits(dims, q, k);
    UniqueQuotient(v, Digit(dims[k], p[k]), Place(rest, Remove(p, k)), Digit(dims[k], q[k]), Place(rest, Remove(q, k)));
  }

  lemma RemoveInjective(p: seq<int>, q: seq<int>, k: nat)
    requires |p| == |q| && k < |p| && p[k] == q[k] && Remove(p, k) == Remove(q, k)
    ensures p == q
  {
    forall i | 0 <= i < |p| ensures p[i] == q[i] {
      if i != k {
        RemoveAt(p, k, if i < k then i else i - 1);
        RemoveAt(q, k, if i < k then i else i - 1);
      }
    }
  }

  /** Every place of a dense buffer has a position. */
  lemma {:induction false} DenseSurjective(dims: seq<Dim>, place: int) returns (pos: seq<int>)
    requires Dense(dims) && Inhabited(dims) && 0 <= place < Volume(dims)
    ensures InBounds(dims, pos) && Place(dims, pos) == place
    decreases |dims|
  {
    if dims == [] {
      pos := [];
    } else {
      var k: nat :| Outermost(dims, k) && Dense(Remove(dims, k));
      RestInhabited(dims, k);
      VolumeRemove(dims, k);
      DigitInRange(place, Volume(Remove(dims, k)), dims[k].extent);
      var inner := DenseSurjective(Remove(dims, k), place % Volume(Remove(dims, k)));
      pos := PutDigit(dims, inner, k, place);
    }
  }

  lemma PutDigit(dims: seq<Dim>, inner: seq<int>, k: nat, place: int) returns (pos: seq<int>)
    requires Inhabited(dims) && Outermost(dims, k) && InBounds(Remove(dims, k), inner)
    requires Volume(Remove(dims, k)) >= 1 && 0 <= place / Volume(Remove(dims, k)) < dims[k].extent
    requires Place(Remove(dims, k), inner) == place % Volume(Remove(dims, k))
    ensures InBounds(dims, pos) && Place(dims, pos) == place
  {
    var d, v := dims[k], Volume(Remove(dims, k));
    var digit := place / v;
    pos := Insert(inner, k, if d.stride < 0 then d.min + d.extent - 1 - digit else d.min + digit);
    InsertInBounds(dims, inner, k, pos[k]);
    PlaceSplits(dims, pos, k);
    DivModSplit(place, v);
  }

  lemma InsertInBounds(dims: seq<Dim>, inner: seq<int>, k: nat, x: int)
    requires k < |dims| && InBounds(Remove(dims, k), inner) && dims[k].min <= x < dims[k].min + dims[k].extent
    ensures InBounds(dims, Insert(inner, k, x))
  {
    var pos := Insert(inner, k, x);
    forall i | 0 <= i < |dims| ensures dims[i].min <= pos[i] < dims[i].min + dims[i].extent {
      if i != k {
        var j := if i < k then i else i - 1;
        RemoveAt(dims, k, j);
        RemoveAt(pos, k, j);
      }
    }
  }

  lemma DigitInRange(place: int, v: int, e: int)
    requires v >= 1 && 0 <= place < v * e
    ensures 0 <= place / v < e && 0 <= place % v < v
  {
    DivAtLeast(place, v, e);
    DivAtLeast(place, v, 0);
    assert e * v == v * e;
  }

  /** The whole element at a position in bounds lies between the two end addresses. */
  lemma ElementInside(dims: seq<Dim>, pos: seq<int>, host: int, bytes: nat)
    requires InBounds(dims, pos)
    ensures host + Lowest(dims) * bytes <= host + Offset(dims, pos) * bytes
    ensures host + Offset(dims, pos) * bytes + bytes <= host + (Highest(dims) + 1) * bytes
  {
    OffsetBounds(dims, pos);
    MulMonotone(Lowest(dims), Offset(dims, pos), bytes);
    MulMonotone(Offset(dims, pos), Highest(dims), bytes);
  }

  lemma MulMonotone(a: int, b: int, n: nat)
    requires a <= b
    ensures a * n <= b * n && (a + 1) * n == a * n + n && (b + 1) * n == b * n + n
  {
    assert b * n - a * n == (b - a) * n;
  }

  /** There is a position in bounds with the given place, and only one. */
  ghost predicate OnePosition(dims: seq<Dim>, place: int) {
    && (exists pos {:trigger InBounds(dims, pos)} :: InBounds(dims, pos) && Place(dims, pos) == place)
    && (forall p, q {:trigger InBounds(dims, p), InBounds(dims, q)} ::
          InBounds(dims, p) && InBounds(dims, q) && Place(dims, p) == Place(dims, q) == place ==> p == q)
  }

  /**
   The positions of a dense buffer, whatever the order and signs of its strides, match one to one the element
   slots from its lowest to its highest address; there are as many as the extents multiply to, and the size in
   bytes is their number times the size of an element.
   */
  lemma DenseIsExact(dims: seq<Dim>, bytes: nat)
    requires Dense(dims) && Inhabited(dims)
    ensures forall place {:trigger OnePosition(dims, place)} :: 0 <= place < Volume(dims) ==> OnePosition(dims, place)
    ensures forall pos {:trigger InBounds(dims, pos)} :: InBounds(dims, pos) ==> 0 <= Place(dims, pos) < Volume(dims)
    ensures Wrap((Highest(dims) - Lowest(dims) + 1) * bytes) == Wrap(Wrap(Volume(dims)) * bytes)
  {
    DenseFills(dims);
    forall pos | InBounds(dims, pos) ensures 0 <= Place(dims, pos) < Volume(dims) {
      assert PlacedAt(dims, pos);
    }
    forall place | 0 <= place < Volume(dims) ensures OnePosition(dims, place) {
      var pos := DenseSurjective(dims, place);
      forall p, q | InBounds(dims, p) && InBounds(dims, q) && Place(dims, p) == Place(dims, q) == place ensures p == q {
        DenseInjective(dims, p, q);
      }
    }
    WrapTimes(Volume(dims), bytes);
  }

  // ----- What the methods compute -----

  function Low32(d: Dim): int {
    if d.stride < 0 then Int32(d.stride * Int32(d.extent - 1)) else 0
  }

  function High32(d: Dim): int {
    if d.stride > 0 then Int32(d.stride * Int32(d.extent - 1)) else 0
  }

  function Term32(d: Dim, p: int): int {
    Int32(d.stride * Int32(p - d.min))
  }

  /** The extreme offsets of the dimension fit into 32 bits. */
  predicate Fits(d: Dim) {
    IsInt32(LowTerm(d)) && IsInt32(HighTerm(d))
  }

  ghost predicate AllFit(dims: seq<Dim>) {
    forall i :: 0 <= i < |dims| ==> Fits(dims[i])
  }

  lemma Low32Exact(d: Dim)
    requires Fields(d) && d.extent >= 1
    ensures Low32(d) >= LowTerm(d) && (Low32(d) == LowTerm(d) <==> IsInt32(LowTerm(d)))
    ensures High32(d) <= HighTerm(d) && (High32(d) == HighTerm(d) <==> IsInt32(HighTerm(d)))
  {
    assert Int32(d.extent - 1) == d.extent - 1;
    LowTermSigns(d);
    Int32Moves(LowTerm(d));
    Int32Moves(HighTerm(d));
  }

  lemma LowTermSigns(d: Dim)
    requires d.extent >= 1
    ensures LowTerm(d) <= 0 <= HighTerm(d)
  {
    TermBounds(d, d.min);
    assert Term(d, d.min) == 0;
  }

  /** Wrapping brings a value that is too large down and one that is too small up. */
  lemma Int32Moves(x: int)
    ensures x >= 0 ==> Int32(x) <= x
    ensures x <= 0 ==> Int32(x) >= x
    ensures Int32(x) == x <==> IsInt32(x)
  {
  }

  lemma Term32Exact(d: Dim, p: int)
    requires Fields(d) && Fits(d) && d.min <= p < d.min + d.extent
    ensures Term32(d, p) == Term(d, p)
  {
    TermBounds(d, p);
  }

  function Terms32(dims: seq<Dim>, pos: seq<int>): (r: seq<int>)
    requires |pos| == |dims|
    ensures |r| == |dims| && forall i :: 0 <= i < |dims| ==> r[i] == Term32(dims[i], pos[i])
  {
    seq(|dims|, i requires 0 <= i < |dims| => Term32(dims[i], pos[i]))
  }

  /** The offset as the code sums it up. */
  function Offset32(dims: seq<Dim>, pos: seq<int>): int
    requires |pos| == |dims|
  {
    Sum(Terms32(dims, pos))
  }

  lemma ExactWhenAllFit(dims: seq<Dim>, pos: seq<int>)
    requires (forall i :: 0 <= i < |dims| ==> Fields(dims[i])) && AllFit(dims) && InBounds(dims, pos)
    ensures Offset32(dims, pos) == Offset(dims, pos)
  {
    forall i | 0 <= i < |dims| ensures Terms32(dims, pos)[i] == Terms(dims, pos)[i] {
      Term32Exact(dims[i], pos[i]);
    }
    assert Terms32(dims, pos) == Terms(dims, pos);
  }

  /** The position at one end of dimension `k` and at the start of the others. */
  ghost function Extreme(dims: seq<Dim>, k: nat): (pos: seq<int>)
    requires k < |dims|
    ensures |pos| == |dims| && forall i :: 0 <= i < |dims| && i != k ==> pos[i] == dims[i].min
    ensures pos[k] == dims[k].min + dims[k].extent - 1
  {
    seq(|dims|, i requires 0 <= i < |dims| => dims[i].min + if i == k then dims[i].extent - 1 else 0)
  }

  /** A dimension that does not fit puts an element at a wrong offset. */
  lemma MisplacedWhenUnfit(dims: seq<Dim>, k: nat)
    requires (forall i :: 0 <= i < |dims| ==> Fields(dims[i])) && Inhabited(dims) && k < |dims| && !Fits(dims[k])
    ensures InBounds(dims, Extreme(dims, k)) && Offset32(dims, Extreme(dims, k)) != Offset(dims, Extreme(dims, k))
  {
    var pos := Extreme(dims, k);
    var exact, wrapped := Terms(dims, pos), Terms32(dims, pos);
    forall i | 0 <= i < |dims| && i != k ensures exact[i] == 0 == wrapped[i] {
    }
    assert exact[k] == dims[k].stride * (dims[k].extent - 1) && !IsInt32(exact[k]) && wrapped[k] == Int32(exact[k]);
    assert Remove(exact, k) == Remove(wrapped, k);
    SumRemove(exact, k);
    SumRemove(wrapped, k);
  }

  /** The last position of the dimension is an `int` too. */
  predicate LastFits(d: Dim) {
    IsInt32(d.min + d.extent - 1)
  }

  /** A position as the caller passes it. */
  predicate IsPosition(pos: seq<int>) {
    forall i :: 0 <= i < |pos| ==> IsInt32(pos[i])
  }

  /** Every element is addressed exactly if and only if the extreme offsets of each dimension fit. */
  lemma ExactExactlyWhenAllFit(dims: seq<Dim>)
    requires (forall i :: 0 <= i < |dims| ==> Fields(dims[i]) && LastFits(dims[i])) && Inhabited(dims)
    ensures AllFit(dims) <==>
              forall pos :: InBounds(dims, pos) && IsPosition(pos) ==> Offset32(dims, pos) == Offset(dims, pos)
  {
    if AllFit(dims) {
      forall pos | InBounds(dims, pos) && IsPosition(pos) ensures Offset32(dims, pos) == Offset(dims, pos) {
        ExactWhenAllFit(dims, pos);
      }
    } else {
      var k :| 0 <= k < |dims| && !Fits(dims[k]);
      MisplacedWhenUnfit(dims, k);
    }
  }

  class HalideBuffer {
    var host: int
    var bits: nat
    var dimensions: nat
    var dim: array<Dim>

    predicate Valid()
      reads this, dim
    {
      dimensions <= dim.Length && forall i :: 0 <= i < dimensions ==> Fields(dim[i])
    }

    function Dims(): seq<Dim>
      requires Valid()
      reads this, dim
    {
      dim[..dimensions]
    }

    /** `halide_type_t::bytes`: the fewest bytes that hold the bits. */
    function Bytes(): (r: nat)
      reads this
      ensures 8 * r >= bits && (bits > 0 ==> 8 * (r - 1) < bits) && (bits == 0 ==> r == 0)
    {
      (bits + 7) / 8
    }

    constructor (host: int, bits: nat, dim: array<Dim>)
      requires forall i :: 0 <= i < dim.Length ==> Fields(dim[i])
      ensures Valid() && this.host == host && this.bits == bits && this.dim == dim && dimensions == dim.Length
    {
      this.host, this.bits, this.dim, dimensions := host, bits, dim, dim.Length;
    }

    method NumberOfElements() returns (s: int)
      requires Valid()
      ensures s == Wrap(Volume(Dims()))
    {
      s := 1;
      for i := 0 to dimensions
        invariant s == Wrap(Product(Extents(Dims())[..i]))
      {
        var extents := Extents(Dims());
        assert extents[..i + 1][..i] == extents[..i];
        WrapTimes(Product(extents[..i]), dim[i].extent);
        s := Wrap(s * dim[i].extent);
      }
      assert Extents(Dims())[..dimensions] == Extents(Dims());
    }

    /** Exact when every product fits, and too high otherwise. */
    method Begin() returns (p: int)
      requires Valid()
      ensures Inhabited(Dims()) ==> p >= host + Lowest(Dims()) * Bytes()
      ensures Inhabited(Dims()) && bits > 0 ==>
                (p == host + Lowest(Dims()) * Bytes() <==> forall i :: 0 <= i < dimensions ==> IsInt32(LowTerm(dim[i])))
    {
      var index := 0;
      ghost var terms := LowTerms(Dims());
      ghost var lost := 0;
      for i := 0 to dimensions
        invariant index == Sum(terms[..i]) + lost
        invariant Inhabited(Dims()) ==>
                    lost >= 0 && (lost == 0 <==> forall k :: 0 <= k < i ==> IsInt32(LowTerm(dim[k])))
      {
        assert terms[..i + 1][..i] == terms[..i];
        if Inhabited(Dims()) {
          assert Dims()[i].extent >= 1;
          Low32Exact(dim[i]);
        }
        lost := lost + Low32(dim[i]) - LowTerm(dim[i]);
        if dim[i].stride < 0 {
          index := index + Int32(dim[i].stride * Int32(dim[i].extent - 1));
        }
      }
      assert terms[..dimensions] == terms;
      p := host + index * Bytes();
      Scale(Lowest(Dims()), lost, Bytes());
    }

    /** Exact when every product fits, and too low otherwise. */
    method End() returns (p: int)
      requires Valid()
      ensures Inhabited(Dims()) ==> p <= host + (Highest(Dims()) + 1) * Bytes()
      ensures Inhabited(Dims()) && bits > 0 ==>
                (p == host + (Highest(Dims()) + 1) * Bytes() <==>
                  forall i :: 0 <= i < dimensions ==> IsInt32(HighTerm(dim[i])))
    {
      var index := 0;
      ghost var terms := HighTerms(Dims());
      ghost var lost := 0;
      for i := 0 to dimensions
        invariant index == Sum(terms[..i]) + lost
        invariant Inhabited(Dims()) ==>
                    lost <= 0 && (lost == 0 <==> forall k :: 0 <= k < i ==> IsInt32(HighTerm(dim[k])))
      {
        assert terms[..i + 1][..i] == terms[..i];
        if Inhabited(Dims()) {
          assert Dims()[i].extent >= 1;
          Low32Exact(dim[i]);
        }
        lost := lost + High32(dim[i]) - HighTerm(dim[i]);
        if dim[i].stride > 0 {
          index := index + Int32(dim[i].stride * Int32(dim[i].extent - 1));
        }
      }
      assert terms[..dimensions] == terms;
      index := index + 1;
      p := host + index * Bytes();
      Scale(Highest(Dims()) + 1, lost, Bytes());
    }

    method SizeInBytes() returns (n: int)
      requires Valid()
      ensures Inhabited(Dims()) && AllFit(Dims()) && bits > 0 ==>
                n == Wrap((Highest(Dims()) - Lowest(Dims()) + 1) * Bytes())
    {
      var end := End();
      var begin := Begin();
      n := Wrap(end - begin);
      assert (Highest(Dims()) + 1) * Bytes() - Lowest(Dims()) * Bytes()
          == (Highest(Dims()) - Lowest(Dims()) + 1) * Bytes();
      assert AllFit(Dims()) ==> forall i :: 0 <= i < dimensions ==> dim[i] == Dims()[i];
    }

    /** By `ExactExactlyWhenAllFit`, the right address for every element in bounds exactly when all products fit. */
    method AddressOf(pos: array<int>) returns (p: int)
      requires Valid() && pos.Length == dimensions
      ensures p == host + Offset32(Dims(), pos[..]) * Bytes()
      ensures InBounds(Dims(), pos[..]) && AllFit(Dims()) ==> p == host + Offset(Dims(), pos[..]) * Bytes()
    {
      var index := 0;
      ghost var terms := Terms32(Dims(), pos[..]);
      for i := 0 to dimensions
        invariant index == Sum(terms[..i])
      {
        assert terms[..i + 1][..i] == terms[..i];
        assert terms[i] == Term32(dim[i], pos[i]);
        index := index + Int32(dim[i].stride * Int32(pos[i] - dim[i].min));
      }
      assert terms[..dimensions] == terms;
      p := host + index * Bytes();
      if InBounds(Dims(), pos[..]) && AllFit(Dims()) {
        ExactWhenAllFit(Dims(), pos[..]);
      }
    }
  }

  lemma Scale(x: int, lost: int, bytes: nat)
    ensures (x + lost) * bytes == x * bytes + lost * bytes
    ensures lost >= 0 ==> lost * bytes >= 0
    ensures lost <= 0 ==> lost * bytes <= 0
    ensures bytes > 0 ==> (lost * bytes == 0 <==> lost == 0)
  {
    if lost > 0 {
      MulAtLeast(lost, bytes);
    } else if lost < 0 {
      MulAtLeast(-lost, bytes);
      assert -lost * bytes == -(lost * bytes);
    }
  }

  /** A stride times an extent that does not fit into 32 bits: elements lie below `begin`. */
  method OverflowingProduct() returns (b: HalideBuffer, begin: int)
    ensures b.Valid() && Inhabited(b.Dims()) && begin > b.host + Lowest(b.Dims()) * b.Bytes()
    ensures Lowest(b.Dims()) == -4000000000 && b.Bytes() == 1
  {
    var dim := new Dim[1](_ => Dim(0, 3, -2000000000));
    b := new HalideBuffer(0, 8, dim);
    assert LowTerms(b.Dims()) == [-4000000000];
    assert Sum([-4000000000]) == Sum([]) - 4000000000;
    begin := b.Begin();
    assert !IsInt32(LowTerm(b.dim[0]));
  }
}
