/**
 Packed decimal floats: an amount is stored as mantissa * base^exponent with fixed bit widths.
 The encoders round down or up; both are proved optimal among all in-range mantissas and exponents.
 */
module PackedFloat {
  import opened Wrappers
  import opened Powers
  import opened Sequences
  import opened BitCodec
  import opened MessageBytes

  datatype Format = Format(expBits: nat, mantissaBits: nat, expBase: nat)

  const AMOUNT := Format(5, 35, 10)
  const FEE := Format(5, 11, 10)

  datatype Float = Float(mantissa: nat, exponent: nat)

  datatype FloatError = IntegerIsTooBig | IncorrectInputLength | NotPackable

  /** Whole bytes, a base that grows, and a mantissa that a JavaScript number holds exactly. */
  predicate Valid(fmt: Format) {
    fmt.expBase >= 2 && (fmt.expBits + fmt.mantissaBits) % 8 == 0 && fmt.mantissaBits <= 53
  }

  function MaxExponent(fmt: Format): nat {
    PowPositive(2, fmt.expBits);
    Pow(2, fmt.expBits) - 1
  }

  function MaxMantissa(fmt: Format): nat {
    PowPositive(2, fmt.mantissaBits);
    Pow(2, fmt.mantissaBits) - 1
  }

  function MaxValue(fmt: Format): nat {
    MaxMantissa(fmt) * Pow(fmt.expBase, MaxExponent(fmt))
  }

  function Value(fmt: Format, f: Float): nat {
    f.mantissa * Pow(fmt.expBase, f.exponent)
  }

  predicate InRange(fmt: Format, f: Float) {
    f.mantissa <= MaxMantissa(fmt) && f.exponent <= MaxExponent(fmt)
  }

  ghost predicate Representable(fmt: Format, v: nat) {
    exists f :: InRange(fmt, f) && Value(fmt, f) == v
  }

  /** v is the greatest representable value not above n. */
  ghost predicate IsFloor(fmt: Format, n: nat, v: nat) {
    Representable(fmt, v) && v <= n && forall w: nat :: Representable(fmt, w) && w <= n ==> w <= v
  }

  /** v is the least representable value not below n. */
  ghost predicate IsCeiling(fmt: Format, n: nat, v: nat) {
    Representable(fmt, v) && n <= v && forall w: nat :: Representable(fmt, w) && n <= w ==> v <= w
  }

  // ----- choosing mantissa and exponent

  function LeastExponent(fmt: Format, n: nat, from: nat): (e: nat)
    requires Valid(fmt) && n <= MaxValue(fmt) && from <= MaxExponent(fmt)
    ensures from <= e <= MaxExponent(fmt) && n <= MaxMantissa(fmt) * Pow(fmt.expBase, e)
    ensures e > from ==> n > MaxMantissa(fmt) * Pow(fmt.expBase, e - 1)
    decreases MaxExponent(fmt) - from
  {
    if n <= MaxMantissa(fmt) * Pow(fmt.expBase, from) then from else LeastExponent(fmt, n, from + 1)
  }

  function EncodeDown(fmt: Format, n: nat): Float
    requires Valid(fmt) && n <= MaxValue(fmt)
  {
    var e := LeastExponent(fmt, n, 0);
    PowPositive(fmt.expBase, e);
    var m := FloorDiv(n, Pow(fmt.expBase, e));
    if e != 0 && MaxMantissa(fmt) * Pow(fmt.expBase, e - 1) > m * Pow(fmt.expBase, e)
    then Float(MaxMantissa(fmt), e - 1)
    else Float(m, e)
  }

  function EncodeUp(fmt: Format, n: nat): Float
    requires Valid(fmt) && n <= MaxValue(fmt)
  {
    var e := LeastExponent(fmt, n, 0);
    PowPositive(fmt.expBase, e);
    Float(CeilDiv(n, Pow(fmt.expBase, e)), e)
  }

  /** A smaller exponent than the least one cannot reach n. */
  lemma SmallExponentBelow(fmt: Format, n: nat, e: nat, f: Float)
    requires Valid(fmt) && n <= MaxValue(fmt) && e == LeastExponent(fmt, n, 0)
    requires InRange(fmt, f) && f.exponent < e
    ensures Value(fmt, f) <= MaxMantissa(fmt) * Pow(fmt.expBase, e - 1) < n
  {
    PowMonotone(fmt.expBase, f.exponent, e - 1);
    MulMonotone(f.mantissa, MaxMantissa(fmt), Pow(fmt.expBase, f.exponent));
    MulMonotone(Pow(fmt.expBase, f.exponent), Pow(fmt.expBase, e - 1), MaxMantissa(fmt));
  }

  /** With at least that exponent, a value is a multiple of base^e. */
  lemma LargeExponentMultiple(fmt: Format, e: nat, f: Float) returns (k: nat)
    requires e <= f.exponent
    ensures Value(fmt, f) == k * Pow(fmt.expBase, e)
  {
    PowAdd(fmt.expBase, f.exponent - e, e);
    k := f.mantissa * Pow(fmt.expBase, f.exponent - e);
  }

  /** No representable value up to n exceeds both candidates of the encoder. */
  lemma BelowCandidates(fmt: Format, n: nat, f: Float)
    requires Valid(fmt) && n <= MaxValue(fmt) && InRange(fmt, f) && Value(fmt, f) <= n
    ensures var e := LeastExponent(fmt, n, 0);
      var p := Pow(fmt.expBase, e);
      p > 0 && (Value(fmt, f) <= n / p * p
                || (e > 0 && Value(fmt, f) <= MaxMantissa(fmt) * Pow(fmt.expBase, e - 1)))
  {
    var e := LeastExponent(fmt, n, 0);
    var p := Pow(fmt.expBase, e);
    PowPositive(fmt.expBase, e);
    if f.exponent < e {
      SmallExponentBelow(fmt, n, e, f);
    } else {
      var k := LargeExponentMultiple(fmt, e, f);
      MultiplesBelow(n, p, k);
      MulMonotone(k, n / p, p);
    }
  }

  lemma EncodeDownInRange(fmt: Format, n: nat)
    requires Valid(fmt) && n <= MaxValue(fmt)
    ensures InRange(fmt, EncodeDown(fmt, n)) && Value(fmt, EncodeDown(fmt, n)) <= n
  {
    var e := LeastExponent(fmt, n, 0);
    PowPositive(fmt.expBase, e);
    FloorDivision(n, Pow(fmt.expBase, e), MaxMantissa(fmt));
  }

  lemma EncodeDownOptimal(fmt: Format, n: nat)
    requires Valid(fmt) && n <= MaxValue(fmt)
    ensures InRange(fmt, EncodeDown(fmt, n))
    ensures IsFloor(fmt, n, Value(fmt, EncodeDown(fmt, n)))
  {
    EncodeDownInRange(fmt, n);
    forall w: nat | Representable(fmt, w) && w <= n
      ensures w <= Value(fmt, EncodeDown(fmt, n))
    {
      var f :| InRange(fmt, f) && Value(fmt, f) == w;
      BelowCandidates(fmt, n, f);
    }
  }

  lemma EncodeUpInRange(fmt: Format, n: nat)
    requires Valid(fmt) && n <= MaxValue(fmt)
    ensures InRange(fmt, EncodeUp(fmt, n)) && n <= Value(fmt, EncodeUp(fmt, n))
    ensures EncodeUp(fmt, n).mantissa * Pow(fmt.expBase, EncodeUp(fmt, n).exponent)
            < n + Pow(fmt.expBase, EncodeUp(fmt, n).exponent)
  {
    var e := LeastExponent(fmt, n, 0);
    PowPositive(fmt.expBase, e);
    CeilingDivision(n, Pow(fmt.expBase, e), MaxMantissa(fmt));
  }

  lemma EncodeUpOptimal(fmt: Format, n: nat)
    requires Valid(fmt) && n <= MaxValue(fmt)
    ensures InRange(fmt, EncodeUp(fmt, n))
    ensures IsCeiling(fmt, n, Value(fmt, EncodeUp(fmt, n)))
  {
    var Float(m, e) := EncodeUp(fmt, n);
    EncodeUpInRange(fmt, n);
    forall w: nat | Representable(fmt, w) && n <= w
      ensures Value(fmt, EncodeUp(fmt, n)) <= w
    {
      var f :| InRange(fmt, f) && Value(fmt, f) == w;
      if f.exponent < e {
        SmallExponentBelow(fmt, n, e, f);
      } else {
        var k := LargeExponentMultiple(fmt, e, f);
        assert m * Pow(fmt.expBase, e) < (k + 1) * Pow(fmt.expBase, e);
        MulStrict(m, k + 1, Pow(fmt.expBase, e));
        MulMonotone(m, k, Pow(fmt.expBase, e));
      }
    }
  }

  // ----- which of the equal floats is chosen

  ghost predicate SameValue(fmt: Format, f: Float, g: Float) {
    InRange(fmt, g) && Value(fmt, g) == Value(fmt, f)
  }

  /** No float of the same value has a smaller exponent. */
  ghost predicate LowestExponent(fmt: Format, f: Float) {
    forall g :: SameValue(fmt, f, g) ==> f.exponent <= g.exponent
  }

  lemma EncodeUpLowest(fmt: Format, n: nat)
    requires Valid(fmt) && n <= MaxValue(fmt)
    ensures LowestExponent(fmt, EncodeUp(fmt, n))
  {
    var f := EncodeUp(fmt, n);
    EncodeUpInRange(fmt, n);
    forall g | SameValue(fmt, f, g)
      ensures f.exponent <= g.exponent
    {
      if g.exponent < f.exponent {
        SmallExponentBelow(fmt, n, f.exponent, g);
      }
    }
  }

  lemma PowStrict(b: nat, x: nat, y: nat)
    requires b >= 2 && x < y
    ensures Pow(b, x) < Pow(b, y)
  {
    PowMonotone(b, x, y - 1);
    PowPositive(b, y - 1);
    MulMonotone(2, b, Pow(b, y - 1));
  }

  /** A float with the greatest mantissa cannot be written with a smaller exponent. */
  lemma GreatestMantissaLowest(fmt: Format, f: Float)
    requires Valid(fmt) && InRange(fmt, f) && f.mantissa == MaxMantissa(fmt) > 0
    ensures LowestExponent(fmt, f)
  {
    forall g | SameValue(fmt, f, g)
      ensures f.exponent <= g.exponent
    {
      if g.exponent < f.exponent {
        PowStrict(fmt.expBase, g.exponent, f.exponent);
        MulMonotone(g.mantissa, f.mantissa, Pow(fmt.expBase, g.exponent));
        StrictProduct(f.mantissa, Pow(fmt.expBase, g.exponent), Pow(fmt.expBase, f.exponent));
      }
    }
  }

  lemma StrictProduct(k: nat, x: nat, y: nat)
    requires k > 0 && x < y
    ensures k * x < k * y
  {
  }

  /** Mantissas that reach the same value with exponents e and e - 1 are multiples of each other. */
  lemma SameValueOneApart(base: nat, m: nat, e: nat, top: nat)
    requires base >= 2 && e > 0 && m * Pow(base, e) == top * Pow(base, e - 1)
    ensures top == m * base && top % base == 0
  {
    var p := Pow(base, e - 1);
    PowPositive(base, e - 1);
    assert m * Pow(base, e) == m * base * p;
    if m * base < top {
      StrictProduct(p, m * base, top);
    } else if top < m * base {
      StrictProduct(p, top, m * base);
    }
    MultipleModulo(m, base);
  }

  lemma MultipleModulo(m: nat, d: nat)
    requires d > 0
    ensures m * d % d == 0
  {
    QuotientUnique(m * d, d, m);
    assert m * d == (m * d / d) * d + m * d % d;
  }

  /** Rounding down takes the lowest exponent for exact amounts, and always if the base does not divide the top mantissa. */
  lemma EncodeDownLowest(fmt: Format, n: nat)
    requires Valid(fmt) && n <= MaxValue(fmt)
    requires MaxMantissa(fmt) % fmt.expBase != 0 || Value(fmt, EncodeDown(fmt, n)) == n
    ensures LowestExponent(fmt, EncodeDown(fmt, n))
  {
    var e, f, top := LeastExponent(fmt, n, 0), EncodeDown(fmt, n), MaxMantissa(fmt);
    EncodeDownInRange(fmt, n);
    if f.exponent < e {
      SmallExponentBelow(fmt, n, e, f);
      GreatestMantissaLowest(fmt, f);
    } else {
      forall g | SameValue(fmt, f, g)
        ensures e <= g.exponent
      {
        if g.exponent < e {
          SmallExponentBelow(fmt, n, e, g);
          SameValueOneApart(fmt.expBase, f.mantissa, e, top);
        }
      }
    }
  }

  // ----- what optimality gives

  lemma MaxValueIsGreatest(fmt: Format, v: nat)
    requires Valid(fmt) && Representable(fmt, v)
    ensures v <= MaxValue(fmt)
  {
    var f :| InRange(fmt, f) && Value(fmt, f) == v;
    PowMonotone(fmt.expBase, f.exponent, MaxExponent(fmt));
    MulMonotone(f.mantissa, MaxMantissa(fmt), Pow(fmt.expBase, f.exponent));
    MulMonotone(Pow(fmt.expBase, f.exponent), Pow(fmt.expBase, MaxExponent(fmt)), MaxMantissa(fmt));
  }

  lemma RoundingMonotone(fmt: Format, n: nat, n': nat)
    requires Valid(fmt) && n <= n' <= MaxValue(fmt)
    ensures Value(fmt, EncodeDown(fmt, n)) <= Value(fmt, EncodeDown(fmt, n'))
    ensures Value(fmt, EncodeUp(fmt, n)) <= Value(fmt, EncodeUp(fmt, n'))
  {
    EncodeDownOptimal(fmt, n);
    EncodeDownOptimal(fmt, n');
    EncodeUpOptimal(fmt, n);
    EncodeUpOptimal(fmt, n');
  }

  /** Packable means a fixed point of either rounding, and means that the roundings agree. */
  lemma PackableIsFixedPoint(fmt: Format, n: nat)
    requires Valid(fmt) && n <= MaxValue(fmt)
    ensures var down, up := Value(fmt, EncodeDown(fmt, n)), Value(fmt, EncodeUp(fmt, n));
      && (Representable(fmt, n) <==> down == n)
      && (Representable(fmt, n) <==> up == n)
      && (Representable(fmt, n) <==> down == up)
      && down <= n <= up
  {
    EncodeDownOptimal(fmt, n);
    EncodeUpOptimal(fmt, n);
  }

  lemma RoundingIdempotent(fmt: Format, n: nat)
    requires Valid(fmt) && n <= MaxValue(fmt)
    ensures var down, up := Value(fmt, EncodeDown(fmt, n)), Value(fmt, EncodeUp(fmt, n));
      && down <= MaxValue(fmt) && Value(fmt, EncodeDown(fmt, down)) == down
      && up <= MaxValue(fmt) && Value(fmt, EncodeUp(fmt, up)) == up
  {
    var down, up := Value(fmt, EncodeDown(fmt, n)), Value(fmt, EncodeUp(fmt, n));
    EncodeDownOptimal(fmt, n);
    EncodeUpOptimal(fmt, n);
    MaxValueIsGreatest(fmt, down);
    MaxValueIsGreatest(fmt, up);
    PackableIsFixedPoint(fmt, down);
    PackableIsFixedPoint(fmt, up);
  }

  // ----- bytes

  /** Exponent bits, then mantissa bits, lowest first; packed from the other end. */
  function PackFloat(fmt: Format, f: Float): (r: seq<Byte>)
    requires Valid(fmt)
    ensures 8 * |r| == fmt.expBits + fmt.mantissaBits
  {
    Pack(Reverse(LowBits(f.exponent, fmt.expBits) + LowBits(f.mantissa, fmt.mantissaBits)))
  }

  function UnpackFloat(fmt: Format, bytes: seq<Byte>): Float
    requires 8 * |bytes| == fmt.expBits + fmt.mantissaBits
  {
    var bits := Reverse(Unpack(bytes));
    Float(BitsValue(bits[fmt.expBits..]), BitsValue(bits[..fmt.expBits]))
  }

  lemma UnpackPackFloat(fmt: Format, f: Float)
    requires Valid(fmt) && InRange(fmt, f)
    ensures UnpackFloat(fmt, PackFloat(fmt, f)) == f
  {
    var e, m := LowBits(f.exponent, fmt.expBits), LowBits(f.mantissa, fmt.mantissaBits);
    UnpackPack(Reverse(e + m));
    ReverseTwice(e + m);
    assert (e + m)[..fmt.expBits] == e && (e + m)[fmt.expBits..] == m;
    LowBitsValue(f.exponent, fmt.expBits);
    LowBitsValue(f.mantissa, fmt.mantissaBits);
  }

  lemma SplitBits(bits: seq<Bit>, k: nat)
    requires k <= |bits|
    ensures LowBits(BitsValue(bits[..k]), k) + LowBits(BitsValue(bits[k..]), |bits| - k) == bits
    ensures BitsValue(bits[..k]) < Pow(2, k) && BitsValue(bits[k..]) < Pow(2, |bits| - k)
  {
    ValueLowBits(bits[..k]);
    ValueLowBits(bits[k..]);
    assert bits[..k] + bits[k..] == bits;
  }

  lemma PackUnpackFloat(fmt: Format, bytes: seq<Byte>)
    requires Valid(fmt) && 8 * |bytes| == fmt.expBits + fmt.mantissaBits
    ensures InRange(fmt, UnpackFloat(fmt, bytes))
    ensures PackFloat(fmt, UnpackFloat(fmt, bytes)) == bytes
  {
    var bits, f := Reverse(Unpack(bytes)), UnpackFloat(fmt, bytes);
    assert |bits| - fmt.expBits == fmt.mantissaBits;
    SplitBits(bits, fmt.expBits);
    assert PackFloat(fmt, f) == Pack(Reverse(bits));
    ReverseTwice(Unpack(bytes));
    PackUnpack(bytes);
  }

  /** The bytes write the float as one number: the exponent in the lowest bits, the mantissa above it. */
  ghost predicate Writes(fmt: Format, bytes: seq<Byte>, f: Float) {
    && 8 * |bytes| == fmt.expBits + fmt.mantissaBits && InRange(fmt, f)
    && BytesNumber(bytes) == f.mantissa * Pow(2, fmt.expBits) + f.exponent
  }

  lemma PackedParts(low: seq<Bit>, high: seq<Bit>)
    requires |low + high| % 8 == 0
    ensures BytesNumber(Pack(Reverse(low + high))) == BitsValue(high) * Pow(2, |low|) + BitsValue(low)
  {
    PackNumber(Reverse(low + high));
    ReverseTwice(low + high);
    BitsValueConcat(low, high);
  }

  lemma PackFloatWrites(fmt: Format, f: Float)
    requires Valid(fmt) && InRange(fmt, f)
    ensures Writes(fmt, PackFloat(fmt, f), f)
  {
    PackedParts(LowBits(f.exponent, fmt.expBits), LowBits(f.mantissa, fmt.mantissaBits));
    LowBitsValue(f.exponent, fmt.expBits);
    LowBitsValue(f.mantissa, fmt.mantissaBits);
  }

  lemma UnpackedNumber(bytes: seq<Byte>)
    ensures BytesNumber(bytes) == BitsValue(Reverse(Unpack(bytes)))
  {
    PackUnpack(bytes);
    PackNumber(Unpack(bytes));
  }

  lemma SplitValue(bits: seq<Bit>, k: nat)
    requires k <= |bits|
    ensures BitsValue(bits) == BitsValue(bits[k..]) * Pow(2, k) + BitsValue(bits[..k]) && BitsValue(bits[..k]) < Pow(2, k)
  {
    assert bits == bits[..k] + bits[k..];
    BitsValueConcat(bits[..k], bits[k..]);
    ValueLowBits(bits[..k]);
  }

  lemma QuotientAndRest(q: nat, p: nat, r: nat)
    requires r < p
    ensures (q * p + r) / p == q && (q * p + r) % p == r
  {
    var n := q * p + r;
    assert (q + 1) * p == q * p + p;
    QuotientUnique(n, p, q);
    assert n == n / p * p + n % p;
  }

  lemma UnpackFloatReads(fmt: Format, bytes: seq<Byte>)
    requires 8 * |bytes| == fmt.expBits + fmt.mantissaBits
    ensures var n, p, f := BytesNumber(bytes), Pow(2, fmt.expBits), UnpackFloat(fmt, bytes);
      p > 0 && f.mantissa == n / p && f.exponent == n % p
  {
    var f := UnpackFloat(fmt, bytes);
    UnpackedNumber(bytes);
    SplitValue(Reverse(Unpack(bytes)), fmt.expBits);
    QuotientAndRest(f.mantissa, Pow(2, fmt.expBits), f.exponent);
  }

  /** Bytes that write a float are its packing. */
  lemma WritesUnique(fmt: Format, bytes: seq<Byte>, bytes': seq<Byte>, f: Float)
    requires Writes(fmt, bytes, f) && Writes(fmt, bytes', f)
    ensures bytes == bytes'
  {
    BytesNumberOf(0, bytes);
    BytesNumberOf(0, bytes');
  }

  /** The bytes write the amount, with the lowest exponent that it has. */
  ghost predicate Packs(fmt: Format, bytes: seq<Byte>, amount: nat) {
    exists f :: PacksAs(fmt, bytes, amount, f)
  }

  ghost predicate PacksAs(fmt: Format, bytes: seq<Byte>, amount: nat, f: Float) {
    Writes(fmt, bytes, f) && Value(fmt, f) == amount && LowestExponent(fmt, f)
  }

  lemma SameFactor(x: nat, y: nat, k: nat)
    requires k > 0 && x * k == y * k
    ensures x == y
  {
    if x < y {
      StrictProduct(k, x, y);
    } else if y < x {
      StrictProduct(k, y, x);
    }
  }

  lemma PacksUnique(fmt: Format, bytes: seq<Byte>, bytes': seq<Byte>, amount: nat)
    requires Valid(fmt) && Packs(fmt, bytes, amount) && Packs(fmt, bytes', amount)
    ensures bytes == bytes'
  {
    var f :| PacksAs(fmt, bytes, amount, f);
    var g :| PacksAs(fmt, bytes', amount, g);
    assert SameValue(fmt, f, g) && SameValue(fmt, g, f);
    PowPositive(fmt.expBase, f.exponent);
    SameFactor(f.mantissa, g.mantissa, Pow(fmt.expBase, f.exponent));
    WritesUnique(fmt, bytes, bytes', f);
  }

  /** The bytes write a float of this value; with the lowest exponent, unless the base divides the greatest mantissa. */
  ghost predicate PacksRounded(fmt: Format, bytes: seq<Byte>, v: nat)
    requires Valid(fmt)
  {
    && (exists f :: Writes(fmt, bytes, f) && Value(fmt, f) == v)
    && (MaxMantissa(fmt) % fmt.expBase != 0 ==> Packs(fmt, bytes, v))
  }

  /** The formats in use hold mantissas up to 34359738367 and 2047, no multiples of ten, and 31 powers of ten. */
  lemma SourceFormats()
    ensures AMOUNT.expBase == 10 && MaxMantissa(AMOUNT) == 34359738367 && MaxExponent(AMOUNT) == 31
    ensures FEE.expBase == 10 && MaxMantissa(FEE) == 2047 && MaxExponent(FEE) == 31
    ensures MaxMantissa(AMOUNT) % AMOUNT.expBase != 0 && MaxMantissa(FEE) % FEE.expBase != 0
  {
    assert Pow(2, 5) == 32 && Pow(2, 11) == 2048 && Pow(2, 12) == 4096;
    PowAdd(2, 12, 12);
    PowAdd(2, 24, 11);
    assert Pow(2, 35) == 4096 * 4096 * 2048 == 34359738368;
  }

  lemma SplitsAt(bits: seq<Bit>, k: nat)
    requires k <= |bits|
    ensures bits[..k] == bits[0..k] && bits[k..] == bits[k..|bits|]
  {
  }

  /** Reads exponent and mantissa off the reversed bits. */
  method DecodeBits(floatBytes: seq<Byte>, fmt: Format) returns (f: Float)
    requires 8 * |floatBytes| == fmt.expBits + fmt.mantissaBits
    ensures f == UnpackFloat(fmt, floatBytes)
  {
    var bits := Buffer2BitsBE(floatBytes);
    bits := Reverse(bits);
    var exponent := WeighBits(bits, 0, fmt.expBits);
    var mantissa := WeighBits(bits, fmt.expBits, fmt.expBits + fmt.mantissaBits);
    SplitsAt(bits, fmt.expBits);
    f := Float(mantissa, exponent);
  }

  method FloatToInteger(floatBytes: seq<Byte>, fmt: Format) returns (r: Result<nat, FloatError>)
    ensures r.Ok? <==> 8 * |floatBytes| == fmt.expBits + fmt.mantissaBits
    ensures r.Ok? ==> r.value == Value(fmt, UnpackFloat(fmt, floatBytes))
    ensures r.Ok? ==>
      var n, p := BytesNumber(floatBytes), Pow(2, fmt.expBits); p > 0 && r.value == n / p * Pow(fmt.expBase, n % p)
  {
    if |floatBytes| * 8 != fmt.mantissaBits + fmt.expBits {
      return Err(IncorrectInputLength);
    }
    var f := DecodeBits(floatBytes, fmt);
    UnpackFloatReads(fmt, floatBytes);
    return Ok(f.mantissa * Pow(fmt.expBase, f.exponent));
  }

  lemma NextWeight(bits: seq<Bit>, lo: nat, i: nat)
    requires lo <= i < |bits|
    ensures BitsValue(bits[lo..i + 1]) == BitsValue(bits[lo..i]) + (if bits[i] == 1 then Pow(2, i - lo) else 0)
  {
    assert bits[lo..i + 1] == bits[lo..i] + [bits[i]];
    BitsValueAppend(bits[lo..i], bits[i]);
  }

  /** The loop that both halves of the decoder run, over bits lo to hi. */
  method WeighBits(bits: seq<Bit>, lo: nat, hi: nat) returns (sum: nat)
    requires lo <= hi <= |bits|
    ensures sum == BitsValue(bits[lo..hi])
  {
    sum := 0;
    var pow2 := 1;
    for i := lo to hi
      invariant pow2 == Pow(2, i - lo) && sum == BitsValue(bits[lo..i])
    {
      NextWeight(bits, lo, i);
      if bits[i] == 1 {
        sum := sum + pow2;
      }
      pow2 := pow2 * 2;
    }
  }

  /** The search loop shared by both encoders. */
  method FindExponent(fmt: Format, integer: nat) returns (exponent: nat, exponentTemp: nat)
    requires Valid(fmt) && integer <= MaxValue(fmt)
    ensures exponent == LeastExponent(fmt, integer, 0) && exponentTemp == Pow(fmt.expBase, exponent)
  {
    exponent, exponentTemp := 0, 1;
    while integer > MaxMantissa(fmt) * exponentTemp
      invariant exponent <= MaxExponent(fmt) && exponentTemp == Pow(fmt.expBase, exponent)
      invariant LeastExponent(fmt, integer, exponent) == LeastExponent(fmt, integer, 0)
      decreases MaxExponent(fmt) - exponent
    {
      exponentTemp := exponentTemp * fmt.expBase;
      exponent := exponent + 1;
    }
  }

  /** Bits of both parts, reversed, packed, and the bytes reversed again. */
  method EncodeBits(fmt: Format, f: Float) returns (bytes: seq<Byte>)
    requires Valid(fmt)
    ensures bytes == Reverse(PackFloat(fmt, f))
  {
    var exponentBits := NumberToBits(f.exponent, fmt.expBits);
    var mantissaBits := NumberToBits(f.mantissa, fmt.mantissaBits);
    var packed := BitsIntoBytesInBEOrder(Reverse(exponentBits + mantissaBits));
    bytes := Reverse(packed.value);
  }

  lemma Candidates(base: nat, e: nat, m: nat, top: nat)
    requires base > 0 && e > 0
    ensures Pow(base, e) * m == m * Pow(base, e) && Pow(base, e) / base * top == top * Pow(base, e - 1)
  {
    DivideExact(Pow(base, e - 1), base);
  }

  /** Compares the two candidates for rounding down. */
  method ChooseDown(integer: nat, fmt: Format, exponent: nat, exponentTemp: nat) returns (f: Float)
    requires Valid(fmt) && integer <= MaxValue(fmt)
    requires exponent == LeastExponent(fmt, integer, 0) && exponentTemp == Pow(fmt.expBase, exponent) > 0
    ensures f == EncodeDown(fmt, integer)
  {
    var mantissa := FloorDiv(integer, exponentTemp);
    f := Float(mantissa, exponent);
    if exponent != 0 {
      var maxMantissa := MaxMantissa(fmt);
      Candidates(fmt.expBase, exponent, mantissa, maxMantissa);
      var variant1 := exponentTemp * mantissa;
      var variant2 := exponentTemp / fmt.expBase * maxMantissa;
      var diff1 := integer - variant1;
      var diff2 := integer - variant2;
      if diff2 < diff1 {
        f := Float(maxMantissa, exponent - 1);
      }
    }
  }

  lemma PackedDown(fmt: Format, n: nat)
    requires Valid(fmt) && n <= MaxValue(fmt)
    ensures var v, bytes := Value(fmt, EncodeDown(fmt, n)), PackFloat(fmt, EncodeDown(fmt, n));
      IsFloor(fmt, n, v) && PacksRounded(fmt, bytes, v) && (v == n ==> Packs(fmt, bytes, n))
  {
    var f := EncodeDown(fmt, n);
    EncodeDownOptimal(fmt, n);
    PackFloatWrites(fmt, f);
    if MaxMantissa(fmt) % fmt.expBase != 0 || Value(fmt, f) == n {
      EncodeDownLowest(fmt, n);
      assert PacksAs(fmt, PackFloat(fmt, f), Value(fmt, f), f);
    }
  }

  lemma PackedUp(fmt: Format, n: nat)
    requires Valid(fmt) && n <= MaxValue(fmt)
    ensures var v, bytes := Value(fmt, EncodeUp(fmt, n)), PackFloat(fmt, EncodeUp(fmt, n));
      IsCeiling(fmt, n, v) && Packs(fmt, bytes, v)
  {
    var f := EncodeUp(fmt, n);
    EncodeUpOptimal(fmt, n);
    PackFloatWrites(fmt, f);
    EncodeUpLowest(fmt, n);
    assert PacksAs(fmt, PackFloat(fmt, f), Value(fmt, f), f);
  }

  method IntegerToFloat(integer: nat, fmt: Format) returns (r: Result<seq<Byte>, FloatError>)
    requires Valid(fmt)
    ensures if integer <= MaxValue(fmt) then r.Ok? else r == Err(IntegerIsTooBig)
    ensures r.Ok? ==> r.value == Reverse(PackFloat(fmt, EncodeDown(fmt, integer)))
    ensures r.Ok? ==> exists v :: IsFloor(fmt, integer, v) && PacksRounded(fmt, Reverse(r.value), v)
  {
    if integer > MaxValue(fmt) {
      return Err(IntegerIsTooBig);
    }
    var exponent, exponentTemp := FindExponent(fmt, integer);
    PowPositive(fmt.expBase, exponent);
    var f := ChooseDown(integer, fmt, exponent, exponentTemp);
    var bytes := EncodeBits(fmt, f);
    PackedDown(fmt, integer);
    ReverseTwice(PackFloat(fmt, f));
    return Ok(bytes);
  }

  lemma DivideExact(q: nat, d: nat)
    requires d > 0
    ensures d * q / d == q
  {
    QuotientUnique(d * q, d, q);
  }

  method IntegerToFloatUp(integer: nat, fmt: Format) returns (r: Result<seq<Byte>, FloatError>)
    requires Valid(fmt)
    ensures if integer <= MaxValue(fmt) then r.Ok? else r == Err(IntegerIsTooBig)
    ensures r.Ok? ==> r.value == Reverse(PackFloat(fmt, EncodeUp(fmt, integer)))
    ensures r.Ok? ==> exists v :: IsCeiling(fmt, integer, v) && Packs(fmt, Reverse(r.value), v)
  {
    if integer > MaxValue(fmt) {
      return Err(IntegerIsTooBig);
    }
    var exponent, exponentTemp := FindExponent(fmt, integer);
    PowPositive(fmt.expBase, exponent);
    var mantissa := CeilDiv(integer, exponentTemp);
    var bytes := EncodeBits(fmt, Float(mantissa, exponent));
    PackedUp(fmt, integer);
    ReverseTwice(PackFloat(fmt, EncodeUp(fmt, integer)));
    return Ok(bytes);
  }

  /** The source maps a bit reversal over the bytes and drops the result, so only bytes are reversed. */
  function ReverseBits(buffer: seq<Byte>): seq<Byte> {
    Reverse(buffer)
  }

  // ----- the exported operations, for amounts and for fees alike

  method PackDown(amount: nat, fmt: Format) returns (r: Result<seq<Byte>, FloatError>)
    requires Valid(fmt)
    ensures if amount <= MaxValue(fmt) then r.Ok? else r == Err(IntegerIsTooBig)
    ensures r.Ok? ==> 8 * |r.value| == fmt.expBits + fmt.mantissaBits
    ensures r.Ok? ==> IsFloor(fmt, amount, Value(fmt, UnpackFloat(fmt, r.value)))
    ensures r.Ok? ==> exists v :: IsFloor(fmt, amount, v) && PacksRounded(fmt, r.value, v)
    ensures r.Ok? ==> r.value == PackFloat(fmt, EncodeDown(fmt, amount))
  {
    var bytes :- IntegerToFloat(amount, fmt);
    ReverseTwice(PackFloat(fmt, EncodeDown(fmt, amount)));
    PackedDown(fmt, amount);
    EncodeDownInRange(fmt, amount);
    UnpackPackFloat(fmt, EncodeDown(fmt, amount));
    return Ok(ReverseBits(bytes));
  }

  method PackUp(amount: nat, fmt: Format) returns (r: Result<seq<Byte>, FloatError>)
    requires Valid(fmt)
    ensures if amount <= MaxValue(fmt) then r.Ok? else r == Err(IntegerIsTooBig)
    ensures r.Ok? ==> 8 * |r.value| == fmt.expBits + fmt.mantissaBits
    ensures r.Ok? ==> IsCeiling(fmt, amount, Value(fmt, UnpackFloat(fmt, r.value)))
    ensures r.Ok? ==> exists v :: IsCeiling(fmt, amount, v) && Packs(fmt, r.value, v)
  {
    var bytes :- IntegerToFloatUp(amount, fmt);
    ReverseTwice(PackFloat(fmt, EncodeUp(fmt, amount)));
    PackedUp(fmt, amount);
    EncodeUpInRange(fmt, amount);
    UnpackPackFloat(fmt, EncodeUp(fmt, amount));
    return Ok(ReverseBits(bytes));
  }

  method ClosestPackable(amount: nat, fmt: Format) returns (r: Result<nat, FloatError>)
    requires Valid(fmt)
    ensures if amount <= MaxValue(fmt) then r.Ok? else r == Err(IntegerIsTooBig)
    ensures r.Ok? ==> IsFloor(fmt, amount, r.value)
  {
    var packed :- PackDown(amount, fmt);
    r := FloatToInteger(packed, fmt);
  }

  method ClosestGreaterOrEqPackable(amount: nat, fmt: Format) returns (r: Result<nat, FloatError>)
    requires Valid(fmt)
    ensures if amount <= MaxValue(fmt) then r.Ok? else r == Err(IntegerIsTooBig)
    ensures r.Ok? ==> IsCeiling(fmt, amount, r.value)
  {
    var packed :- PackUp(amount, fmt);
    r := FloatToInteger(packed, fmt);
  }

  /** Throws above the maximum; below it, decides representability. */
  method IsPackable(amount: nat, fmt: Format) returns (r: Result<bool, FloatError>)
    requires Valid(fmt)
    ensures if amount <= MaxValue(fmt) then r.Ok? else r == Err(IntegerIsTooBig)
    ensures r == Ok(true) <==> Representable(fmt, amount)
  {
    if Representable(fmt, amount) {
      MaxValueIsGreatest(fmt, amount);
    }
    var closest :- ClosestPackable(amount, fmt);
    return Ok(closest == amount);
  }

  /** The bytes that a checked packing produces, and exactly when it produces any. */
  function PackedBytes(fmt: Format, amount: nat): (r: Result<seq<Byte>, FloatError>)
    requires Valid(fmt)
    ensures r.Ok? <==> Representable(fmt, amount)
    ensures r.Ok? ==> 8 * |r.value| == fmt.expBits + fmt.mantissaBits
                      && Value(fmt, UnpackFloat(fmt, r.value)) == amount
    ensures r.Ok? ==> Packs(fmt, r.value, amount)
  {
    if amount > MaxValue(fmt) then
      assert !Representable(fmt, amount) by { if Representable(fmt, amount) { MaxValueIsGreatest(fmt, amount); } }
      Err(IntegerIsTooBig)
    else
      PackableIsFixedPoint(fmt, amount);
      EncodeDownInRange(fmt, amount);
      PackedDown(fmt, amount);
      UnpackPackFloat(fmt, EncodeDown(fmt, amount));
      if Value(fmt, EncodeDown(fmt, amount)) == amount then Ok(PackFloat(fmt, EncodeDown(fmt, amount)))
      else Err(NotPackable)
  }

  method PackChecked(amount: nat, fmt: Format) returns (r: Result<seq<Byte>, FloatError>)
    requires Valid(fmt)
    ensures r == PackedBytes(fmt, amount)
  {
    var closest :- ClosestPackable(amount, fmt);
    EncodeDownOptimal(fmt, amount);
    if closest != amount {
      return Err(NotPackable);
    }
    r := PackDown(amount, fmt);
  }
}
