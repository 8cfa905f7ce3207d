/**
 Byte strings of signed messages: fixed-width big-endian numbers, concatenation of fields, and the
 zero padding to 736 bits before hashing.
 */
module MessageBytes {
  import opened Wrappers
  import opened Powers
  import opened Sequences
  import opened BitCodec

  const PAD_MSG_BEFORE_HASH_BITS_LEN := 736

  const TWO_32 := 0x1_0000_0000

  // ----- numbers

  /** The `width` lowest base-256 digits of i, lowest first; for a negative i, in two's complement. */
  function Digits(i: int, width: nat): (r: seq<Byte>)
    ensures |r| == width
    decreases width
  {
    if width == 0 then [] else [i % 256] + Digits(i / 256, width - 1)
  }

  function DigitsValue(d: seq<Byte>): nat {
    if d == [] then 0 else d[0] + 256 * DigitsValue(d[1..])
  }

  lemma {:induction false} DigitsValueOf(n: nat, width: nat)
    requires n < Pow(256, width)
    ensures DigitsValue(Digits(n, width)) == n
  {
    if width > 0 {
      DigitsValueOf(n / 256, width - 1);
    }
  }

  function BigEndian(n: nat, width: nat): (r: seq<Byte>)
    ensures |r| == width
  {
    Reverse(Digits(n, width))
  }

  /** The number that bytes write, highest byte first. */
  function BytesNumber(bytes: seq<Byte>): nat {
    DigitsValue(Reverse(bytes))
  }

  lemma {:induction false} DigitsOfValue(d: seq<Byte>)
    ensures Digits(DigitsValue(d), |d|) == d && DigitsValue(d) < Pow(256, |d|)
  {
    if d == [] {
    } else {
      DigitsOfValue(d[1..]);
      assert d == [d[0]] + d[1..];
    }
  }

  /** Numbers of a width and byte strings of that length stand for each other. */
  lemma BytesNumberOf(n: nat, bytes: seq<Byte>)
    ensures n < Pow(256, |bytes|) ==> BytesNumber(BigEndian(n, |bytes|)) == n
    ensures BigEndian(BytesNumber(bytes), |bytes|) == bytes && BytesNumber(bytes) < Pow(256, |bytes|)
  {
    if n < Pow(256, |bytes|) {
      ReverseTwice(Digits(n, |bytes|));
      DigitsValueOf(n, |bytes|);
    }
    DigitsOfValue(Reverse(bytes));
    ReverseTwice(bytes);
  }

  lemma {:induction false} DigitsValueAppend(d: seq<Byte>, x: Byte)
    ensures DigitsValue(d + [x]) == DigitsValue(d) + Pow(256, |d|) * x
  {
    if d == [] {
      assert d + [x] == [x];
    } else {
      DigitsValueAppend(d[1..], x);
      assert (d + [x])[1..] == d[1..] + [x];
      assert 256 * (Pow(256, |d| - 1) * x) == Pow(256, |d|) * x;
    }
  }

  lemma {:induction false} BytePower(k: nat)
    ensures Pow(256, k) == Pow(2, 8 * k)
  {
    if k > 0 {
      BytePower(k - 1);
      PowAdd(2, 8, 8 * (k - 1));
      assert Pow(2, 8) == 256;
    }
  }

  /** Packed bits write the number whose binary digits, highest first, they are. */
  lemma {:induction false} PackNumber(bits: seq<Bit>)
    requires |bits| % 8 == 0
    ensures BytesNumber(Pack(bits)) == BitsValue(Reverse(bits))
  {
    if bits == [] {
    } else {
      var first, rest := bits[..8], bits[8..];
      PackNumber(rest);
      assert bits == first + rest;
      ReverseConcat(first, rest);
      ReverseConcat([PackByte(first)], Pack(rest));
      assert Reverse([PackByte(first)]) == [PackByte(first)];
      DigitsValueAppend(Reverse(Pack(rest)), PackByte(first));
      BitsValueConcat(Reverse(rest), Reverse(first));
      BytePower(|Pack(rest)|);
    }
  }

  lemma BigEndianInjective(m: nat, n: nat, width: nat)
    requires m < Pow(256, width) && n < Pow(256, width) && BigEndian(m, width) == BigEndian(n, width)
    ensures m == n
  {
    ReverseTwice(Digits(m, width));
    ReverseTwice(Digits(n, width));
    DigitsValueOf(m, width);
    DigitsValueOf(n, width);
  }

  /** JavaScript's conversion to a signed 32-bit integer. */
  function ToInt32(n: int): int {
    if n % TWO_32 < 0x8000_0000 then n % TWO_32 else n % TWO_32 - TWO_32
  }

  lemma SameLowByte(n: int, k: int)
    ensures (n + 256 * k) % 256 == n % 256
  {
  }

  lemma Int32Range(n: int)
    ensures -0x8000_0000 <= ToInt32(n) < 0x8000_0000
  {
  }

  lemma Int32Stays(n: int)
    requires -0x8000_0000 <= n < 0x8000_0000
    ensures ToInt32(n) == n
  {
  }

  lemma ByteShift(n: int)
    requires -0x8000_0000 <= n < 0x8000_0000
    ensures -0x8000_0000 <= n / 256 < 0x8000_0000
  {
  }

  /** Masking and arithmetic shifting see only the converted value. */
  lemma ShiftRight(n: int)
    ensures ToInt32(n) % 256 == n % 256
    ensures ToInt32(ToInt32(n) / 256) == ToInt32(n) / 256
  {
    var q, r := n / TWO_32, n % TWO_32;
    var k := q + if r < 0x8000_0000 then 0 else 1;
    assert n == ToInt32(n) + 256 * (k * 0x100_0000);
    SameLowByte(ToInt32(n), k * 0x100_0000);
    Int32Range(n);
    ByteShift(ToInt32(n));
    Int32Stays(ToInt32(n) / 256);
  }

  /** The last byte and what is left after shifting it out. */
  method NextByte(n: int) returns (byte: Byte, rest: int)
    ensures byte == ToInt32(n) % 256 && ToInt32(rest) == ToInt32(n) / 256
  {
    ShiftRight(n);
    byte := n % 256;
    rest := ToInt32(n) / 256;
  }

  /** The written bytes in front of `k` digits still to be written. */
  ghost predicate Splits(whole: seq<Byte>, written: seq<Byte>, rest: int, k: nat) {
    Reverse(written) + Digits(rest, k) == whole
  }

  lemma WriteDigit(whole: seq<Byte>, written: seq<Byte>, rest: int, k: nat)
    requires Splits(whole, written, rest, k + 1)
    ensures Splits(whole, [rest % 256] + written, rest / 256, k)
  {
    var digit := [rest % 256];
    assert (digit + written)[0] == rest % 256 && (digit + written)[1..] == written;
    assert Reverse(digit + written) == Reverse(written) + digit;
    assert Digits(rest, k + 1) == digit + Digits(rest / 256, k);
    assert Reverse(written) + digit + Digits(rest / 256, k) == Reverse(written) + (digit + Digits(rest / 256, k));
  }

  lemma AllWritten(whole: seq<Byte>, written: seq<Byte>, rest: int)
    requires Splits(whole, written, rest, 0)
    ensures written == Reverse(whole)
  {
    assert Reverse(written) + [] == Reverse(written);
    ReverseTwice(written);
  }

  lemma NothingWritten(number: int, k: nat)
    ensures Splits(Digits(number, k), [], number, k)
  {
    assert [] + Digits(number, k) == Digits(number, k);
  }

  lemma WriteAt(before: seq<Byte>, after: seq<Byte>, i: nat, byte: Byte)
    requires i < |before| && after == before[i := byte]
    ensures after[i..] == [byte] + before[i + 1..]
  {
  }

  /** The bytes write the number modulo 2^32, or its lowest bytes; above four bytes its sign fills the rest. */
  method NumberToBytesBE(number: int, bytes: nat) returns (result: seq<Byte>)
    ensures result == Reverse(Digits(ToInt32(number), bytes))
    ensures |result| == bytes && Pow(256, bytes) > 0 && BytesNumber(result) == ToInt32(number) % Pow(256, bytes)
  {
    var buffer := new Byte[bytes];
    var i, n := bytes - 1, number;
    ghost var whole := Digits(ToInt32(number), bytes);
    NothingWritten(ToInt32(number), bytes);
    assert buffer[bytes..] == [];
    while i >= 0
      invariant -1 <= i < bytes && Splits(whole, buffer[i + 1..], ToInt32(n), i + 1)
    {
      ghost var before := buffer[..];
      WriteDigit(whole, before[i + 1..], ToInt32(n), i);
      buffer[i], n := NextByte(n);
      WriteAt(before, buffer[..], i, buffer[i]);
      i := i - 1;
    }
    AllWritten(whole, buffer[0..], ToInt32(n));
    result := buffer[..];
    WrittenNumber(ToInt32(number), bytes, result);
  }

  lemma WrittenNumber(i: int, width: nat, bytes: seq<Byte>)
    requires bytes == Reverse(Digits(i, width))
    ensures Pow(256, width) > 0 && BytesNumber(bytes) == i % Pow(256, width)
  {
    DigitsModulo(i, width);
    ReverseTwice(Digits(i, width));
  }

  /** Digits do not see multiples of the next power. */
  lemma {:induction false} DigitsWrap(n: int, k: int, width: nat)
    ensures Digits(n + k * Pow(256, width), width) == Digits(n, width)
    decreases width
  {
    if width > 0 {
      var q := k * Pow(256, width - 1);
      assert k * Pow(256, width) == 256 * q;
      assert (n + 256 * q) % 256 == n % 256 && (n + 256 * q) / 256 == n / 256 + q;
      DigitsWrap(n / 256, k, width - 1);
    }
  }

  lemma DigitsModulo(i: int, width: nat)
    ensures Pow(256, width) > 0 && DigitsValue(Digits(i, width)) == i % Pow(256, width)
  {
    var p := Pow(256, width);
    PowPositive(256, width);
    assert i == i % p + (i / p) * p;
    DigitsWrap(i % p, i / p, width);
    DigitsValueOf(i % p, width);
  }

  /** Four bytes keep a number modulo 2^32, whatever its sign after the conversion. */
  lemma FourBytes(number: int)
    ensures Reverse(Digits(ToInt32(number), 4)) == BigEndian(number % TWO_32, 4)
  {
    var k := if number % TWO_32 < 0x8000_0000 then 0 else -1;
    assert Pow(256, 2) == 0x1_0000 && Pow(256, 4) == TWO_32;
    assert ToInt32(number) == number % TWO_32 + k * Pow(256, 4);
    DigitsWrap(number % TWO_32, k, 4);
  }

  // ----- concatenation

  function Concat(parts: seq<seq<Byte>>): seq<Byte> {
    if parts == [] then [] else parts[0] + Concat(parts[1..])
  }

  /** Parts of known widths can be cut out of their concatenation again. */
  lemma {:induction false} ConcatInjective(xs: seq<seq<Byte>>, ys: seq<seq<Byte>>)
    requires |xs| == |ys| && forall i :: 0 <= i < |xs| ==> |xs[i]| == |ys[i]|
    requires Concat(xs) == Concat(ys)
    ensures xs == ys
  {
    if xs == [] {
    } else {
      assert xs[0] == Concat(xs)[..|xs[0]|] == Concat(ys)[..|ys[0]|] == ys[0];
      assert Concat(xs[1..]) == Concat(xs)[|xs[0]|..] == Concat(ys)[|ys[0]|..] == Concat(ys[1..]);
      ConcatInjective(xs[1..], ys[1..]);
      assert xs == [xs[0]] + xs[1..] && ys == [ys[0]] + ys[1..];
    }
  }

  function SumFrom(widths: seq<nat>, i: nat): nat
    requires i <= |widths|
    decreases |widths| - i
  {
    if i == |widths| then 0 else widths[i] + SumFrom(widths, i + 1)
  }

  lemma {:induction false} ConcatLength(parts: seq<seq<Byte>>, widths: seq<nat>, i: nat)
    requires |parts| == |widths| && forall k :: 0 <= k < |parts| ==> |parts[k]| == widths[k]
    requires i <= |parts|
    ensures |Concat(parts[i..])| == SumFrom(widths, i)
    decreases |parts| - i
  {
    if i < |parts| {
      ConcatLength(parts, widths, i + 1);
      assert parts[i..][1..] == parts[i + 1..];
    }
  }

  // ----- padding before the hash

  lemma HighestBit(bit: Bit, low: nat)
    requires low < 128
    ensures (128 * bit + low) * 2 % 256 == 2 * low && (128 * bit + low) / 128 == bit
  {
  }

  lemma DropHighestBit(bits: seq<Bit>)
    requires |bits| == 8
    ensures PackByte(bits[1..] + [0]) == PackByte(bits) * 2 % 256
    ensures bits[0] == PackByte(bits) / 128
  {
    var low := Reverse(bits[1..]);
    assert bits[0..] == bits;
    assert Pow(2, 7) == 128;
    BitWeight(bits, 0, 128);
    ValueLowBits(low);
    assert Reverse(bits[1..] + [0]) == [0] + low;
    assert ([0] + low)[1..] == low;
    HighestBit(bits[0], BitsValue(low));
  }

  /** Shifting a byte left drops its highest bit. */
  lemma ShiftLeft(b: Byte)
    ensures UnpackByte(b * 2 % 256) == UnpackByte(b)[1..] + [0]
    ensures UnpackByte(b)[0] == b / 128
  {
    PackUnpackByte(b);
    DropHighestBit(UnpackByte(b));
    UnpackPackByte(UnpackByte(b)[1..] + [0]);
  }

  method BytesIntoBeBits(bytes: seq<Byte>) returns (bits: seq<Bit>)
    ensures bits == Unpack(bytes)
  {
    bits := [];
    for k := 0 to |bytes|
      invariant bits == Unpack(bytes)[..8 * k]
    {
      var temp: Byte := bytes[k];
      for j := 0 to 8
        invariant bits == Unpack(bytes)[..8 * k] + UnpackByte(bytes[k])[..j]
        invariant UnpackByte(temp)[..8 - j] == UnpackByte(bytes[k])[j..]
      {
        ShiftLeft(temp);
        assert UnpackByte(temp)[..8 - j][0] == UnpackByte(bytes[k])[j];
        bits := bits + [temp / 128];
        ghost var before := temp;
        temp := temp * 2 % 256;
        assert UnpackByte(temp)[..7 - j] == UnpackByte(before)[..8 - j][1..];
      }
      UnpackAt(bytes, k);
      assert Unpack(bytes)[..8 * k + 8] == Unpack(bytes)[..8 * k] + Unpack(bytes)[8 * k..8 * k + 8];
    }
    assert Unpack(bytes)[..8 * |bytes|] == Unpack(bytes);
  }

  function Zeros(n: nat): (r: seq<Bit>)
    ensures |r| == n && forall i :: 0 <= i < n ==> r[i] == 0
  {
    if n == 0 then [] else [0] + Zeros(n - 1)
  }

  datatype HashInputError = TooLong

  /** The bits that are hashed, or the failed length assertion. */
  function HashInput(msg: seq<Byte>): (r: Result<seq<Bit>, HashInputError>)
    ensures r.Ok? <==> 8 * |msg| <= PAD_MSG_BEFORE_HASH_BITS_LEN
    ensures r.Ok? ==> |r.value| == PAD_MSG_BEFORE_HASH_BITS_LEN
  {
    if 8 * |msg| <= PAD_MSG_BEFORE_HASH_BITS_LEN
    then Ok(Unpack(msg) + Zeros(PAD_MSG_BEFORE_HASH_BITS_LEN - 8 * |msg|))
    else Err(TooLong)
  }

  /** `resize` appends false bits up to the padded length. */
  method PadMessage(msg: seq<Byte>) returns (r: Result<seq<Bit>, HashInputError>)
    ensures r == HashInput(msg)
    ensures r.Ok? <==> |msg| <= 92
    ensures r.Ok? ==> |r.value| == 736 && r.value[..8 * |msg|] == Unpack(msg)
                      && forall i :: 8 * |msg| <= i < 736 ==> r.value[i] == 0
  {
    var bits := BytesIntoBeBits(msg);
    if |bits| > PAD_MSG_BEFORE_HASH_BITS_LEN {
      return Err(TooLong);
    }
    while |bits| < PAD_MSG_BEFORE_HASH_BITS_LEN
      invariant |bits| <= PAD_MSG_BEFORE_HASH_BITS_LEN
      invariant bits + Zeros(PAD_MSG_BEFORE_HASH_BITS_LEN - |bits|)
             == Unpack(msg) + Zeros(PAD_MSG_BEFORE_HASH_BITS_LEN - 8 * |msg|)
    {
      bits := bits + [0];
    }
    assert bits + Zeros(0) == bits;
    return Ok(bits);
  }

  /** Byte i of the padded message is the message's own, or zero beyond its end. */
  lemma PaddedByte(x: seq<Byte>, i: nat)
    requires HashInput(x).Ok? && 8 * i + 8 <= PAD_MSG_BEFORE_HASH_BITS_LEN
    ensures PackByte(HashInput(x).value[8 * i..8 * i + 8]) == if i < |x| then x[i] else 0
  {
    var window := HashInput(x).value[8 * i..8 * i + 8];
    if i < |x| {
      UnpackAt(x, i);
      PackUnpackByte(x[i]);
      assert window == UnpackByte(x[i]);
    } else {
      assert window == Zeros(8);
      assert Reverse(Zeros(8)) == Zeros(8);
      ZerosValue(8);
    }
  }

  lemma {:induction false} ZerosValue(n: nat)
    ensures BitsValue(Zeros(n)) == 0
  {
    if n > 0 {
      ZerosValue(n - 1);
    }
  }

  /** Padding hides nothing but trailing zero bytes. */
  lemma PaddedPrefix(x: seq<Byte>, y: seq<Byte>)
    requires |x| <= |y| && HashInput(y).Ok? && HashInput(x) == HashInput(y)
    ensures x == y[..|x|] && forall i :: |x| <= i < |y| ==> y[i] == 0
  {
    forall i | 0 <= i < |y|
      ensures y[i] == if i < |x| then x[i] else 0
    {
      PaddedByte(x, i);
      PaddedByte(y, i);
    }
  }

  function FirstOrZero(x: seq<Byte>): Byte {
    if x == [] then 0 else x[0]
  }

  /** Equal padded messages start alike, and are equal once they have one length. */
  lemma PaddedEqual(x: seq<Byte>, y: seq<Byte>)
    requires HashInput(y).Ok? && HashInput(x) == HashInput(y)
    ensures FirstOrZero(x) == FirstOrZero(y)
    ensures |x| == |y| ==> x == y
  {
    if |x| <= |y| {
      PaddedPrefix(x, y);
    } else {
      PaddedPrefix(y, x);
    }
  }
}
