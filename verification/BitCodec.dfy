/**
 Bits and bytes of the packed number formats: splitting a number into little-endian bits,
 packing bits into bytes with the most significant bit first, and the inverses.
 */
module BitCodec {
  import opened Wrappers
  import opened Powers
  import opened Sequences

  type Bit = n: int | 0 <= n <= 1
  type Byte = n: int | 0 <= n < 256

  /** The number whose binary digits, lowest first, are `bits`. */
  function BitsValue(bits: seq<Bit>): nat {
    if bits == [] then 0 else bits[0] + 2 * BitsValue(bits[1..])
  }

  /** The `width` lowest binary digits of n, lowest first. */
  function LowBits(n: nat, width: nat): (r: seq<Bit>)
    ensures |r| == width
  {
    if width == 0 then [] else [n % 2] + LowBits(n / 2, width - 1)
  }

  lemma {:induction false} LowBitsValue(n: nat, width: nat)
    requires n < Pow(2, width)
    ensures BitsValue(LowBits(n, width)) == n
  {
    if width > 0 {
      LowBitsValue(n / 2, width - 1);
      assert LowBits(n, width)[1..] == LowBits(n / 2, width - 1);
    }
  }

  lemma {:induction false} ValueLowBits(bits: seq<Bit>)
    ensures LowBits(BitsValue(bits), |bits|) == bits && BitsValue(bits) < Pow(2, |bits|)
  {
    if bits == [] {
    } else {
      ValueLowBits(bits[1..]);
      assert bits == [bits[0]] + bits[1..];
    }
  }

  lemma {:induction false} BitsValueAppend(bits: seq<Bit>, b: Bit)
    ensures BitsValue(bits + [b]) == BitsValue(bits) + b * Pow(2, |bits|)
  {
    if bits == [] {
      assert bits + [b] == [b];
    } else {
      BitsValueAppend(bits[1..], b);
      assert (bits + [b])[1..] == bits[1..] + [b];
    }
  }

  lemma {:induction false} BitsValueConcat(xs: seq<Bit>, ys: seq<Bit>)
    ensures BitsValue(xs + ys) == BitsValue(xs) + Pow(2, |xs|) * BitsValue(ys)
  {
    if xs == [] {
      assert xs + ys == ys;
    } else {
      BitsValueConcat(xs[1..], ys);
      assert (xs + ys)[1..] == xs[1..] + ys;
      assert 2 * (Pow(2, |xs| - 1) * BitsValue(ys)) == Pow(2, |xs|) * BitsValue(ys);
    }
  }

  /** The lowest bit of a JavaScript number after its conversion to a 32-bit integer. */
  function AndOne(x: real): Bit
    requires x >= 0.0
  {
    x.Floor % 0x1_0000_0000 % 2
  }

  /**
   The source divides by two without rounding, so from the second round on it works on fractions;
   the bits pushed are still those of the integer it was given.
   */
  method NumberToBits(integer: nat, bits: nat) returns (result: seq<Bit>)
    ensures result == LowBits(integer, bits)
  {
    result := [];
    var x := integer as real;
    ghost var v: nat := integer;
    for i := 0 to bits
      invariant x >= 0.0 && x.Floor == v
      invariant result + LowBits(v, bits - i) == LowBits(integer, bits)
    {
      assert AndOne(x) == v % 2;
      assert LowBits(v, bits - i) == [v % 2] + LowBits(v / 2, bits - i - 1);
      result := result + [AndOne(x)];
      x := x / 2.0;
      v := v / 2;
    }
  }

  /** A byte from its eight bits, highest first. */
  function PackByte(bits: seq<Bit>): Byte
    requires |bits| == 8
  {
    ValueLowBits(Reverse(bits));
    assert Pow(2, 8) == 256;
    BitsValue(Reverse(bits))
  }

  /** The eight bits of a byte, highest first. */
  function UnpackByte(b: Byte): (r: seq<Bit>)
    ensures |r| == 8
  {
    Reverse(LowBits(b, 8))
  }

  lemma PackUnpackByte(b: Byte)
    ensures PackByte(UnpackByte(b)) == b
  {
    assert Pow(2, 8) == 256;
    LowBitsValue(b, 8);
    ReverseTwice(LowBits(b, 8));
  }

  lemma UnpackPackByte(bits: seq<Bit>)
    requires |bits| == 8
    ensures UnpackByte(PackByte(bits)) == bits
  {
    ValueLowBits(Reverse(bits));
    ReverseTwice(bits);
  }

  /** Bit i of a byte, counted from the highest, weighs 2^(7-i). */
  lemma BitWeight(bits: seq<Bit>, i: nat, weight: nat)
    requires i < |bits| && weight == Pow(2, |bits| - 1 - i)
    ensures BitsValue(Reverse(bits[i..]))
         == (if bits[i] == 1 then weight else 0) + BitsValue(Reverse(bits[i + 1..]))
  {
    assert bits[i..][1..] == bits[i + 1..];
    BitsValueAppend(Reverse(bits[i + 1..]), bits[i]);
  }

  function Pack(bits: seq<Bit>): (r: seq<Byte>)
    requires |bits| % 8 == 0
    ensures 8 * |r| == |bits|
  {
    if bits == [] then [] else [PackByte(bits[..8])] + Pack(bits[8..])
  }

  function Unpack(bytes: seq<Byte>): (r: seq<Bit>)
    ensures |r| == 8 * |bytes|
  {
    if bytes == [] then [] else UnpackByte(bytes[0]) + Unpack(bytes[1..])
  }

  lemma {:induction false} UnpackPack(bits: seq<Bit>)
    requires |bits| % 8 == 0
    ensures Unpack(Pack(bits)) == bits
  {
    if bits == [] {
    } else {
      UnpackPackByte(bits[..8]);
      UnpackPack(bits[8..]);
      assert Pack(bits)[1..] == Pack(bits[8..]);
      assert bits == bits[..8] + bits[8..];
    }
  }

  lemma {:induction false} PackUnpack(bytes: seq<Byte>)
    ensures Pack(Unpack(bytes)) == bytes
  {
    if bytes == [] {
    } else {
      PackUnpackByte(bytes[0]);
      PackUnpack(bytes[1..]);
      assert Unpack(bytes)[..8] == UnpackByte(bytes[0]);
      assert Unpack(bytes)[8..] == Unpack(bytes[1..]);
      assert bytes == [bytes[0]] + bytes[1..];
    }
  }

  lemma DropSlice(bits: seq<Bit>, d: nat, lo: nat, hi: nat)
    requires lo <= hi && d + hi <= |bits|
    ensures bits[d..][lo..hi] == bits[d + lo..d + hi]
  {
  }

  lemma {:induction false} PackAt(bits: seq<Bit>, k: nat)
    requires |bits| % 8 == 0 && 8 * k < |bits|
    ensures Pack(bits)[k] == PackByte(bits[8 * k..8 * k + 8])
  {
    if k == 0 {
      assert bits[8 * k..8 * k + 8] == bits[..8];
    } else {
      PackAt(bits[8..], k - 1);
      DropSlice(bits, 8, 8 * (k - 1), 8 * (k - 1) + 8);
      assert 8 + 8 * (k - 1) == 8 * k;
    }
  }

  datatype PackError = WrongNumberOfBits

  /** The masks 0x80, 0x40, ..., 0x01 are disjoint, so the source's or-assignments are additions. */
  method OrByte(bits: seq<Bit>) returns (value: Byte)
    requires |bits| == 8
    ensures value == PackByte(bits)
  {
    var v, mask := 0, 0x80;
    assert bits[0..] == bits;
    assert Pow(2, 7) == 0x80;
    for i := 0 to 8
      invariant mask == if i < 8 then Pow(2, 7 - i) else 0
      invariant v + BitsValue(Reverse(bits[i..])) == PackByte(bits)
    {
      BitWeight(bits, i, mask);
      if bits[i] == 1 { v := v + mask; }
      mask := mask / 2;
    }
    value := v;
  }

  method BitsIntoBytesInBEOrder(bits: seq<Bit>) returns (r: Result<seq<Byte>, PackError>)
    ensures r.Ok? <==> |bits| % 8 == 0
    ensures r.Ok? ==> r.value == Pack(bits)
  {
    if |bits| % 8 != 0 {
      return Err(WrongNumberOfBits);
    }
    var nBytes := |bits| / 8;
    var resultBytes := new Byte[nBytes];
    for byte := 0 to nBytes
      invariant forall k :: 0 <= k < byte ==> resultBytes[k] == Pack(bits)[k]
    {
      PackAt(bits, byte);
      resultBytes[byte] := OrByte(bits[8 * byte..8 * byte + 8]);
    }
    assert resultBytes[..] == Pack(bits);
    return Ok(resultBytes[..]);
  }

  lemma {:induction false} UnpackAt(bytes: seq<Byte>, k: nat)
    requires k < |bytes|
    ensures Unpack(bytes)[8 * k..8 * k + 8] == UnpackByte(bytes[k])
  {
    if k == 0 {
      assert Unpack(bytes)[..8] == UnpackByte(bytes[0]);
    } else {
      UnpackAt(bytes[1..], k - 1);
      assert Unpack(bytes)[8 * k..8 * k + 8] == Unpack(bytes[1..])[8 * (k - 1)..8 * k];
    }
  }

  lemma LowBitsSplit(b: Byte)
    ensures LowBits(b, 8) == LowBits(b, 4) + LowBits(b / 16, 4)
  {
    var b1, b2, b3, b4 := b / 2, b / 4, b / 8, b / 16;
    assert b2 == b1 / 2 && b3 == b2 / 2 && b4 == b3 / 2;
    assert LowBits(b3, 5) == LowBits(b3, 1) + LowBits(b4, 4);
    assert LowBits(b2, 6) == LowBits(b2, 2) + LowBits(b4, 4);
    assert LowBits(b1, 7) == LowBits(b1, 3) + LowBits(b4, 4);
  }

  lemma Nibble(n: nat)
    ensures LowBits(n, 4) == [n % 2, n / 2 % 2, n / 4 % 2, n / 8 % 2]
  {
    var n1, n2, n3 := n / 2, n / 4, n / 8;
    assert n2 == n1 / 2 && n3 == n2 / 2;
    assert LowBits(n2, 2) == [n2 % 2, n3 % 2];
    assert LowBits(n1, 3) == [n1 % 2, n2 % 2, n3 % 2];
  }

  method MaskBits(b: Byte) returns (res: seq<Bit>)
    ensures res == UnpackByte(b)
  {
    var b4 := b / 16;
    var high, low := LowBits(b4, 4), LowBits(b, 4);
    LowBitsSplit(b);
    Nibble(b);
    Nibble(b4);
    assert b4 / 2 == b / 32 && b4 / 4 == b / 64 && b4 / 8 == b / 128;
    res := [b / 128 % 2, b / 64 % 2, b / 32 % 2, b / 16 % 2, b / 8 % 2, b / 4 % 2, b / 2 % 2, b % 2];
  }

  method Buffer2BitsBE(buff: seq<Byte>) returns (res: seq<Bit>)
    ensures res == Unpack(buff)
  {
    res := [];
    for i := 0 to |buff|
      invariant res == Unpack(buff)[..8 * i]
    {
      UnpackAt(buff, i);
      assert Unpack(buff)[..8 * i + 8] == Unpack(buff)[..8 * i] + Unpack(buff)[8 * i..8 * i + 8];
      var byteBits := MaskBits(buff[i]);
      res := res + byteBits;
    }
    assert Unpack(buff)[..8 * |buff|] == Unpack(buff);
  }
}
