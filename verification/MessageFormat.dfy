/**
 The bytes of every message, position by position: what a message is serialised to, and which messages are refused.
 */
module MessageFormat {
  import opened Wrappers
  import opened Powers
  import opened Sequences
  import opened BitCodec
  import opened PackedFloat
  import opened MessageBytes
  import opened TxMessages

  // ----- single fields

  /** The bytes, `width` of them, read as one big-endian number. */
  ghost predicate IsNumber(b: seq<Byte>, n: int, width: nat) {
    |b| == width && BytesNumber(b) == n
  }

  /** A number below the limit, in four bytes. */
  ghost predicate IsId(b: seq<Byte>, n: int, limit: nat) {
    0 <= n < limit && IsNumber(b, n, 4)
  }

  /** A nonce: any number that is not negative, cut to 32 bits. */
  ghost predicate IsNonce(b: seq<Byte>, n: int) {
    n >= 0 && IsNumber(b, n % TWO_32, 4)
  }

  /** A time in eight bytes, of which four are used. */
  ghost predicate IsTime(b: seq<Byte>, t: int) {
    t >= 0 && IsNumber(b, t % TWO_32, 8)
  }

  ghost predicate IsBytes(b: seq<Byte>, bytes: seq<Byte>, width: nat) {
    |bytes| == width && b == bytes
  }

  /** The bytes that a field may have. */
  ghost predicate IsField(f: Field, c: Codec, b: seq<Byte>) {
    match f
    case Tag(tag) => b == [tag]
    case AccountId(id) => IsId(b, id, 0x100_0000)
    case Address(bytes) => IsBytes(b, bytes, 20)
    case ContentHash(bytes) => IsBytes(b, bytes, 32)
    case OrdersHash(bytes) => IsBytes(b, bytes, 31)
    case TokenId(token) => IsId(b, token, 0x8000_0000)
    case AmountPacked(amount) => Packs(c.amount, b, amount)
    case AmountFull(amount) => IsNumber(b, amount, 16)
    case FeePacked(fee) => Packs(c.fee, b, fee)
    case Price(price) => IsNumber(b, price, 15)
    case Nonce(nonce) => IsNonce(b, nonce)
    case Timestamp(time) => IsTime(b, time)
  }

  /** A number that fits is written by these bytes alone. */
  lemma NumberIs(n: nat, b: seq<Byte>, width: nat)
    ensures IsNumber(b, n, width) <==> n < Pow(256, width) && b == BigEndian(n, width)
  {
    if |b| == width {
      BytesNumberOf(n, b);
    }
  }

  lemma FourByteLimit()
    ensures Pow(256, 4) == TWO_32
  {
    assert Pow(256, 2) == 0x1_0000;
  }

  lemma IdBytes(n: nat, b: seq<Byte>)
    requires n < TWO_32
    ensures NumberBytes(n) == b <==> IsNumber(b, n, NUMBER_WIDTH)
  {
    SmallModulo(n);
    WrappedBytes(n, b);
  }

  lemma WrappedBytes(n: int, b: seq<Byte>)
    ensures NumberBytes(n) == b <==> IsNumber(b, n % TWO_32, NUMBER_WIDTH)
  {
    FourBytes(n);
    FourByteLimit();
    NumberIs(n % TWO_32, b, NUMBER_WIDTH);
  }

  /** Zeros in front do not change a number. */
  lemma {:induction false} ZerosInFront(zeros: nat, b: seq<Byte>)
    ensures BytesNumber(seq(zeros, _ => 0) + b) == BytesNumber(b)
    decreases zeros
  {
    var front: seq<Byte> := seq(zeros, _ => 0);
    if zeros == 0 {
      assert front + b == b;
    } else {
      var rest: seq<Byte> := seq(zeros - 1, _ => 0);
      ZerosInFront(zeros - 1, b);
      assert front + b == [0] + (rest + b);
      ReverseConcat([0], rest + b);
      assert Reverse<Byte>([0]) == [0];
      DigitsValueAppend(Reverse(rest + b), 0);
    }
  }

  lemma FourInFront(b: seq<Byte>)
    ensures BytesNumber([0, 0, 0, 0] + b) == BytesNumber(b)
  {
    var front: seq<Byte> := seq(4, _ => 0);
    assert front == [0, 0, 0, 0];
    ZerosInFront(4, b);
  }

  lemma TimeBytes(t: nat, b: seq<Byte>)
    ensures [0, 0, 0, 0] + NumberBytes(t) == b <==> IsNumber(b, t % TWO_32, 8)
  {
    var bytes := [0, 0, 0, 0] + NumberBytes(t);
    WrappedBytes(t, NumberBytes(t));
    FourInFront(NumberBytes(t));
    BytesNumberOf(0, b);
    BytesNumberOf(0, bytes);
  }

  lemma PackedFieldBytes(fmt: Format, n: nat, b: seq<Byte>)
    requires Valid(fmt)
    ensures PackedField(fmt, n) == Ok(b) <==> Packs(fmt, b, n)
  {
    if Packs(fmt, b, n) {
      var f :| PacksAs(fmt, b, n, f);
      assert InRange(fmt, f) && Value(fmt, f) == n;
      PacksUnique(fmt, b, PackedField(fmt, n).value, n);
    }
  }

  lemma PaddedBytes(n: nat, b: seq<Byte>, width: nat)
    ensures ZeroPad(n, width) == Ok(b) <==> IsNumber(b, n, width)
  {
    NumberIs(n, b, width);
  }

  /** A field is encoded as exactly these bytes, and refused if there are none. */
  lemma FieldBytes(f: Field, c: Codec, b: seq<Byte>)
    requires WellFormed(c)
    ensures Encode(f, c) == Ok(b) <==> IsField(f, c, b)
  {
    match f
    case AccountId(id) => if 0 <= id < MAX_NUMBER_OF_ACCOUNTS { IdBytes(id, b); }
    case TokenId(token) => if 0 <= token < MAX_NUMBER_OF_TOKENS { IdBytes(token, b); }
    case AmountPacked(amount) => PackedFieldBytes(c.amount, amount, b);
    case AmountFull(amount) => PaddedBytes(amount, b, FULL_AMOUNT_WIDTH);
    case FeePacked(fee) => PackedFieldBytes(c.fee, fee, b);
    case Price(price) => PaddedBytes(price, b, PRICE_WIDTH);
    case Nonce(nonce) => WrappedBytes(nonce, b);
    case Timestamp(time) => if time >= 0 { TimeBytes(time, b); }
    case _ =>
  }

  // ----- cutting a message into fields

  /** From offset `at` on, the bytes are those of the fields from k on, each in its own width. */
  ghost predicate Cut(fields: seq<Field>, c: Codec, b: seq<Byte>, k: nat, at: nat)
    requires k <= |fields|
    decreases |fields| - k
  {
    if k == |fields| then at == |b|
    else
      var next := at + Width(KindOf(fields[k]));
      next <= |b| && IsField(fields[k], c, b[at..next]) && Cut(fields, c, b, k + 1, next)
  }

  lemma SerializeStep(fields: seq<Field>, c: Codec, b: seq<Byte>, k: nat, at: nat, next: nat)
    requires WellFormed(c) && k < |fields| && at <= |b| && next == at + Width(KindOf(fields[k]))
    ensures Serialize(fields[k..], c) == Ok(b[at..]) <==>
      next <= |b| && IsField(fields[k], c, b[at..next]) && Serialize(fields[k + 1..], c) == Ok(b[next..])
  {
    var rest, w := fields[k..], next - at;
    assert rest[0] == fields[k] && rest[1..] == fields[k + 1..];
    if next <= |b| {
      FieldBytes(fields[k], c, b[at..next]);
      SerializeFirst(rest, c, b[at..], w);
      assert b[at..][..w] == b[at..next] && b[at..][w..] == b[next..];
    } else {
      SerializeTooShort(rest, c, b[at..], w);
    }
  }

  lemma {:induction false} SerializeCut(fields: seq<Field>, c: Codec, b: seq<Byte>, k: nat, at: nat)
    requires WellFormed(c) && k <= |fields| && at <= |b|
    ensures Serialize(fields[k..], c) == Ok(b[at..]) <==> Cut(fields, c, b, k, at)
    decreases |fields| - k
  {
    if k == |fields| {
      assert fields[k..] == [];
      assert Serialize(fields[k..], c) == Ok([]) && (b[at..] == [] <==> at == |b|);
    } else {
      var next := at + Width(KindOf(fields[k]));
      SerializeStep(fields, c, b, k, at, next);
      if next <= |b| {
        SerializeCut(fields, c, b, k + 1, next);
      }
    }
  }

  lemma SerializeFirst(fields: seq<Field>, c: Codec, b: seq<Byte>, w: nat)
    requires WellFormed(c) && fields != [] && w == Width(KindOf(fields[0])) <= |b|
    ensures Serialize(fields, c) == Ok(b) <==>
      Encode(fields[0], c) == Ok(b[..w]) && Serialize(fields[1..], c) == Ok(b[w..])
  {
    var first, rest := Encode(fields[0], c), EncodeAll(fields[1..], c);
    assert b == b[..w] + b[w..];
    if first.Ok? && rest.Ok? {
      EncodeWidth(fields[0], c);
      var parts := [first.value] + rest.value;
      assert parts[1..] == rest.value;
      var whole := first.value + Concat(rest.value);
      assert whole[..w] == first.value && whole[w..] == Concat(rest.value);
    }
  }

  lemma SerializeTooShort(fields: seq<Field>, c: Codec, b: seq<Byte>, w: nat)
    requires WellFormed(c) && fields != [] && |b| < w == Width(KindOf(fields[0]))
    ensures Serialize(fields, c) != Ok(b)
  {
    if Serialize(fields, c).Ok? {
      EncodeWidth(fields[0], c);
    }
  }

  lemma CutWhole(fields: seq<Field>, c: Codec, b: seq<Byte>)
    requires WellFormed(c)
    ensures Serialize(fields, c) == Ok(b) <==> Cut(fields, c, b, 0, 0)
  {
    SerializeCut(fields, c, b, 0, 0);
    assert fields[0..] == fields && b[0..] == b;
  }

  /** One step of cutting, with the field and the width named. */
  lemma CutNext(fields: seq<Field>, c: Codec, b: seq<Byte>, k: nat, at: nat, f: Field, w: nat)
    requires k < |fields| && fields[k] == f && w == Width(KindOf(f))
    ensures Cut(fields, c, b, k, at) <==>
      at + w <= |b| && IsField(f, c, b[at..at + w]) && Cut(fields, c, b, k + 1, at + w)
  {
  }

  lemma CutEnd(fields: seq<Field>, c: Codec, b: seq<Byte>, at: nat)
    ensures Cut(fields, c, b, |fields|, at) <==> at == |b|
  {
  }

  /** All messages begin with type, version, account id and an address. */
  ghost predicate IsHeader(b: seq<Byte>, tag: Byte, id: int, address: seq<Byte>) {
    |b| >= 26 && b[0..1] == [tag] && b[1..2] == [1] && IsId(b[2..6], id, 0x100_0000) && IsBytes(b[6..26], address, 20)
  }

  lemma CutHeader(fields: seq<Field>, c: Codec, b: seq<Byte>, tag: Byte, id: int, address: seq<Byte>)
    requires |fields| >= 4 && fields[0] == Tag(tag) && fields[1] == Tag(1)
    requires fields[2] == AccountId(id) && fields[3] == Address(address)
    ensures Cut(fields, c, b, 0, 0) <==> IsHeader(b, tag, id, address) && Cut(fields, c, b, 4, 26)
  {
    CutNext(fields, c, b, 0, 0, Tag(tag), 1);
    CutNext(fields, c, b, 1, 1, Tag(1), 1);
    CutNext(fields, c, b, 2, 2, AccountId(id), 4);
    CutNext(fields, c, b, 3, 6, Address(address), 20);
  }

  lemma CutTimes(fields: seq<Field>, c: Codec, b: seq<Byte>, at: nat, from: int, until: int)
    requires |fields| >= 2 && fields[|fields| - 2] == Timestamp(from) && fields[|fields| - 1] == Timestamp(until)
    ensures Cut(fields, c, b, |fields| - 2, at) <==>
      |b| == at + 16 && IsTime(b[at..at + 8], from) && IsTime(b[at + 8..at + 16], until)
  {
    var n := |fields|;
    CutNext(fields, c, b, n - 2, at, Timestamp(from), 8);
    CutNext(fields, c, b, n - 1, at + 8, Timestamp(until), 8);
    CutEnd(fields, c, b, at + 16);
  }

  lemma CutAddress(fields: seq<Field>, c: Codec, b: seq<Byte>, k: nat, at: nat, bytes: seq<Byte>)
    requires k < |fields| && fields[k] == Address(bytes)
    ensures Cut(fields, c, b, k, at) <==>
      at + 20 <= |b| && IsBytes(b[at..at + 20], bytes, 20) && Cut(fields, c, b, k + 1, at + 20)
  {
  }

  lemma CutContent(fields: seq<Field>, c: Codec, b: seq<Byte>, k: nat, at: nat, bytes: seq<Byte>)
    requires k < |fields| && fields[k] == ContentHash(bytes)
    ensures Cut(fields, c, b, k, at) <==>
      at + 32 <= |b| && IsBytes(b[at..at + 32], bytes, 32) && Cut(fields, c, b, k + 1, at + 32)
  {
  }

  lemma CutOrders(fields: seq<Field>, c: Codec, b: seq<Byte>, k: nat, at: nat, bytes: seq<Byte>)
    requires k < |fields| && fields[k] == OrdersHash(bytes)
    ensures Cut(fields, c, b, k, at) <==>
      at + 31 <= |b| && IsBytes(b[at..at + 31], bytes, 31) && Cut(fields, c, b, k + 1, at + 31)
  {
  }

  lemma CutToken(fields: seq<Field>, c: Codec, b: seq<Byte>, k: nat, at: nat, token: int)
    requires k < |fields| && fields[k] == TokenId(token)
    ensures Cut(fields, c, b, k, at) <==>
      at + 4 <= |b| && IsId(b[at..at + 4], token, 0x8000_0000) && Cut(fields, c, b, k + 1, at + 4)
  {
  }

  lemma CutAmount(fields: seq<Field>, c: Codec, b: seq<Byte>, k: nat, at: nat, amount: nat)
    requires k < |fields| && fields[k] == AmountPacked(amount)
    ensures Cut(fields, c, b, k, at) <==>
      at + 5 <= |b| && Packs(c.amount, b[at..at + 5], amount) && Cut(fields, c, b, k + 1, at + 5)
  {
  }

  lemma CutFull(fields: seq<Field>, c: Codec, b: seq<Byte>, k: nat, at: nat, amount: nat)
    requires k < |fields| && fields[k] == AmountFull(amount)
    ensures Cut(fields, c, b, k, at) <==>
      at + 16 <= |b| && IsNumber(b[at..at + 16], amount, 16) && Cut(fields, c, b, k + 1, at + 16)
  {
  }

  lemma CutFee(fields: seq<Field>, c: Codec, b: seq<Byte>, k: nat, at: nat, fee: nat)
    requires k < |fields| && fields[k] == FeePacked(fee)
    ensures Cut(fields, c, b, k, at) <==>
      at + 2 <= |b| && Packs(c.fee, b[at..at + 2], fee) && Cut(fields, c, b, k + 1, at + 2)
  {
  }

  lemma CutPrice(fields: seq<Field>, c: Codec, b: seq<Byte>, k: nat, at: nat, price: nat)
    requires k < |fields| && fields[k] == Price(price)
    ensures Cut(fields, c, b, k, at) <==>
      at + 15 <= |b| && IsNumber(b[at..at + 15], price, 15) && Cut(fields, c, b, k + 1, at + 15)
  {
  }

  lemma CutNonce(fields: seq<Field>, c: Codec, b: seq<Byte>, k: nat, at: nat, nonce: int)
    requires k < |fields| && fields[k] == Nonce(nonce)
    ensures Cut(fields, c, b, k, at) <==>
      at + 4 <= |b| && IsNonce(b[at..at + 4], nonce) && Cut(fields, c, b, k + 1, at + 4)
  {
  }

  /** Most messages end with the fee, the nonce and two times. */
  lemma CutFeeToEnd(fields: seq<Field>, c: Codec, b: seq<Byte>, at: nat, fee: nat, nonce: int, from: int, until: int)
    requires |fields| >= 4 && fields[|fields| - 4] == FeePacked(fee) && fields[|fields| - 3] == Nonce(nonce)
    requires fields[|fields| - 2] == Timestamp(from) && fields[|fields| - 1] == Timestamp(until)
    ensures Cut(fields, c, b, |fields| - 4, at) <==>
      && |b| == at + 22 && Packs(c.fee, b[at..at + 2], fee) && IsNonce(b[at + 2..at + 6], nonce)
      && IsTime(b[at + 6..at + 14], from) && IsTime(b[at + 14..at + 22], until)
  {
    var n := |fields|;
    CutFee(fields, c, b, n - 4, at, fee);
    CutNonce(fields, c, b, n - 3, at + 2, nonce);
    CutTimes(fields, c, b, at + 6, from, until);
  }

  // ----- messages

  ghost predicate TransferFormat(m: Message, c: Codec, b: seq<Byte>)
    requires m.Transfer?
  {
    && |b| == 77 && IsHeader(b, 250, m.accountId, m.from) && IsBytes(b[26..46], m.to, 20)
    && IsId(b[46..50], m.token, 0x8000_0000) && Packs(c.amount, b[50..55], m.amount) && Packs(c.fee, b[55..57], m.fee)
    && IsNonce(b[57..61], m.nonce) && IsTime(b[61..69], m.validFrom) && IsTime(b[69..77], m.validUntil)
  }

  lemma TransferCut(m: Message, fs: seq<Field>, c: Codec, b: seq<Byte>)
    requires m.Transfer?
    requires |fs| == 11 && fs[0] == Tag(250) && fs[1] == Tag(1) && fs[2] == AccountId(m.accountId)
    requires fs[3] == Address(m.from) && fs[4] == Address(m.to) && fs[5] == TokenId(m.token)
    requires fs[6] == AmountPacked(m.amount) && fs[7] == FeePacked(m.fee) && fs[8] == Nonce(m.nonce)
    requires fs[9] == Timestamp(m.validFrom) && fs[10] == Timestamp(m.validUntil)
    ensures Cut(fs, c, b, 0, 0) <==> TransferFormat(m, c, b)
  {
    CutHeader(fs, c, b, 250, m.accountId, m.from);
    CutAddress(fs, c, b, 4, 26, m.to);
    CutToken(fs, c, b, 5, 46, m.token);
    CutAmount(fs, c, b, 6, 50, m.amount);
    CutFeeToEnd(fs, c, b, 55, m.fee, m.nonce, m.validFrom, m.validUntil);
  }

  lemma TransferBytes(m: Message, c: Codec, b: seq<Byte>)
    requires WellFormed(c) && m.Transfer?
    ensures SerializeMessage(m, c) == Ok(b) <==> TransferFormat(m, c, b)
  {
    var fs := Layout(m, c).value;
    CutWhole(fs, c, b);
    TransferCut(m, fs, c, b);
  }

  ghost predicate WithdrawFormat(m: Message, c: Codec, b: seq<Byte>)
    requires m.Withdraw?
  {
    && |b| == 88 && IsHeader(b, 252, m.accountId, m.from) && IsBytes(b[26..46], m.to, 20)
    && IsId(b[46..50], m.token, 0x8000_0000) && IsNumber(b[50..66], m.amount, 16) && Packs(c.fee, b[66..68], m.fee)
    && IsNonce(b[68..72], m.nonce) && IsTime(b[72..80], m.validFrom) && IsTime(b[80..88], m.validUntil)
  }

  lemma WithdrawCut(m: Message, fs: seq<Field>, c: Codec, b: seq<Byte>)
    requires m.Withdraw?
    requires |fs| == 11 && fs[0] == Tag(252) && fs[1] == Tag(1) && fs[2] == AccountId(m.accountId)
    requires fs[3] == Address(m.from) && fs[4] == Address(m.to) && fs[5] == TokenId(m.token)
    requires fs[6] == AmountFull(m.amount) && fs[7] == FeePacked(m.fee) && fs[8] == Nonce(m.nonce)
    requires fs[9] == Timestamp(m.validFrom) && fs[10] == Timestamp(m.validUntil)
    ensures Cut(fs, c, b, 0, 0) <==> WithdrawFormat(m, c, b)
  {
    CutHeader(fs, c, b, 252, m.accountId, m.from);
    CutAddress(fs, c, b, 4, 26, m.to);
    CutToken(fs, c, b, 5, 46, m.token);
    CutFull(fs, c, b, 6, 50, m.amount);
    CutFeeToEnd(fs, c, b, 66, m.fee, m.nonce, m.validFrom, m.validUntil);
  }

  lemma WithdrawBytes(m: Message, c: Codec, b: seq<Byte>)
    requires WellFormed(c) && m.Withdraw?
    ensures SerializeMessage(m, c) == Ok(b) <==> WithdrawFormat(m, c, b)
  {
    var fs := Layout(m, c).value;
    CutWhole(fs, c, b);
    WithdrawCut(m, fs, c, b);
  }

  ghost predicate ChangePubKeyFormat(m: Message, c: Codec, b: seq<Byte>)
    requires m.ChangePubKey?
  {
    && |b| == 72 && IsHeader(b, 248, m.accountId, m.account) && IsBytes(b[26..46], m.newPkHash, 20)
    && IsId(b[46..50], m.feeToken, 0x8000_0000) && Packs(c.fee, b[50..52], m.fee) && IsNonce(b[52..56], m.nonce)
    && IsTime(b[56..64], m.validFrom) && IsTime(b[64..72], m.validUntil)
  }

  lemma ChangePubKeyCut(m: Message, fs: seq<Field>, c: Codec, b: seq<Byte>)
    requires m.ChangePubKey?
    requires |fs| == 10 && fs[0] == Tag(248) && fs[1] == Tag(1) && fs[2] == AccountId(m.accountId)
    requires fs[3] == Address(m.account) && fs[4] == Address(m.newPkHash) && fs[5] == TokenId(m.feeToken)
    requires fs[6] == FeePacked(m.fee) && fs[7] == Nonce(m.nonce) && fs[8] == Timestamp(m.validFrom)
    requires fs[9] == Timestamp(m.validUntil)
    ensures Cut(fs, c, b, 0, 0) <==> ChangePubKeyFormat(m, c, b)
  {
    CutHeader(fs, c, b, 248, m.accountId, m.account);
    CutAddress(fs, c, b, 4, 26, m.newPkHash);
    CutToken(fs, c, b, 5, 46, m.feeToken);
    CutFeeToEnd(fs, c, b, 50, m.fee, m.nonce, m.validFrom, m.validUntil);
  }

  lemma ChangePubKeyBytes(m: Message, c: Codec, b: seq<Byte>)
    requires WellFormed(c) && m.ChangePubKey?
    ensures SerializeMessage(m, c) == Ok(b) <==> ChangePubKeyFormat(m, c, b)
  {
    var fs := Layout(m, c).value;
    CutWhole(fs, c, b);
    ChangePubKeyCut(m, fs, c, b);
  }

  ghost predicate ForcedExitFormat(m: Message, c: Codec, b: seq<Byte>)
    requires m.ForcedExit?
  {
    && |b| == 52 && IsHeader(b, 247, m.initiatorAccountId, m.target) && IsId(b[26..30], m.token, 0x8000_0000)
    && Packs(c.fee, b[30..32], m.fee) && IsNonce(b[32..36], m.nonce) && IsTime(b[36..44], m.validFrom)
    && IsTime(b[44..52], m.validUntil)
  }

  lemma ForcedExitCut(m: Message, fs: seq<Field>, c: Codec, b: seq<Byte>)
    requires m.ForcedExit?
    requires |fs| == 9 && fs[0] == Tag(247) && fs[1] == Tag(1) && fs[2] == AccountId(m.initiatorAccountId)
    requires fs[3] == Address(m.target) && fs[4] == TokenId(m.token) && fs[5] == FeePacked(m.fee)
    requires fs[6] == Nonce(m.nonce) && fs[7] == Timestamp(m.validFrom) && fs[8] == Timestamp(m.validUntil)
    ensures Cut(fs, c, b, 0, 0) <==> ForcedExitFormat(m, c, b)
  {
    CutHeader(fs, c, b, 247, m.initiatorAccountId, m.target);
    CutToken(fs, c, b, 4, 26, m.token);
    CutFeeToEnd(fs, c, b, 30, m.fee, m.nonce, m.validFrom, m.validUntil);
  }

  lemma ForcedExitBytes(m: Message, c: Codec, b: seq<Byte>)
    requires WellFormed(c) && m.ForcedExit?
    ensures SerializeMessage(m, c) == Ok(b) <==> ForcedExitFormat(m, c, b)
  {
    var fs := Layout(m, c).value;
    CutWhole(fs, c, b);
    ForcedExitCut(m, fs, c, b);
  }

  ghost predicate MintNFTFormat(m: Message, c: Codec, b: seq<Byte>)
    requires m.MintNFT?
  {
    && |b| == 88 && IsHeader(b, 246, m.creatorId, m.creatorAddress) && IsBytes(b[26..58], m.contentHash, 32)
    && IsBytes(b[58..78], m.recipient, 20) && IsId(b[78..82], m.feeToken, 0x8000_0000)
    && Packs(c.fee, b[82..84], m.fee) && IsNonce(b[84..88], m.nonce)
  }

  lemma MintNFTCut(m: Message, fs: seq<Field>, c: Codec, b: seq<Byte>)
    requires m.MintNFT?
    requires |fs| == 9 && fs[0] == Tag(246) && fs[1] == Tag(1) && fs[2] == AccountId(m.creatorId)
    requires fs[3] == Address(m.creatorAddress) && fs[4] == ContentHash(m.contentHash)
    requires fs[5] == Address(m.recipient) && fs[6] == TokenId(m.feeToken) && fs[7] == FeePacked(m.fee)
    requires fs[8] == Nonce(m.nonce)
    ensures Cut(fs, c, b, 0, 0) <==> MintNFTFormat(m, c, b)
  {
    CutHeader(fs, c, b, 246, m.creatorId, m.creatorAddress);
    CutContent(fs, c, b, 4, 26, m.contentHash);
    CutAddress(fs, c, b, 5, 58, m.recipient);
    CutToken(fs, c, b, 6, 78, m.feeToken);
    CutFee(fs, c, b, 7, 82, m.fee);
    CutNonce(fs, c, b, 8, 84, m.nonce);
    CutEnd(fs, c, b, 88);
  }

  lemma MintNFTBytes(m: Message, c: Codec, b: seq<Byte>)
    requires WellFormed(c) && m.MintNFT?
    ensures SerializeMessage(m, c) == Ok(b) <==> MintNFTFormat(m, c, b)
  {
    var fs := Layout(m, c).value;
    CutWhole(fs, c, b);
    MintNFTCut(m, fs, c, b);
  }

  ghost predicate WithdrawNFTFormat(m: Message, c: Codec, b: seq<Byte>)
    requires m.WithdrawNFT?
  {
    && |b| == 76 && IsHeader(b, 245, m.accountId, m.from) && IsBytes(b[26..46], m.to, 20)
    && IsId(b[46..50], m.token, 0x8000_0000) && IsId(b[50..54], m.feeToken, 0x8000_0000)
    && Packs(c.fee, b[54..56], m.fee) && IsNonce(b[56..60], m.nonce) && IsTime(b[60..68], m.validFrom)
    && IsTime(b[68..76], m.validUntil)
  }

  lemma WithdrawNFTCut(m: Message, fs: seq<Field>, c: Codec, b: seq<Byte>)
    requires m.WithdrawNFT?
    requires |fs| == 11 && fs[0] == Tag(245) && fs[1] == Tag(1) && fs[2] == AccountId(m.accountId)
    requires fs[3] == Address(m.from) && fs[4] == Address(m.to) && fs[5] == TokenId(m.token)
    requires fs[6] == TokenId(m.feeToken) && fs[7] == FeePacked(m.fee) && fs[8] == Nonce(m.nonce)
    requires fs[9] == Timestamp(m.validFrom) && fs[10] == Timestamp(m.validUntil)
    ensures Cut(fs, c, b, 0, 0) <==> WithdrawNFTFormat(m, c, b)
  {
    CutHeader(fs, c, b, 245, m.accountId, m.from);
    CutAddress(fs, c, b, 4, 26, m.to);
    CutToken(fs, c, b, 5, 46, m.token);
    CutToken(fs, c, b, 6, 50, m.feeToken);
    CutFeeToEnd(fs, c, b, 54, m.fee, m.nonce, m.validFrom, m.validUntil);
  }

  lemma WithdrawNFTBytes(m: Message, c: Codec, b: seq<Byte>)
    requires WellFormed(c) && m.WithdrawNFT?
    ensures SerializeMessage(m, c) == Ok(b) <==> WithdrawNFTFormat(m, c, b)
  {
    var fs := Layout(m, c).value;
    CutWhole(fs, c, b);
    WithdrawNFTCut(m, fs, c, b);
  }

  ghost predicate OrderFormat(o: Order, c: Codec, b: seq<Byte>) {
    && |b| == 89 && IsHeader(b, 111, o.accountId, o.recipient) && IsNonce(b[26..30], o.nonce)
    && IsId(b[30..34], o.tokenSell, 0x8000_0000) && IsId(b[34..38], o.tokenBuy, 0x8000_0000)
    && IsNumber(b[38..53], o.sellPrice, 15) && IsNumber(b[53..68], o.buyPrice, 15)
    && Packs(c.amount, b[68..73], o.amount) && IsTime(b[73..81], o.validFrom) && IsTime(b[81..89], o.validUntil)
  }

  lemma OrderCut(o: Order, fs: seq<Field>, c: Codec, b: seq<Byte>)
    requires |fs| == 12 && fs[0] == Tag(111) && fs[1] == Tag(1) && fs[2] == AccountId(o.accountId)
    requires fs[3] == Address(o.recipient) && fs[4] == Nonce(o.nonce) && fs[5] == TokenId(o.tokenSell)
    requires fs[6] == TokenId(o.tokenBuy) && fs[7] == Price(o.sellPrice) && fs[8] == Price(o.buyPrice)
    requires fs[9] == AmountPacked(o.amount) && fs[10] == Timestamp(o.validFrom) && fs[11] == Timestamp(o.validUntil)
    ensures Cut(fs, c, b, 0, 0) <==> OrderFormat(o, c, b)
  {
    CutHeader(fs, c, b, 111, o.accountId, o.recipient);
    CutNonce(fs, c, b, 4, 26, o.nonce);
    CutToken(fs, c, b, 5, 30, o.tokenSell);
    CutToken(fs, c, b, 6, 34, o.tokenBuy);
    CutPrice(fs, c, b, 7, 38, o.sellPrice);
    CutPrice(fs, c, b, 8, 53, o.buyPrice);
    CutAmount(fs, c, b, 9, 68, o.amount);
    CutTimes(fs, c, b, 73, o.validFrom, o.validUntil);
  }

  lemma OrderBytes(o: Order, c: Codec, b: seq<Byte>)
    requires WellFormed(c)
    ensures Serialize(OrderLayout(o), c) == Ok(b) <==> OrderFormat(o, c, b)
  {
    CutWhole(OrderLayout(o), c, b);
    OrderCut(o, OrderLayout(o), c, b);
  }

  ghost predicate SwapFields(m: Message, c: Codec, hash: seq<Byte>, b: seq<Byte>)
    requires m.Swap?
  {
    && |b| == 77 && IsHeader(b, 244, m.submitterId, m.submitterAddress) && IsNonce(b[26..30], m.nonce)
    && IsBytes(b[30..61], hash, 31) && IsId(b[61..65], m.feeToken, 0x8000_0000) && Packs(c.fee, b[65..67], m.fee)
    && Packs(c.amount, b[67..72], m.amountA) && Packs(c.amount, b[72..77], m.amountB)
  }

  /** A swap holds the hash of its two orders, one after the other. */
  ghost predicate SwapFormat(m: Message, c: Codec, b: seq<Byte>)
    requires m.Swap?
  {
    exists x, y :: OrderFormat(m.orderA, c, x) && OrderFormat(m.orderB, c, y) && SwapFields(m, c, c.hashOrders(x + y), b)
  }

  lemma SwapEnd(fs: seq<Field>, c: Codec, b: seq<Byte>, token: int, fee: nat, amountA: nat, amountB: nat)
    requires |fs| == 10 && fs[6] == TokenId(token) && fs[7] == FeePacked(fee)
    requires fs[8] == AmountPacked(amountA) && fs[9] == AmountPacked(amountB)
    ensures Cut(fs, c, b, 6, 61) <==>
      && |b| == 77 && IsId(b[61..65], token, 0x8000_0000) && Packs(c.fee, b[65..67], fee)
      && Packs(c.amount, b[67..72], amountA) && Packs(c.amount, b[72..77], amountB)
  {
    CutToken(fs, c, b, 6, 61, token);
    CutFee(fs, c, b, 7, 65, fee);
    CutAmount(fs, c, b, 8, 67, amountA);
    CutAmount(fs, c, b, 9, 72, amountB);
    CutEnd(fs, c, b, 77);
  }

  lemma SwapCut(m: Message, hash: seq<Byte>, fs: seq<Field>, c: Codec, b: seq<Byte>)
    requires m.Swap?
    requires |fs| == 10 && fs[0] == Tag(244) && fs[1] == Tag(1) && fs[2] == AccountId(m.submitterId)
    requires fs[3] == Address(m.submitterAddress) && fs[4] == Nonce(m.nonce) && fs[5] == OrdersHash(hash)
    requires fs[6] == TokenId(m.feeToken) && fs[7] == FeePacked(m.fee) && fs[8] == AmountPacked(m.amountA)
    requires fs[9] == AmountPacked(m.amountB)
    ensures Cut(fs, c, b, 0, 0) <==> SwapFields(m, c, hash, b)
  {
    CutHeader(fs, c, b, 244, m.submitterId, m.submitterAddress);
    CutNonce(fs, c, b, 4, 26, m.nonce);
    CutOrders(fs, c, b, 5, 30, hash);
    SwapEnd(fs, c, b, m.feeToken, m.fee, m.amountA, m.amountB);
  }

  lemma SwapFieldBytes(m: Message, c: Codec, hash: seq<Byte>, b: seq<Byte>)
    requires WellFormed(c) && m.Swap?
    ensures Serialize(SwapLayout(m, hash), c) == Ok(b) <==> SwapFields(m, c, hash, b)
  {
    CutWhole(SwapLayout(m, hash), c, b);
    SwapCut(m, hash, SwapLayout(m, hash), c, b);
  }

  /** A swap is serialised only with both of its orders. */
  lemma SwapParts(m: Message, c: Codec, b: seq<Byte>)
    requires WellFormed(c) && m.Swap?
    ensures var x, y := Serialize(OrderLayout(m.orderA), c), Serialize(OrderLayout(m.orderB), c);
      SerializeMessage(m, c) == Ok(b) <==>
        x.Ok? && y.Ok? && Serialize(SwapLayout(m, c.hashOrders(x.value + y.value)), c) == Ok(b)
  {
  }

  lemma SwapFound(m: Message, c: Codec, b: seq<Byte>, x: seq<Byte>, y: seq<Byte>)
    requires WellFormed(c) && m.Swap?
    requires OrderFormat(m.orderA, c, x) && OrderFormat(m.orderB, c, y) && SwapFields(m, c, c.hashOrders(x + y), b)
    ensures SerializeMessage(m, c) == Ok(b)
  {
    OrderBytes(m.orderA, c, x);
    OrderBytes(m.orderB, c, y);
    SwapFieldBytes(m, c, c.hashOrders(x + y), b);
    SwapParts(m, c, b);
  }

  lemma SwapSplits(m: Message, c: Codec, b: seq<Byte>) returns (x: seq<Byte>, y: seq<Byte>)
    requires WellFormed(c) && m.Swap? && SerializeMessage(m, c) == Ok(b)
    ensures OrderFormat(m.orderA, c, x) && OrderFormat(m.orderB, c, y) && SwapFields(m, c, c.hashOrders(x + y), b)
  {
    SwapParts(m, c, b);
    x, y := Serialize(OrderLayout(m.orderA), c).value, Serialize(OrderLayout(m.orderB), c).value;
    OrderBytes(m.orderA, c, x);
    OrderBytes(m.orderB, c, y);
    SwapFieldBytes(m, c, c.hashOrders(x + y), b);
  }

  lemma SwapBytes(m: Message, c: Codec, b: seq<Byte>)
    requires WellFormed(c) && m.Swap?
    ensures SerializeMessage(m, c) == Ok(b) <==> SwapFormat(m, c, b)
  {
    if SerializeMessage(m, c) == Ok(b) {
      var x, y := SwapSplits(m, c, b);
    }
    forall x, y | OrderFormat(m.orderA, c, x) && OrderFormat(m.orderB, c, y) && SwapFields(m, c, c.hashOrders(x + y), b)
      ensures SerializeMessage(m, c) == Ok(b)
    {
      SwapFound(m, c, b, x, y);
    }
  }

  // ----- all messages

  /** The bytes of a message. Closing an account has none. */
  ghost predicate Format(m: Message, c: Codec, b: seq<Byte>) {
    match m
    case Transfer(_, _, _, _, _, _, _, _, _) => TransferFormat(m, c, b)
    case Withdraw(_, _, _, _, _, _, _, _, _) => WithdrawFormat(m, c, b)
    case ChangePubKey(_, _, _, _, _, _, _, _) => ChangePubKeyFormat(m, c, b)
    case ForcedExit(_, _, _, _, _, _, _) => ForcedExitFormat(m, c, b)
    case MintNFT(_, _, _, _, _, _, _) => MintNFTFormat(m, c, b)
    case WithdrawNFT(_, _, _, _, _, _, _, _, _) => WithdrawNFTFormat(m, c, b)
    case Swap(_, _, _, _, _, _, _, _, _) => SwapFormat(m, c, b)
    case OrderMessage(order) => OrderFormat(order, c, b)
    case CloseAccount => b == []
  }

  /** A message is serialised to exactly the bytes of its format, and refused if there are none. */
  lemma MessageIsFormat(m: Message, c: Codec, b: seq<Byte>)
    requires WellFormed(c)
    ensures SerializeMessage(m, c) == Ok(b) <==> Format(m, c, b)
  {
    match m
    case Transfer(_, _, _, _, _, _, _, _, _) => TransferBytes(m, c, b);
    case Withdraw(_, _, _, _, _, _, _, _, _) => WithdrawBytes(m, c, b);
    case ChangePubKey(_, _, _, _, _, _, _, _) => ChangePubKeyBytes(m, c, b);
    case ForcedExit(_, _, _, _, _, _, _) => ForcedExitBytes(m, c, b);
    case MintNFT(_, _, _, _, _, _, _) => MintNFTBytes(m, c, b);
    case WithdrawNFT(_, _, _, _, _, _, _, _, _) => WithdrawNFTBytes(m, c, b);
    case Swap(_, _, _, _, _, _, _, _, _) => SwapBytes(m, c, b);
    case OrderMessage(order) => OrderBytes(order, c, b);
    case CloseAccount =>
  }
}
