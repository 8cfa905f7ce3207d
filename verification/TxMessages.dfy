/**
 Serialisation of transactions and orders into the bytes that get signed. Every message is a list
 of fixed-width fields; distinct fields stay distinct even after the padding that precedes hashing.
 */
module TxMessages {
  import opened Wrappers
  import opened Powers
  import opened Sequences
  import opened BitCodec
  import opened PackedFloat
  import opened MessageBytes

  const MAX_NUMBER_OF_TOKENS := 0x8000_0000
  const MAX_NUMBER_OF_ACCOUNTS := 0x100_0000
  const CURRENT_TX_VERSION: Byte := 1
  const NUMBER_WIDTH: nat := 4
  const FULL_AMOUNT_WIDTH: nat := 16
  const PRICE_WIDTH: nat := 15

  datatype Order = Order(
    accountId: int, recipient: seq<Byte>, nonce: int, tokenSell: int, tokenBuy: int,
    sellPrice: nat, buyPrice: nat, amount: nat, validFrom: int, validUntil: int)

  datatype Message =
    | Transfer(accountId: int, from: seq<Byte>, to: seq<Byte>, token: int, amount: nat, fee: nat,
               nonce: int, validFrom: int, validUntil: int)
    | Withdraw(accountId: int, from: seq<Byte>, to: seq<Byte>, token: int, amount: nat, fee: nat,
               nonce: int, validFrom: int, validUntil: int)
    | ChangePubKey(accountId: int, account: seq<Byte>, newPkHash: seq<Byte>, feeToken: int, fee: nat,
                   nonce: int, validFrom: int, validUntil: int)
    | ForcedExit(initiatorAccountId: int, target: seq<Byte>, token: int, fee: nat,
                 nonce: int, validFrom: int, validUntil: int)
    | MintNFT(creatorId: int, creatorAddress: seq<Byte>, contentHash: seq<Byte>, recipient: seq<Byte>,
              feeToken: int, fee: nat, nonce: int)
    | WithdrawNFT(accountId: int, from: seq<Byte>, to: seq<Byte>, token: int, feeToken: int, fee: nat,
                  nonce: int, validFrom: int, validUntil: int)
    | Swap(submitterId: int, submitterAddress: seq<Byte>, nonce: int, orderA: Order, orderB: Order,
           feeToken: int, fee: nat, amountA: nat, amountB: nat)
    | OrderMessage(order: Order)
    | CloseAccount

  datatype Field =
    | Tag(tag: Byte)
    | AccountId(id: int)
    | Address(bytes: seq<Byte>)
    | ContentHash(bytes: seq<Byte>)
    | OrdersHash(bytes: seq<Byte>)
    | TokenId(token: int)
    | AmountPacked(amount: nat)
    | AmountFull(amount: nat)
    | FeePacked(fee: nat)
    | Price(price: nat)
    | Nonce(nonce: int)
    | Timestamp(time: int)

  datatype Kind = KTag | KAccountId | KAddress | KContentHash | KOrdersHash | KTokenId | KAmountPacked
    | KAmountFull | KFeePacked | KPrice | KNonce | KTimestamp

  datatype FieldError = Negative | TooBig | WrongLength | NotPackable

  /** The float formats of amounts and fees, and the hash of two serialised orders. */
  datatype Codec = Codec(amount: Format, fee: Format, hashOrders: seq<Byte> -> seq<Byte>)

  predicate WellFormed(c: Codec) {
    && Valid(c.amount) && c.amount.expBits + c.amount.mantissaBits == 40
    && Valid(c.fee) && c.fee.expBits + c.fee.mantissaBits == 16
  }

  /** The formats in use are such a codec. */
  lemma SourceFormatsWellFormed(hashOrders: seq<Byte> -> seq<Byte>)
    ensures WellFormed(Codec(AMOUNT, FEE, hashOrders))
  {
  }

  // ----- one field

  function NumberBytes(n: int): (r: seq<Byte>)
    ensures |r| == 4
  {
    Reverse(Digits(ToInt32(n), NUMBER_WIDTH))
  }

  function PackedField(fmt: Format, n: nat): Result<seq<Byte>, FieldError>
    requires Valid(fmt)
  {
    var packed := PackedBytes(fmt, n);
    if packed.Ok? then Ok(packed.value) else Err(FieldError.NotPackable)
  }

  /** Left-pads the big-endian bytes of n with zeros and throws when they do not fit. */
  function ZeroPad(n: nat, width: nat): Result<seq<Byte>, FieldError> {
    if n < Pow(256, width) then Ok(BigEndian(n, width)) else Err(TooBig)
  }

  function Encode(f: Field, c: Codec): Result<seq<Byte>, FieldError>
    requires WellFormed(c)
  {
    match f
    case Tag(tag) => Ok([tag])
    case AccountId(id) =>
      if id < 0 then Err(Negative)
      else if id >= MAX_NUMBER_OF_ACCOUNTS then Err(TooBig)
      else Ok(NumberBytes(id))
    case Address(bytes) => if |bytes| == 20 then Ok(bytes) else Err(WrongLength)
    case ContentHash(bytes) => if |bytes| == 32 then Ok(bytes) else Err(WrongLength)
    case OrdersHash(bytes) => if |bytes| == 31 then Ok(bytes) else Err(WrongLength)
    case TokenId(token) =>
      if token < 0 then Err(Negative)
      else if token >= MAX_NUMBER_OF_TOKENS then Err(TooBig)
      else Ok(NumberBytes(token))
    case AmountPacked(amount) => PackedField(c.amount, amount)
    case AmountFull(amount) => ZeroPad(amount, FULL_AMOUNT_WIDTH)
    case FeePacked(fee) => PackedField(c.fee, fee)
    case Price(price) => ZeroPad(price, PRICE_WIDTH)
    case Nonce(nonce) => if nonce < 0 then Err(Negative) else Ok(NumberBytes(nonce))
    case Timestamp(time) => if time < 0 then Err(Negative) else Ok([0, 0, 0, 0] + NumberBytes(time))
  }

  function KindOf(f: Field): Kind {
    match f
    case Tag(_) => KTag
    case AccountId(_) => KAccountId
    case Address(_) => KAddress
    case ContentHash(_) => KContentHash
    case OrdersHash(_) => KOrdersHash
    case TokenId(_) => KTokenId
    case AmountPacked(_) => KAmountPacked
    case AmountFull(_) => KAmountFull
    case FeePacked(_) => KFeePacked
    case Price(_) => KPrice
    case Nonce(_) => KNonce
    case Timestamp(_) => KTimestamp
  }

  function Width(k: Kind): nat {
    match k
    case KTag => 1
    case KAccountId | KTokenId | KNonce => 4
    case KAddress => 20
    case KContentHash => 32
    case KOrdersHash => 31
    case KAmountPacked => 5
    case KAmountFull => 16
    case KFeePacked => 2
    case KPrice => 15
    case KTimestamp => 8
  }

  /** The part of a field that its bytes keep: nonces and timestamps are cut to 32 bits. */
  function Normal(f: Field): Field {
    match f
    case Nonce(nonce) => Nonce(nonce % TWO_32)
    case Timestamp(time) => Timestamp(time % TWO_32)
    case _ => f
  }

  lemma EncodeWidth(f: Field, c: Codec)
    requires WellFormed(c)
    requires Encode(f, c).Ok?
    ensures |Encode(f, c).value| == Width(KindOf(f))
  {
    if f.AmountPacked? || f.FeePacked? {
      EncodePackedWidth(f, c);
    }
  }

  lemma EncodePackedWidth(f: Field, c: Codec)
    requires WellFormed(c)
    requires Encode(f, c).Ok? && (f.AmountPacked? || f.FeePacked?)
    ensures |Encode(f, c).value| == Width(KindOf(f))
  {
    if f.AmountPacked? {
      PackedFieldWidth(c.amount, f.amount);
    } else {
      PackedFieldWidth(c.fee, f.fee);
    }
  }

  lemma PackedFieldWidth(fmt: Format, n: nat)
    requires Valid(fmt) && PackedField(fmt, n).Ok?
    ensures 8 * |PackedField(fmt, n).value| == fmt.expBits + fmt.mantissaBits
  {
  }

  lemma NumberBytesInjective(m: int, n: int)
    ensures NumberBytes(m) == NumberBytes(n) <==> m % TWO_32 == n % TWO_32
  {
    FourBytes(m);
    FourBytes(n);
    assert Pow(256, 2) == 0x1_0000;
    assert Pow(256, 4) == TWO_32;
    if NumberBytes(m) == NumberBytes(n) {
      BigEndianInjective(m % TWO_32, n % TWO_32, 4);
    }
  }

  lemma SmallModulo(n: nat)
    requires n < TWO_32
    ensures n % TWO_32 == n
  {
  }

  lemma SmallNumbersInjective(m: nat, n: nat)
    requires m < TWO_32 && n < TWO_32
    ensures NumberBytes(m) == NumberBytes(n) <==> m == n
  {
    SmallModulo(m);
    SmallModulo(n);
    NumberBytesInjective(m, n);
  }

  lemma ZeroPadInjective(m: nat, n: nat, width: nat)
    requires ZeroPad(m, width).Ok?
    ensures ZeroPad(m, width) == ZeroPad(n, width) ==> m == n
  {
    if ZeroPad(m, width) == ZeroPad(n, width) {
      BigEndianInjective(m, n, width);
    }
  }

  lemma PackedFieldInjective(fmt: Format, m: nat, n: nat)
    requires Valid(fmt) && PackedField(fmt, m).Ok?
    ensures PackedField(fmt, m) == PackedField(fmt, n) ==> m == n
  {
  }

  lemma EncodeNumberInjective(f: Field, g: Field, c: Codec)
    requires WellFormed(c)
    requires KindOf(f) == KindOf(g) && Encode(f, c).Ok? && Encode(g, c).Ok?
    requires f.AccountId? || f.TokenId? || f.Nonce?
    ensures Encode(f, c) == Encode(g, c) <==> Normal(f) == Normal(g)
  {
    if f.AccountId? {
      SmallNumbersInjective(f.id, g.id);
    } else if f.TokenId? {
      SmallNumbersInjective(f.token, g.token);
    } else {
      NumberBytesInjective(f.nonce, g.nonce);
    }
  }

  lemma PaddedInjective(x: seq<Byte>, y: seq<Byte>)
    ensures [0, 0, 0, 0] + x == [0, 0, 0, 0] + y <==> x == y
  {
    assert ([0, 0, 0, 0] + x)[4..] == x && ([0, 0, 0, 0] + y)[4..] == y;
  }

  lemma EncodeTimestampInjective(f: Field, g: Field, c: Codec)
    requires WellFormed(c)
    requires f.Timestamp? && g.Timestamp? && Encode(f, c).Ok? && Encode(g, c).Ok?
    ensures Encode(f, c) == Encode(g, c) <==> Normal(f) == Normal(g)
  {
    NumberBytesInjective(f.time, g.time);
    PaddedInjective(NumberBytes(f.time), NumberBytes(g.time));
  }

  lemma EncodeAmountInjective(f: Field, g: Field, c: Codec)
    requires WellFormed(c)
    requires KindOf(f) == KindOf(g) && Encode(f, c).Ok? && Encode(g, c).Ok?
    requires f.AmountPacked? || f.FeePacked?
    ensures Encode(f, c) == Encode(g, c) <==> f == g
  {
    if f.AmountPacked? {
      PackedFieldInjective(c.amount, f.amount, g.amount);
    } else {
      PackedFieldInjective(c.fee, f.fee, g.fee);
    }
  }

  lemma EncodePaddedInjective(f: Field, g: Field, c: Codec)
    requires WellFormed(c)
    requires KindOf(f) == KindOf(g) && Encode(f, c).Ok? && Encode(g, c).Ok?
    requires f.AmountFull? || f.Price?
    ensures Encode(f, c) == Encode(g, c) <==> f == g
  {
    if f.AmountFull? {
      ZeroPadInjective(f.amount, g.amount, FULL_AMOUNT_WIDTH);
    } else {
      ZeroPadInjective(f.price, g.price, PRICE_WIDTH);
    }
  }

  /** Two accepted fields of one kind have the same bytes exactly when they agree up to the 32-bit cut. */
  lemma EncodeInjective(f: Field, g: Field, c: Codec)
    requires WellFormed(c)
    requires KindOf(f) == KindOf(g) && Encode(f, c).Ok? && Encode(g, c).Ok?
    ensures Encode(f, c) == Encode(g, c) <==> Normal(f) == Normal(g)
  {
    if f.AccountId? || f.TokenId? || f.Nonce? {
      EncodeNumberInjective(f, g, c);
    } else if f.Timestamp? {
      EncodeTimestampInjective(f, g, c);
    } else if f.AmountPacked? || f.FeePacked? {
      EncodeAmountInjective(f, g, c);
    } else if f.AmountFull? || f.Price? {
      EncodePaddedInjective(f, g, c);
    }
  }

  // ----- lists of fields

  function EncodeAll(fields: seq<Field>, c: Codec): Result<seq<seq<Byte>>, FieldError>
    requires WellFormed(c)
  {
    if fields == [] then Ok([]) else
      var first :- Encode(fields[0], c);
      var rest :- EncodeAll(fields[1..], c);
      Ok([first] + rest)
  }

  function Serialize(fields: seq<Field>, c: Codec): Result<seq<Byte>, FieldError>
    requires WellFormed(c)
  {
    var parts :- EncodeAll(fields, c);
    Ok(Concat(parts))
  }

  function Kinds(fields: seq<Field>): (r: seq<Kind>)
    ensures |r| == |fields| && forall i :: 0 <= i < |r| ==> r[i] == KindOf(fields[i])
  {
    seq(|fields|, i requires 0 <= i < |fields| => KindOf(fields[i]))
  }

  function Widths(kinds: seq<Kind>): (r: seq<nat>)
    ensures |r| == |kinds| && forall i :: 0 <= i < |r| ==> r[i] == Width(kinds[i])
  {
    seq(|kinds|, i requires 0 <= i < |kinds| => Width(kinds[i]))
  }

  function NormalAll(fields: seq<Field>): (r: seq<Field>)
    ensures |r| == |fields| && forall i :: 0 <= i < |r| ==> r[i] == Normal(fields[i])
  {
    seq(|fields|, i requires 0 <= i < |fields| => Normal(fields[i]))
  }

  lemma {:induction false} EncodeAllAt(fields: seq<Field>, c: Codec)
    requires WellFormed(c)
    requires EncodeAll(fields, c).Ok?
    ensures |EncodeAll(fields, c).value| == |fields|
    ensures forall i :: 0 <= i < |fields| ==>
      Encode(fields[i], c) == Ok(EncodeAll(fields, c).value[i]) && |EncodeAll(fields, c).value[i]| == Width(KindOf(fields[i]))
  {
    if fields == [] {
    } else {
      EncodeWidth(fields[0], c);
      EncodeAllAt(fields[1..], c);
    }
  }

  lemma SerializeLength(fields: seq<Field>, c: Codec)
    requires WellFormed(c)
    requires Serialize(fields, c).Ok?
    ensures |Serialize(fields, c).value| == SumFrom(Widths(Kinds(fields)), 0)
  {
    var parts := EncodeAll(fields, c).value;
    EncodeAllAt(fields, c);
    ConcatLength(parts, Widths(Kinds(fields)), 0);
    assert parts[0..] == parts;
  }

  lemma SerializeInjective(xs: seq<Field>, ys: seq<Field>, c: Codec)
    requires WellFormed(c)
    requires Kinds(xs) == Kinds(ys) && Serialize(xs, c).Ok? && Serialize(ys, c).Ok?
    ensures Serialize(xs, c) == Serialize(ys, c) <==> NormalAll(xs) == NormalAll(ys)
  {
    var px, py := EncodeAll(xs, c).value, EncodeAll(ys, c).value;
    EncodeAllAt(xs, c);
    EncodeAllAt(ys, c);
    forall i | 0 <= i < |xs|
      ensures px[i] == py[i] <==> NormalAll(xs)[i] == NormalAll(ys)[i]
    {
      assert Kinds(xs)[i] == Kinds(ys)[i];
      EncodeInjective(xs[i], ys[i], c);
    }
    if Serialize(xs, c) == Serialize(ys, c) {
      ConcatInjective(px, py);
    }
    if NormalAll(xs) == NormalAll(ys) {
      assert px == py;
    }
  }

  // ----- messages

  function OrderLayout(o: Order): seq<Field> {
    [Tag('o' as int), Tag(CURRENT_TX_VERSION), AccountId(o.accountId), Address(o.recipient), Nonce(o.nonce),
     TokenId(o.tokenSell), TokenId(o.tokenBuy), Price(o.sellPrice), Price(o.buyPrice),
     AmountPacked(o.amount), Timestamp(o.validFrom), Timestamp(o.validUntil)]
  }

  function SwapLayout(m: Message, ordersHash: seq<Byte>): seq<Field>
    requires m.Swap?
  {
    [Tag(255 - 11), Tag(CURRENT_TX_VERSION), AccountId(m.submitterId), Address(m.submitterAddress), Nonce(m.nonce),
     OrdersHash(ordersHash), TokenId(m.feeToken), FeePacked(m.fee), AmountPacked(m.amountA), AmountPacked(m.amountB)]
  }

  /** The fields of a message in order. */
  function Layout(m: Message, c: Codec): Result<seq<Field>, FieldError>
    requires WellFormed(c)
  {
    match m
    case Transfer(accountId, from, to, token, amount, fee, nonce, validFrom, validUntil) =>
      Ok([Tag(255 - 5), Tag(CURRENT_TX_VERSION), AccountId(accountId), Address(from), Address(to), TokenId(token),
          AmountPacked(amount), FeePacked(fee), Nonce(nonce), Timestamp(validFrom), Timestamp(validUntil)])
    case Withdraw(accountId, from, to, token, amount, fee, nonce, validFrom, validUntil) =>
      Ok([Tag(255 - 3), Tag(CURRENT_TX_VERSION), AccountId(accountId), Address(from), Address(to), TokenId(token),
          AmountFull(amount), FeePacked(fee), Nonce(nonce), Timestamp(validFrom), Timestamp(validUntil)])
    case ChangePubKey(accountId, account, newPkHash, feeToken, fee, nonce, validFrom, validUntil) =>
      Ok([Tag(255 - 7), Tag(CURRENT_TX_VERSION), AccountId(accountId), Address(account), Address(newPkHash),
          TokenId(feeToken), FeePacked(fee), Nonce(nonce), Timestamp(validFrom), Timestamp(validUntil)])
    case ForcedExit(initiatorAccountId, target, token, fee, nonce, validFrom, validUntil) =>
      Ok([Tag(255 - 8), Tag(CURRENT_TX_VERSION), AccountId(initiatorAccountId), Address(target), TokenId(token),
          FeePacked(fee), Nonce(nonce), Timestamp(validFrom), Timestamp(validUntil)])
    case MintNFT(creatorId, creatorAddress, contentHash, recipient, feeToken, fee, nonce) =>
      Ok([Tag(255 - 9), Tag(CURRENT_TX_VERSION), AccountId(creatorId), Address(creatorAddress),
          ContentHash(contentHash), Address(recipient), TokenId(feeToken), FeePacked(fee), Nonce(nonce)])
    case WithdrawNFT(accountId, from, to, token, feeToken, fee, nonce, validFrom, validUntil) =>
      Ok([Tag(255 - 10), Tag(CURRENT_TX_VERSION), AccountId(accountId), Address(from), Address(to), TokenId(token),
          TokenId(feeToken), FeePacked(fee), Nonce(nonce), Timestamp(validFrom), Timestamp(validUntil)])
    case Swap(_, _, _, orderA, orderB, _, _, _, _) =>
      var bytesA :- Serialize(OrderLayout(orderA), c);
      var bytesB :- Serialize(OrderLayout(orderB), c);
      Ok(SwapLayout(m, c.hashOrders(bytesA + bytesB)))
    case OrderMessage(order) => Ok(OrderLayout(order))
    case CloseAccount => Ok([])
  }

  function SerializeMessage(m: Message, c: Codec): Result<seq<Byte>, FieldError>
    requires WellFormed(c)
  {
    var fields :- Layout(m, c);
    Serialize(fields, c)
  }

  /** The kinds of a message's fields depend on its constructor alone. */
  function Shape(m: Message): seq<Kind> {
    if m.Transfer? then [KTag, KTag, KAccountId, KAddress, KAddress, KTokenId, KAmountPacked, KFeePacked,
                         KNonce, KTimestamp, KTimestamp]
    else if m.Withdraw? then [KTag, KTag, KAccountId, KAddress, KAddress, KTokenId, KAmountFull, KFeePacked,
                              KNonce, KTimestamp, KTimestamp]
    else if m.ChangePubKey? then [KTag, KTag, KAccountId, KAddress, KAddress, KTokenId, KFeePacked,
                                  KNonce, KTimestamp, KTimestamp]
    else if m.ForcedExit? then [KTag, KTag, KAccountId, KAddress, KTokenId, KFeePacked,
                                KNonce, KTimestamp, KTimestamp]
    else if m.MintNFT? then [KTag, KTag, KAccountId, KAddress, KContentHash, KAddress, KTokenId, KFeePacked, KNonce]
    else if m.WithdrawNFT? then [KTag, KTag, KAccountId, KAddress, KAddress, KTokenId, KTokenId, KFeePacked,
                                 KNonce, KTimestamp, KTimestamp]
    else if m.Swap? then [KTag, KTag, KAccountId, KAddress, KNonce, KOrdersHash, KTokenId, KFeePacked,
                          KAmountPacked, KAmountPacked]
    else if m.OrderMessage? then [KTag, KTag, KAccountId, KAddress, KNonce, KTokenId, KTokenId, KPrice, KPrice,
                                  KAmountPacked, KTimestamp, KTimestamp]
    else []
  }

  function TypeByte(m: Message): Byte {
    if m.Transfer? then 250 else if m.Withdraw? then 252 else if m.ChangePubKey? then 248
    else if m.ForcedExit? then 247 else if m.MintNFT? then 246 else if m.WithdrawNFT? then 245
    else if m.Swap? then 244 else if m.OrderMessage? then 111 else 0
  }

  function MessageLength(m: Message): nat {
    if m.Transfer? || m.Swap? then 77 else if m.Withdraw? || m.MintNFT? then 88
    else if m.ChangePubKey? then 72 else if m.ForcedExit? then 52 else if m.WithdrawNFT? then 76
    else if m.OrderMessage? then 89 else 0
  }

  predicate MovesFunds(m: Message) {
    m.Transfer? || m.Withdraw? || m.WithdrawNFT? || m.ForcedExit?
  }

  lemma FundsLayoutShape(m: Message, c: Codec)
    requires WellFormed(c) && MovesFunds(m)
    ensures Layout(m, c).Ok? && Kinds(Layout(m, c).value) == Shape(m) && Layout(m, c).value[0] == Tag(TypeByte(m))
  {
  }

  lemma TradeLayoutShape(m: Message, c: Codec)
    requires WellFormed(c) && (m.Swap? || m.OrderMessage?) && Layout(m, c).Ok?
    ensures Kinds(Layout(m, c).value) == Shape(m) && Layout(m, c).value[0] == Tag(TypeByte(m))
  {
  }

  lemma OtherLayoutShape(m: Message, c: Codec)
    requires WellFormed(c) && (m.ChangePubKey? || m.MintNFT? || m.CloseAccount?)
    ensures Layout(m, c).Ok? && Kinds(Layout(m, c).value) == Shape(m)
    ensures !m.CloseAccount? ==> Layout(m, c).value[0] == Tag(TypeByte(m))
  {
  }

  lemma LayoutShape(m: Message, c: Codec)
    requires WellFormed(c)
    requires Layout(m, c).Ok?
    ensures Kinds(Layout(m, c).value) == Shape(m)
    ensures !m.CloseAccount? ==> Layout(m, c).value[0] == Tag(TypeByte(m))
  {
    if MovesFunds(m) {
      FundsLayoutShape(m, c);
    } else if m.Swap? || m.OrderMessage? {
      TradeLayoutShape(m, c);
    } else {
      OtherLayoutShape(m, c);
    }
  }

  lemma SumUpTo12(w: seq<nat>)
    requires 9 <= |w| <= 12
    ensures SumFrom(w, 0) == w[0] + w[1] + w[2] + w[3] + w[4] + w[5] + w[6] + w[7] + w[8]
      + (if |w| > 9 then w[9] else 0) + (if |w| > 10 then w[10] else 0) + (if |w| > 11 then w[11] else 0)
  {
    assert |w| > 11 ==> SumFrom(w, 11) == w[11];
    assert |w| > 10 ==> SumFrom(w, 10) == w[10] + SumFrom(w, 11);
    assert |w| > 9 ==> SumFrom(w, 9) == w[9] + SumFrom(w, 10);
    assert SumFrom(w, 8) == w[8] + SumFrom(w, 9);
    assert SumFrom(w, 6) == w[6] + w[7] + SumFrom(w, 8);
    assert SumFrom(w, 4) == w[4] + w[5] + SumFrom(w, 6);
    assert SumFrom(w, 2) == w[2] + w[3] + SumFrom(w, 4);
  }

  lemma FundsShapeLength(m: Message)
    requires MovesFunds(m)
    ensures SumFrom(Widths(Shape(m)), 0) == MessageLength(m)
  {
    SumUpTo12(Widths(Shape(m)));
  }

  lemma ShapeLength(m: Message)
    ensures SumFrom(Widths(Shape(m)), 0) == MessageLength(m)
  {
    if MovesFunds(m) {
      FundsShapeLength(m);
    } else if !m.CloseAccount? {
      SumUpTo12(Widths(Shape(m)));
    }
  }

  /** Every message fits the padded hash input, so the length assertion before hashing never fires. */
  lemma MessagesFit(m: Message, c: Codec)
    requires WellFormed(c)
    requires SerializeMessage(m, c).Ok?
    ensures |SerializeMessage(m, c).value| == MessageLength(m) <= 92
    ensures HashInput(SerializeMessage(m, c).value).Ok?
  {
    SerializeLength(Layout(m, c).value, c);
    LayoutShape(m, c);
    ShapeLength(m);
  }

  /** Two serialised orders are always the 178 bytes that the hash of orders asserts. */
  lemma TwoOrders(a: Order, b: Order, c: Codec)
    requires WellFormed(c)
    requires Serialize(OrderLayout(a), c).Ok? && Serialize(OrderLayout(b), c).Ok?
    ensures |Serialize(OrderLayout(a), c).value + Serialize(OrderLayout(b), c).value| == 178
  {
    MessagesFit(OrderMessage(a), c);
    MessagesFit(OrderMessage(b), c);
  }

  lemma FirstByteIsType(m: Message, c: Codec)
    requires WellFormed(c)
    requires SerializeMessage(m, c).Ok?
    ensures FirstOrZero(SerializeMessage(m, c).value) == TypeByte(m)
  {
    var fields := Layout(m, c).value;
    LayoutShape(m, c);
    EncodeAllAt(fields, c);
    if !m.CloseAccount? {
      assert Encode(fields[0], c) == Ok([TypeByte(m)]);
    }
  }

  lemma TypeByteDeterminesShape(m: Message, n: Message)
    requires TypeByte(m) == TypeByte(n)
    ensures Shape(m) == Shape(n) && MessageLength(m) == MessageLength(n)
  {
  }

  lemma SameTypeByte(m: Message, n: Message, c: Codec)
    requires WellFormed(c)
    requires SerializeMessage(m, c).Ok? && SerializeMessage(n, c).Ok?
    requires HashInput(SerializeMessage(m, c).value) == HashInput(SerializeMessage(n, c).value)
    ensures Shape(m) == Shape(n) && SerializeMessage(m, c) == SerializeMessage(n, c)
  {
    MessagesFit(m, c);
    MessagesFit(n, c);
    FirstByteIsType(m, c);
    FirstByteIsType(n, c);
    PaddedEqual(SerializeMessage(m, c).value, SerializeMessage(n, c).value);
    TypeByteDeterminesShape(m, n);
  }

  /**
   Hashing inputs are equal exactly when the serialised fields are equal, for any two messages of
   any kinds that serialise at all.
   */
  lemma SignedMessagesDistinct(m: Message, n: Message, c: Codec)
    requires WellFormed(c)
    requires SerializeMessage(m, c).Ok? && SerializeMessage(n, c).Ok?
    ensures HashInput(SerializeMessage(m, c).value) == HashInput(SerializeMessage(n, c).value)
       <==> NormalAll(Layout(m, c).value) == NormalAll(Layout(n, c).value)
  {
    var x, y := SerializeMessage(m, c).value, SerializeMessage(n, c).value;
    var fx, fy := Layout(m, c).value, Layout(n, c).value;
    LayoutShape(m, c);
    LayoutShape(n, c);
    if HashInput(x) == HashInput(y) {
      SameTypeByte(m, n, c);
      SerializeInjective(fx, fy, c);
    }
    if NormalAll(fx) == NormalAll(fy) {
      assert fx != [] ==> NormalAll(fx)[0] == fx[0] && NormalAll(fy)[0] == fy[0];
      TypeByteDeterminesShape(m, n);
      SerializeInjective(fx, fy, c);
    }
  }

  /** Nonces and timestamps that 32 bits hold; the source does not check this. */
  predicate FitsWidth(fields: seq<Field>) {
    forall i :: 0 <= i < |fields| ==> Normal(fields[i]) == fields[i]
  }

  /** For in-range fields equal hashing inputs mean equal fields, and an equal message unless it is a swap. */
  lemma SignedMessagesEqual(m: Message, n: Message, c: Codec)
    requires WellFormed(c)
    requires SerializeMessage(m, c).Ok? && SerializeMessage(n, c).Ok?
    requires FitsWidth(Layout(m, c).value) && FitsWidth(Layout(n, c).value)
    requires HashInput(SerializeMessage(m, c).value) == HashInput(SerializeMessage(n, c).value)
    ensures Layout(m, c) == Layout(n, c)
    ensures !m.Swap? ==> m == n
  {
    var fx, fy := Layout(m, c).value, Layout(n, c).value;
    SignedMessagesDistinct(m, n, c);
    assert NormalAll(fx) == fx && NormalAll(fy) == fy;
    if !m.Swap? { LayoutInjective(m, n, c); }
  }

  lemma LayoutInjective(m: Message, n: Message, c: Codec)
    requires WellFormed(c)
    requires Layout(m, c).Ok? && Layout(m, c) == Layout(n, c) && !m.Swap?
    ensures m == n
  {
    var fx, fy := Layout(m, c).value, Layout(n, c).value;
    LayoutShape(m, c);
    LayoutShape(n, c);
    assert fx != [] ==> fx[0] == fy[0];
    TypeByteDeterminesShape(m, n);
    if !m.CloseAccount? {
      assert fx[2] == fy[2] && fx[3] == fy[3] && fx[4] == fy[4] && fx[5] == fy[5];
      assert fx[6] == fy[6] && fx[7] == fy[7] && fx[8] == fy[8];
      assert |fx| > 9 ==> fx[9] == fy[9];
      assert |fx| > 10 ==> fx[10] == fy[10];
      assert |fx| > 11 ==> fx[11] == fy[11];
    }
  }

  lemma {:induction false} EncodeAllSame(xs: seq<Field>, ys: seq<Field>, c: Codec)
    requires WellFormed(c) && |xs| == |ys| && forall i :: 0 <= i < |xs| ==> Encode(xs[i], c) == Encode(ys[i], c)
    ensures EncodeAll(xs, c) == EncodeAll(ys, c)
  {
    if xs == [] {
    } else {
      assert Encode(xs[0], c) == Encode(ys[0], c);
      EncodeAllSame(xs[1..], ys[1..], c);
    }
  }

  lemma ShiftedBytes(nonce: nat)
    ensures NumberBytes(nonce) == NumberBytes(nonce + TWO_32)
  {
    assert (nonce + TWO_32) % TWO_32 == nonce % TWO_32;
    NumberBytesInjective(nonce, nonce + TWO_32);
  }

  lemma ShiftedNonceBytes(nonce: nat, c: Codec)
    requires WellFormed(c)
    ensures Encode(Nonce(nonce), c) == Encode(Nonce(nonce + TWO_32), c)
  {
    ShiftedBytes(nonce);
  }

  /** The fields agree except for a nonce that differs by 2^32. */
  lemma ShiftedNonce(xs: seq<Field>, ys: seq<Field>, k: nat, nonce: nat, c: Codec)
    requires WellFormed(c) && |xs| == |ys| && k < |xs|
    requires xs[k] == Nonce(nonce) && ys == xs[k := Nonce(nonce + TWO_32)]
    ensures Serialize(xs, c) == Serialize(ys, c)
  {
    forall i | 0 <= i < |xs|
      ensures Encode(xs[i], c) == Encode(ys[i], c)
    {
      if i == k {
        ShiftedNonceBytes(nonce, c);
      } else {
        assert xs[i] == ys[i];
      }
    }
    EncodeAllSame(xs, ys, c);
  }

  /** Nonces have no upper check: every transfer shares its bytes, and its hash input, with another one. */
  lemma NonceWraps(accountId: int, from: seq<Byte>, to: seq<Byte>, token: int, amount: nat, fee: nat, nonce: nat,
                   validFrom: int, validUntil: int, c: Codec)
    requires WellFormed(c)
    requires SerializeMessage(Transfer(accountId, from, to, token, amount, fee, nonce, validFrom, validUntil), c).Ok?
    ensures var m := Transfer(accountId, from, to, token, amount, fee, nonce, validFrom, validUntil);
      var n := Transfer(accountId, from, to, token, amount, fee, nonce + TWO_32, validFrom, validUntil);
      m != n && SerializeMessage(n, c) == SerializeMessage(m, c)
      && HashInput(SerializeMessage(n, c).value) == HashInput(SerializeMessage(m, c).value)
  {
    var m := Transfer(accountId, from, to, token, amount, fee, nonce, validFrom, validUntil);
    var n := Transfer(accountId, from, to, token, amount, fee, nonce + TWO_32, validFrom, validUntil);
    ShiftedNonce(Layout(m, c).value, Layout(n, c).value, 8, nonce, c);
  }
}
