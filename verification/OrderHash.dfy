/** The EIP-712 order signature of clob/auth.go: preallocated buffers and what they commit to. */
module OrderHash {
  import opened Encoding
  import opened Crypto

  /** OrderData. `timestamp` and the amounts are big integers and may be negative. */
  datatype Order = Order(
    salt: int, maker: Address, signer: Address, tokenId: int, makerAmount: int, takerAmount: int,
    side: int, signatureType: int, timestamp: int, metadata: Word, builder: Word)

  /** SignedOrder: the expiration travels next to the order, outside the hash. */
  datatype SignedOrder = SignedOrder(order: Order, expiration: int, signature: Bytes)

  // ----- Writing into a preallocated buffer -----

  function Splice(s: Bytes, off: nat, w: Bytes): (r: Bytes)
    requires off + |w| <= |s|
    ensures |r| == |s|
  {
    s[..off] + w + s[off + |w|..]
  }

  /** Go's copy(dst[off:], src). */
  method CopyInto(dst: array<byte>, off: nat, src: Bytes)
    requires off + |src| <= dst.Length
    modifies dst
    ensures dst[..] == Splice(old(dst[..]), off, src)
  {
    forall i | off <= i < off + |src| {
      dst[i] := src[i - off];
    }
  }

  /** big.Int.FillBytes panics on a magnitude of more than 256 bits. */
  predicate FitsWord(v: int) {
    Abs(v) < Pow256(32)
  }

  /** writeUint256: FillBytes stores the magnitude, without the sign. */
  function MagnitudeWord(v: int): Word {
    FromNat(Abs(v), 32)
  }

  function ByteWord(v: int): Word {
    Zeros(31) + [v % 256]
  }

  /** The first k of the words ws are in the buffer, the rest of it is still zero. */
  ghost predicate Filled(s: Bytes, ws: seq<Word>, k: nat) {
    k <= |ws| && s == Flatten(ws[..k]) + Zeros(32 * (|ws| - k))
  }

  /** Writing the end of word k over fresh zeros completes that word. */
  lemma FillNext(s: Bytes, ws: seq<Word>, k: nat, off: nat, tail: Bytes)
    requires Filled(s, ws, k) && k < |ws| && off + |tail| == 32 && ws[k] == Zeros(off) + tail
    ensures |s| == 32 * |ws|
    ensures Filled(Splice(s, 32 * k + off, tail), ws, k + 1)
  {
    FlattenWordsInjective(ws[..k], ws[..k]);
    assert ws[..k + 1][..k] == ws[..k];
    var r := Splice(s, 32 * k + off, tail);
    assert r == Flatten(ws[..k]) + ws[k] + Zeros(32 * (|ws| - k - 1));
  }

  method WriteWord(dst: array<byte>, k: nat, w: Word, ghost ws: seq<Word>)
    requires Filled(dst[..], ws, k) && k < |ws| && ws[k] == w
    modifies dst
    ensures Filled(dst[..], ws, k + 1)
  {
    assert Zeros(0) + w == w;
    FillNext(dst[..], ws, k, 0, w);
    CopyInto(dst, 32 * k, w);
  }

  /** writeUint256: FillBytes stores the magnitude, without the sign, and needs it to fit. */
  method WriteUint256(dst: array<byte>, k: nat, v: int, ghost ws: seq<Word>)
    requires Filled(dst[..], ws, k) && k < |ws| && ws[k] == MagnitudeWord(v) && FitsWord(v)
    modifies dst
    ensures Filled(dst[..], ws, k + 1)
  {
    WriteWord(dst, k, FromNat(Abs(v), 32), ws);
  }

  /** writeAddress: the last 20 of 32 bytes; the caller has zeroed the first 12. */
  method WriteAddress(dst: array<byte>, k: nat, a: Address, ghost ws: seq<Word>)
    requires Filled(dst[..], ws, k) && k < |ws| && ws[k] == AddressWord(a)
    modifies dst
    ensures Filled(dst[..], ws, k + 1)
  {
    FillNext(dst[..], ws, k, 12, a);
    CopyInto(dst, 32 * k + 12, a);
  }

  /** writeUint8: the last byte only, truncated to 8 bits. */
  method WriteUint8(dst: array<byte>, k: nat, v: int, ghost ws: seq<Word>)
    requires Filled(dst[..], ws, k) && k < |ws| && ws[k] == ByteWord(v)
    modifies dst
    ensures Filled(dst[..], ws, k + 1)
  {
    FillNext(dst[..], ws, k, 31, [v % 256]);
    CopyInto(dst, 32 * k + 31, [v % 256]);
  }

  lemma FilledIsComplete(s: Bytes, ws: seq<Word>)
    requires Filled(s, ws, |ws|)
    ensures s == Flatten(ws)
  {
    assert ws[..|ws|] == ws;
  }

  // ----- The order struct hash -----

  function OrderWords(typeHash: Word, o: Order): seq<Word> {
    [typeHash, MagnitudeWord(o.salt), AddressWord(o.maker), AddressWord(o.signer),
     MagnitudeWord(o.tokenId), MagnitudeWord(o.makerAmount), MagnitudeWord(o.takerAmount),
     ByteWord(o.side), ByteWord(o.signatureType), MagnitudeWord(o.timestamp), o.metadata, o.builder]
  }

  function OrderEncoding(typeHash: Word, o: Order): Bytes {
    Flatten(OrderWords(typeHash, o))
  }

  predicate OrderFits(o: Order) {
    FitsWord(o.salt) && FitsWord(o.tokenId) && FitsWord(o.makerAmount) && FitsWord(o.takerAmount)
        && FitsWord(o.timestamp)
  }

  /** The first six of the twelve writes. */
  method WriteFront(dst: array<byte>, typeHash: Word, o: Order, ghost ws: seq<Word>)
    requires OrderFits(o) && Filled(dst[..], ws, 0) && |ws| == 12
    requires ws[0] == typeHash && ws[1] == MagnitudeWord(o.salt) && ws[2] == AddressWord(o.maker)
    requires ws[3] == AddressWord(o.signer) && ws[4] == MagnitudeWord(o.tokenId)
    requires ws[5] == MagnitudeWord(o.makerAmount)
    modifies dst
    ensures Filled(dst[..], ws, 6)
  {
    WriteWord(dst, 0, typeHash, ws);
    WriteUint256(dst, 1, o.salt, ws);
    WriteAddress(dst, 2, o.maker, ws);
    WriteAddress(dst, 3, o.signer, ws);
    WriteUint256(dst, 4, o.tokenId, ws);
    WriteUint256(dst, 5, o.makerAmount, ws);
  }

  /** The other six. */
  method WriteBack(dst: array<byte>, o: Order, ghost ws: seq<Word>)
    requires OrderFits(o) && Filled(dst[..], ws, 6) && |ws| == 12
    requires ws[6] == MagnitudeWord(o.takerAmount) && ws[7] == ByteWord(o.side) && ws[8] == ByteWord(o.signatureType)
    requires ws[9] == MagnitudeWord(o.timestamp) && ws[10] == o.metadata && ws[11] == o.builder
    modifies dst
    ensures Filled(dst[..], ws, 12)
  {
    WriteUint256(dst, 6, o.takerAmount, ws);
    WriteUint8(dst, 7, o.side, ws);
    WriteUint8(dst, 8, o.signatureType, ws);
    WriteUint256(dst, 9, o.timestamp, ws);
    WriteWord(dst, 10, o.metadata, ws);
    WriteWord(dst, 11, o.builder, ws);
  }

  /** buildOrderStructHash: twelve slice writes into one zeroed 384-byte buffer. */
  method BuildOrderStructHash(keccak: Keccak, typeHash: Word, o: Order) returns (h: Word)
    requires OrderFits(o)
    ensures h == keccak(OrderEncoding(typeHash, o))
  {
    var buf := new byte[12 * 32](_ => 0);
    ghost var ws := OrderWords(typeHash, o);
    WriteFront(buf, typeHash, o, ws);
    WriteBack(buf, o, ws);
    FilledIsComplete(buf[..], ws);
    h := keccak(buf[..]);
  }

  /** An order as a 256-bit verifier sees it: magnitudes, and one byte for side and signature type. */
  function Canonical(o: Order): Order {
    o.(salt := Abs(o.salt), tokenId := Abs(o.tokenId), makerAmount := Abs(o.makerAmount),
       takerAmount := Abs(o.takerAmount), timestamp := Abs(o.timestamp),
       side := o.side % 256, signatureType := o.signatureType % 256)
  }

  function WordAt(b: Bytes, i: nat): Word
    requires 32 * i + 32 <= |b|
  {
    b[32 * i..32 * i + 32]
  }

  /** Reads the struct back by absolute position, the way a verifier lays it out in memory. */
  function DecodeOrder(b: Bytes): Order
    requires |b| == 384
  {
    Order(ToNat(WordAt(b, 1)), WordAt(b, 2)[12..], WordAt(b, 3)[12..], ToNat(WordAt(b, 4)), ToNat(WordAt(b, 5)),
          ToNat(WordAt(b, 6)), WordAt(b, 7)[31], WordAt(b, 8)[31], ToNat(WordAt(b, 9)), WordAt(b, 10), WordAt(b, 11))
  }

  lemma WordsInPlace(ws: seq<Word>)
    ensures |Flatten(ws)| == 32 * |ws|
    ensures forall i | 0 <= i < |ws| :: WordAt(Flatten(ws), i) == ws[i]
  {
    FlattenWordsInjective(ws, ws);
    forall i | 0 <= i < |ws|
      ensures WordAt(Flatten(ws), i) == ws[i]
    {
      FlattenWordAt(ws, i);
    }
  }

  lemma FixedWords(a: Address, v: int)
    ensures AddressWord(a)[12..] == a && ByteWord(v)[31] == v % 256
  {
  }

  lemma NumbersDecode(o: Order)
    requires OrderFits(o)
    ensures ToNat(MagnitudeWord(o.salt)) == Abs(o.salt) && ToNat(MagnitudeWord(o.tokenId)) == Abs(o.tokenId)
    ensures ToNat(MagnitudeWord(o.makerAmount)) == Abs(o.makerAmount)
    ensures ToNat(MagnitudeWord(o.takerAmount)) == Abs(o.takerAmount)
    ensures ToNat(MagnitudeWord(o.timestamp)) == Abs(o.timestamp)
  {
    FromNatExact(Abs(o.salt), 32);
    FromNatExact(Abs(o.tokenId), 32);
    FromNatExact(Abs(o.makerAmount), 32);
    FromNatExact(Abs(o.takerAmount), 32);
    FromNatExact(Abs(o.timestamp), 32);
  }

  lemma OrderRoundTrip(typeHash: Word, o: Order)
    requires OrderFits(o)
    ensures |OrderEncoding(typeHash, o)| == 384 && WordAt(OrderEncoding(typeHash, o), 0) == typeHash
    ensures DecodeOrder(OrderEncoding(typeHash, o)) == Canonical(o)
  {
    WordsInPlace(OrderWords(typeHash, o));
    NumbersDecode(o);
    FixedWords(o.maker, o.side);
    FixedWords(o.signer, o.signatureType);
  }

  /** Exactly the canonical form is committed to: nothing less, and the signs of integers are lost. */
  lemma OrderEncodingBinds(t: Word, o: Order, t': Word, o': Order)
    requires OrderFits(o) && OrderFits(o')
    ensures OrderEncoding(t, o) == OrderEncoding(t', o') <==> t == t' && Canonical(o) == Canonical(o')
  {
    OrderRoundTrip(t, o);
    OrderRoundTrip(t', o');
    if t == t' && Canonical(o) == Canonical(o') {
      assert OrderWords(t, o) == OrderWords(t', o');
    }
  }

  /** A negative timestamp signs like its magnitude. */
  lemma SignIsNotCommitted(t: Word, o: Order)
    requires OrderFits(o) && o.timestamp > 0
    ensures var o' := o.(timestamp := -o.timestamp);
            o != o' && OrderFits(o') && OrderEncoding(t, o) == OrderEncoding(t, o')
  {
    OrderEncodingBinds(t, o, t, o.(timestamp := -o.timestamp));
  }

  // ----- The buffer against encodeData of EIP-712 -----

  /** encodeData written with the packing helpers: the type hash and one word per member. */
  function EncodeData(typeHash: Word, o: Order): Bytes {
    Flatten(EncodeDataWords(typeHash, o))
  }

  function EncodeDataWords(typeHash: Word, o: Order): seq<Word> {
    [typeHash, EncodeUint256(o.salt), PadTo32(o.maker), PadTo32(o.signer),
     EncodeUint256(o.tokenId), EncodeUint256(o.makerAmount), EncodeUint256(o.takerAmount),
     EncodeUint8(o.side), EncodeUint8(o.signatureType), EncodeUint256(o.timestamp), o.metadata, o.builder]
  }

  /** The integers whose magnitude is also their two's complement. */
  predicate IsUnsigned(v: int) {
    v >= 0 || 2 * v + Pow256(32) == 0
  }

  /** The integers whose low byte is also their magnitude. */
  predicate IsByte(v: int) {
    0 <= v < 256 || v == -128
  }

  predicate AllUnsigned(o: Order) {
    IsUnsigned(o.salt) && IsUnsigned(o.tokenId) && IsUnsigned(o.makerAmount) && IsUnsigned(o.takerAmount)
        && IsUnsigned(o.timestamp)
  }

  lemma ResidueIsMagnitude(v: int, m: nat)
    requires Abs(v) < m
    ensures v % m == Abs(v) <==> v >= 0 || 2 * v + m == 0
  {
    RemainderIsUnique(v, m, if v >= 0 then 0 else -1, if v >= 0 then v else m + v);
  }

  lemma MagnitudeIsUint256(v: int)
    requires FitsWord(v)
    ensures MagnitudeWord(v) == EncodeUint256(v) <==> IsUnsigned(v)
  {
    ResidueIsMagnitude(v, Pow256(32));
    FromNatExact(Abs(v), 32);
    FromNatExact(v % Pow256(32), 32);
  }

  lemma LowByteIsMagnitude(v: int)
    ensures v % 256 == Abs(v) <==> IsByte(v)
  {
  }

  lemma ByteIsUint8(v: int)
    requires FitsWord(v)
    ensures ByteWord(v) == EncodeUint8(v) <==> IsByte(v)
  {
    var low := v % 256;
    assert ToNat(ByteWord(v)) == low by {
      ZerosKeepValue(31, [low]);
      assert [low][..0] == [];
    }
    assert ToNat(EncodeUint8(v)) == Abs(v) by {
      PadTo32IsModular(MinimalBytes(Abs(v)));
      RemainderIsUnique(Abs(v), Pow256(32), 0, Abs(v));
    }
    LowByteIsMagnitude(v);
    if low == Abs(v) {
      ToNatInjective(ByteWord(v), EncodeUint8(v));
    }
  }

  lemma WordsAgree(t: Word, o: Order)
    ensures OrderEncoding(t, o) == EncodeData(t, o) <==>
            && MagnitudeWord(o.salt) == EncodeUint256(o.salt)
            && MagnitudeWord(o.tokenId) == EncodeUint256(o.tokenId)
            && MagnitudeWord(o.makerAmount) == EncodeUint256(o.makerAmount)
            && MagnitudeWord(o.takerAmount) == EncodeUint256(o.takerAmount)
            && ByteWord(o.side) == EncodeUint8(o.side)
            && ByteWord(o.signatureType) == EncodeUint8(o.signatureType)
            && MagnitudeWord(o.timestamp) == EncodeUint256(o.timestamp)
  {
    var a, b := OrderWords(t, o), EncodeDataWords(t, o);
    FlattenWordsInjective(a, b);
    assert AddressWord(o.maker) == PadTo32(o.maker) && AddressWord(o.signer) == PadTo32(o.signer);
    assert a == b <==> forall i | 0 <= i < 12 :: a[i] == b[i];
    if a == b {
      assert a[1] == b[1] && a[4] == b[4] && a[5] == b[5] && a[6] == b[6];
      assert a[7] == b[7] && a[8] == b[8] && a[9] == b[9];
    }
  }

  /** The preallocated buffer holds encodeData of the order exactly when every field is in its ABI range. */
  lemma BufferIsEncodeData(typeHash: Word, o: Order)
    requires OrderFits(o) && FitsWord(o.side) && FitsWord(o.signatureType)
    ensures OrderEncoding(typeHash, o) == EncodeData(typeHash, o)
       <==> AllUnsigned(o) && IsByte(o.side) && IsByte(o.signatureType)
  {
    WordsAgree(typeHash, o);
    MagnitudeIsUint256(o.salt);
    MagnitudeIsUint256(o.tokenId);
    MagnitudeIsUint256(o.makerAmount);
    MagnitudeIsUint256(o.takerAmount);
    MagnitudeIsUint256(o.timestamp);
    ByteIsUint8(o.side);
    ByteIsUint8(o.signatureType);
  }

  // ----- Domain separator and digest -----

  /** The per-deployment constants hashed into the exchange's domain. */
  datatype Domain = Domain(typeHash: Word, name: Word, version: Word)

  function DomainWords(d: Domain, chainId: int, exchange: Address): seq<Word> {
    [d.typeHash, d.name, d.version, MagnitudeWord(chainId), AddressWord(exchange)]
  }

  function DomainEncoding(d: Domain, chainId: int, exchange: Address): Bytes {
    Flatten(DomainWords(d, chainId, exchange))
  }

  /** The five writes of the domain. */
  method WriteDomain(dst: array<byte>, d: Domain, chainId: int, exchange: Address, ghost ws: seq<Word>)
    requires FitsWord(chainId) && Filled(dst[..], ws, 0) && |ws| == 5
    requires ws[0] == d.typeHash && ws[1] == d.name && ws[2] == d.version
    requires ws[3] == MagnitudeWord(chainId) && ws[4] == AddressWord(exchange)
    modifies dst
    ensures Filled(dst[..], ws, 5)
  {
    WriteWord(dst, 0, d.typeHash, ws);
    WriteWord(dst, 1, d.name, ws);
    WriteWord(dst, 2, d.version, ws);
    WriteUint256(dst, 3, chainId, ws);
    WriteAddress(dst, 4, exchange, ws);
  }

  /** buildCTFDomainSeparator */
  method BuildDomainSeparator(keccak: Keccak, d: Domain, chainId: int, exchange: Address) returns (h: Word)
    requires FitsWord(chainId)
    ensures h == keccak(DomainEncoding(d, chainId, exchange))
  {
    var buf := new byte[5 * 32](_ => 0);
    ghost var ws := DomainWords(d, chainId, exchange);
    WriteDomain(buf, d, chainId, exchange, ws);
    FilledIsComplete(buf[..], ws);
    h := keccak(buf[..]);
  }

  lemma DomainEncodingBinds(d: Domain, c: int, x: Address, c': int, x': Address)
    requires FitsWord(c) && FitsWord(c')
    ensures DomainEncoding(d, c, x) == DomainEncoding(d, c', x') <==> Abs(c) == Abs(c') && x == x'
  {
    var a, b := DomainWords(d, c, x), DomainWords(d, c', x');
    FlattenWordsInjective(a, b);
    FromNatExact(Abs(c), 32);
    FromNatExact(Abs(c'), 32);
    if DomainEncoding(d, c, x) == DomainEncoding(d, c', x') {
      assert a[3] == b[3] && a[4][12..] == b[4][12..];
    }
  }

  /** The 66 bytes hashed for signing. */
  function DigestEncoding(domain: Word, struct: Word): Bytes {
    [0x19, 0x01] + domain + struct
  }

  function OrderDigest(keccak: Keccak, typeHash: Word, d: Domain, chainId: int, exchange: Address, o: Order): Word {
    keccak(DigestEncoding(keccak(DomainEncoding(d, chainId, exchange)), keccak(OrderEncoding(typeHash, o))))
  }

  /** The signature of an order for one deployment; some chains have no exchange. */
  function OrderSignature(keccak: Keccak, sign: Signer, typeHash: Word, d: Domain,
                          exchanges: map<int, Address>, chainId: int, o: Order): Option<Signature> {
    if chainId !in exchanges then None else
      match sign(OrderDigest(keccak, typeHash, d, chainId, exchanges[chainId], o))
      case None => None
      case Some(raw) => Some(EthereumSignature(raw))
  }

  // ----- What an exchange verifies -----

  /** A number in 32 bytes, most significant byte first. */
  predicate IsNumber(w: Bytes, v: nat) {
    |w| == 32 && ToNat(w) == v
  }

  predicate IsAddress(w: Bytes, a: Address) {
    w == Zeros(12) + a
  }

  predicate IsSmall(w: Bytes, v: int) {
    w == Zeros(31) + [v % 256]
  }

  /** The domain of EIP-712: type hash, name, version, chain and contract, in five words. */
  predicate IsDomain(x: Bytes, d: Domain, chainId: int, exchange: Address) {
    && |x| == 160 && x[..32] == d.typeHash && x[32..64] == d.name && x[64..96] == d.version
    && IsNumber(x[96..128], Abs(chainId)) && IsAddress(x[128..160], exchange)
  }

  /** The order of EIP-712: its type hash and its eleven members, in twelve words. */
  predicate IsStruct(y: Bytes, typeHash: Word, o: Order) {
    && |y| == 384 && y[..32] == typeHash && IsNumber(y[32..64], Abs(o.salt)) && IsAddress(y[64..96], o.maker)
    && IsAddress(y[96..128], o.signer) && IsNumber(y[128..160], Abs(o.tokenId))
    && IsNumber(y[160..192], Abs(o.makerAmount)) && IsNumber(y[192..224], Abs(o.takerAmount))
    && IsSmall(y[224..256], o.side) && IsSmall(y[256..288], o.signatureType)
    && IsNumber(y[288..320], Abs(o.timestamp)) && y[320..352] == o.metadata && y[352..] == o.builder
  }

  /** What EIP-712 has signed for a domain and a struct. */
  function TypedDigest(keccak: Keccak, x: Bytes, y: Bytes): Word {
    keccak([0x19, 0x01] + keccak(x) + keccak(y))
  }

  /** The signer's answer to the digest of this order in this domain. */
  predicate AnswersOrder(keccak: Keccak, sign: Signer, x: Bytes, y: Bytes, r: Option<Signature>) {
    match r
    case None => sign(TypedDigest(keccak, x, y)) == None
    case Some(s) => IsSignatureOver(sign, TypedDigest(keccak, x, y), s)
  }

  ghost predicate SignsOrder(keccak: Keccak, sign: Signer, typeHash: Word, d: Domain, exchange: Address, chainId: int,
                             o: Order, r: Option<Signature>) {
    exists x: Bytes, y: Bytes ::
      IsDomain(x, d, chainId, exchange) && IsStruct(y, typeHash, o) && AnswersOrder(keccak, sign, x, y, r)
  }

  lemma DomainIsDomain(d: Domain, chainId: int, exchange: Address)
    requires FitsWord(chainId)
    ensures IsDomain(DomainEncoding(d, chainId, exchange), d, chainId, exchange)
  {
    DomainInWords(d, chainId, exchange, DomainWords(d, chainId, exchange));
  }

  lemma DomainInWords(d: Domain, chainId: int, exchange: Address, ws: seq<Word>)
    requires FitsWord(chainId) && |ws| == 5 && ws[0] == d.typeHash && ws[1] == d.name && ws[2] == d.version
    requires ws[3] == MagnitudeWord(chainId) && ws[4] == AddressWord(exchange)
    ensures IsDomain(Flatten(ws), d, chainId, exchange)
  {
    WordsInPlace(ws);
    FromNatExact(Abs(chainId), 32);
    assert WordAt(Flatten(ws), 0) == ws[0] && WordAt(Flatten(ws), 1) == ws[1] && WordAt(Flatten(ws), 2) == ws[2];
    assert WordAt(Flatten(ws), 3) == ws[3] && WordAt(Flatten(ws), 4) == ws[4];
  }

  lemma StructIsStruct(typeHash: Word, o: Order)
    requires OrderFits(o)
    ensures IsStruct(OrderEncoding(typeHash, o), typeHash, o)
  {
    StructOfWords(typeHash, o, OrderWords(typeHash, o));
  }

  lemma StructOfWords(typeHash: Word, o: Order, ws: seq<Word>)
    requires OrderFits(o) && |ws| == 12
    requires ws[0] == typeHash && ws[1] == MagnitudeWord(o.salt) && ws[2] == AddressWord(o.maker)
    requires ws[3] == AddressWord(o.signer) && ws[4] == MagnitudeWord(o.tokenId)
    requires ws[5] == MagnitudeWord(o.makerAmount) && ws[6] == MagnitudeWord(o.takerAmount)
    requires ws[7] == ByteWord(o.side) && ws[8] == ByteWord(o.signatureType)
    requires ws[9] == MagnitudeWord(o.timestamp) && ws[10] == o.metadata && ws[11] == o.builder
    ensures IsStruct(Flatten(ws), typeHash, o)
  {
    MagnitudeIsNumber(o.salt);
    MagnitudeIsNumber(o.tokenId);
    MagnitudeIsNumber(o.makerAmount);
    MagnitudeIsNumber(o.takerAmount);
    MagnitudeIsNumber(o.timestamp);
    SmallWord(o.side);
    SmallWord(o.signatureType);
    StructInWords(typeHash, o, ws);
  }

  lemma MagnitudeIsNumber(v: int)
    requires FitsWord(v)
    ensures IsNumber(MagnitudeWord(v), Abs(v))
  {
    FromNatExact(Abs(v), 32);
  }

  lemma SmallWord(v: int)
    ensures IsSmall(ByteWord(v), v)
  {
  }

  /** Twelve words that say what they should make the struct. */
  lemma StructInWords(typeHash: Word, o: Order, ws: seq<Word>)
    requires |ws| == 12 && ws[0] == typeHash && IsNumber(ws[1], Abs(o.salt)) && IsAddress(ws[2], o.maker)
    requires IsAddress(ws[3], o.signer) && IsNumber(ws[4], Abs(o.tokenId)) && IsNumber(ws[5], Abs(o.makerAmount))
    requires IsNumber(ws[6], Abs(o.takerAmount)) && IsSmall(ws[7], o.side) && IsSmall(ws[8], o.signatureType)
    requires IsNumber(ws[9], Abs(o.timestamp)) && ws[10] == o.metadata && ws[11] == o.builder
    ensures IsStruct(Flatten(ws), typeHash, o)
  {
    WordsInPlace(ws);
    var y := Flatten(ws);
    assert WordAt(y, 0) == ws[0] && WordAt(y, 1) == ws[1] && WordAt(y, 2) == ws[2] && WordAt(y, 3) == ws[3];
    assert WordAt(y, 4) == ws[4] && WordAt(y, 5) == ws[5] && WordAt(y, 6) == ws[6] && WordAt(y, 7) == ws[7];
    assert WordAt(y, 8) == ws[8] && WordAt(y, 9) == ws[9] && WordAt(y, 10) == ws[10] && WordAt(y, 11) == ws[11];
  }

  /** The signature of an order is what an exchange recovers the signer from. */
  lemma SignatureSignsOrder(keccak: Keccak, sign: Signer, typeHash: Word, d: Domain, exchanges: map<int, Address>,
                            chainId: int, o: Order)
    requires chainId in exchanges && OrderFits(o) && FitsWord(chainId)
    ensures SignsOrder(keccak, sign, typeHash, d, exchanges[chainId], chainId, o,
                       OrderSignature(keccak, sign, typeHash, d, exchanges, chainId, o))
  {
    var x, y := DomainEncoding(d, chainId, exchanges[chainId]), OrderEncoding(typeHash, o);
    DomainIsDomain(d, chainId, exchanges[chainId]);
    StructIsStruct(typeHash, o);
    DigestAnswers(keccak, sign, x, y);
    assert AnswersOrder(keccak, sign, x, y, OrderSignature(keccak, sign, typeHash, d, exchanges, chainId, o));
  }

  lemma DigestAnswers(keccak: Keccak, sign: Signer, x: Bytes, y: Bytes)
    ensures var h := keccak(DigestEncoding(keccak(x), keccak(y)));
            h == TypedDigest(keccak, x, y)
            && AnswersOrder(keccak, sign, x, y,
                            match sign(h) case None => None case Some(raw) => Some(EthereumSignature(raw)))
  {
    var h := TypedDigest(keccak, x, y);
    if sign(h).Some? {
      EthereumSignatureIsOver(sign, h);
    }
  }

  /** SignOrder: domain separator, struct hash and digest are built in buffers of 160, 384 and 66 bytes. */
  method SignOrder(keccak: Keccak, sign: Signer, typeHash: Word, d: Domain,
                   exchanges: map<int, Address>, chainId: int, o: Order) returns (r: Option<Signature>)
    requires chainId in exchanges ==> OrderFits(o) && FitsWord(chainId)
    ensures r == OrderSignature(keccak, sign, typeHash, d, exchanges, chainId, o)
    ensures chainId !in exchanges ==> r == None
    ensures chainId in exchanges ==> SignsOrder(keccak, sign, typeHash, d, exchanges[chainId], chainId, o, r)
  {
    if chainId in exchanges {
      SignatureSignsOrder(keccak, sign, typeHash, d, exchanges, chainId, o);
    }
    if chainId !in exchanges {
      return None;
    }
    var domainSep := BuildDomainSeparator(keccak, d, chainId, exchanges[chainId]);
    var structHash := BuildOrderStructHash(keccak, typeHash, o);
    var buf := new byte[66](_ => 0);
    buf[0], buf[1] := 0x19, 0x01;
    CopyInto(buf, 2, domainSep);
    CopyInto(buf, 34, structHash);
    assert buf[..] == DigestEncoding(domainSep, structHash);
    match sign(keccak(buf[..])) {
      case None => r := None;
      case Some(raw) => r := Some(EthereumSignature(raw));
    }
  }

  /** One digest names one chain, one exchange and one order, unless one of three known inputs collides. */
  lemma DigestBinds(keccak: Keccak, t: Word, d: Domain, c: int, x: Address, o: Order, c': int, x': Address, o': Order)
    requires OrderFits(o) && OrderFits(o') && FitsWord(c) && FitsWord(c')
    requires OrderDigest(keccak, t, d, c, x, o) == OrderDigest(keccak, t, d, c', x', o')
    ensures
      var dom, dom' := DomainEncoding(d, c, x), DomainEncoding(d, c', x');
      var str, str' := OrderEncoding(t, o), OrderEncoding(t, o');
      || (Abs(c) == Abs(c') && x == x' && Canonical(o) == Canonical(o'))
      || Collision(keccak, dom, dom')
      || Collision(keccak, str, str')
      || Collision(keccak, DigestEncoding(keccak(dom), keccak(str)), DigestEncoding(keccak(dom'), keccak(str')))
  {
    var h, h' := keccak(DomainEncoding(d, c, x)), keccak(DomainEncoding(d, c', x'));
    var g, g' := keccak(OrderEncoding(t, o)), keccak(OrderEncoding(t, o'));
    if DigestEncoding(h, g) == DigestEncoding(h', g') {
      assert h == DigestEncoding(h, g)[2..34] == h' && g == DigestEncoding(h, g)[34..66] == g';
      DomainEncodingBinds(d, c, x, c', x');
      OrderEncodingBinds(t, o, t, o');
    }
  }
}
