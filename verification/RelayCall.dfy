/** The relayed call of clob/relayer.go: its signing preimage, its calldata and what the calldata costs. */
module RelayCall {
  import opened Encoding
  import opened Crypto
  import opened GoInts

  /** A Go slice: the allocator cannot hand out more than 2^48 bytes. */
  type Slice = b: Bytes | |b| <= 0x1_0000_0000_0000

  /** Everything about a relayed call except its gas limit. */
  datatype Relay = Relay(
    keccak: Keccak, sign: Signer, selector: Bytes, from: Address, factory: Address, hub: Address,
    relay: Address, encodedFunction: Slice, nonce: int)
  {
    predicate Valid() {
      |selector| == 4
    }
  }

  // ----- The signing preimage -----

  function Ascii(s: string): (b: Bytes)
    ensures |b| == |s|
  {
    seq(|s|, i requires 0 <= i < |s| => s[i] as int % 256)
  }

  /** The packed message: only the encoded function has a variable length. */
  function Preimage(r: Relay, gas: uint64): Bytes {
    Ascii("rlx:") + r.from + r.factory + r.encodedFunction + EncodeUint256(0) + EncodeUint256(0)
    + EncodeUint256(gas) + EncodeUint256(r.nonce) + r.hub + r.relay
  }

  function SigningHash(r: Relay, gas: uint64): Word {
    r.keccak(Ascii("\U{19}Ethereum Signed Message:\n32") + r.keccak(Preimage(r, gas)))
  }

  function SignRelay(r: Relay, gas: uint64): Option<Signature> {
    match r.sign(SigningHash(r, gas))
    case None => None
    case Some(raw) => Some(EthereumSignature(raw))
  }

  /** signProxyRelay: the signer signs the envelope of a message for this call, and the hub accepts what it yields. */
  method SignProxyRelay(r: Relay, gas: uint64) returns (s: Option<Signature>)
    ensures s == SignRelay(r, gas)
    ensures SignsMessage(r, gas, s)
    ensures r.Valid() && s.Some? ==> HubAccepts(r, Calldata(r, gas, s.value))
  {
    SignRelaySignsMessage(r, gas);
    if r.Valid() && SignRelay(r, gas).Some? {
      SignedIsAccepted(r, gas);
    }
    var zero := 0;
    var message := EncodePacked([Ascii("rlx:"), r.from, r.factory, r.encodedFunction, EncodeUint256(zero),
                                 EncodeUint256(zero), EncodeUint256(gas), EncodeUint256(r.nonce), r.hub, r.relay]);
    FlattenTen(Ascii("rlx:"), r.from, r.factory, r.encodedFunction, EncodeUint256(zero),
               EncodeUint256(zero), EncodeUint256(gas), EncodeUint256(r.nonce), r.hub, r.relay);
    var relayHash := r.keccak(message);
    var envelope := EncodePacked([Ascii("\U{19}Ethereum Signed Message:\n32"), relayHash]);
    FlattenPair(Ascii("\U{19}Ethereum Signed Message:\n32"), relayHash);
    match r.sign(r.keccak(envelope)) {
      case None => s := None;
      case Some(raw) => s := Some(EthereumSignature(raw));
    }
  }

  lemma FlattenSnoc(ps: seq<Bytes>, p: Bytes)
    ensures Flatten(ps + [p]) == Flatten(ps) + p
  {
    assert (ps + [p])[..|ps|] == ps;
  }

  lemma FlattenPair(a: Bytes, b: Bytes)
    ensures Flatten([a, b]) == a + b
  {
    FlattenSnoc([], a);
    FlattenSnoc([a], b);
    assert [] + [a] == [a] && [a] + [b] == [a, b];
  }

  lemma FlattenTen(a: Bytes, b: Bytes, c: Bytes, d: Bytes, e: Bytes, f: Bytes, g: Bytes, h: Bytes, i: Bytes, j: Bytes)
    ensures Flatten([a, b, c, d, e, f, g, h, i, j]) == a + b + c + d + e + f + g + h + i + j
  {
    FlattenPair(a, b);
    FlattenSnoc([a, b], c);
    FlattenSnoc([a, b, c], d);
    FlattenSnoc([a, b, c, d], e);
    FlattenSnoc([a, b, c, d, e], f);
    FlattenSnoc([a, b, c, d, e, f], g);
    FlattenSnoc([a, b, c, d, e, f, g], h);
    FlattenSnoc([a, b, c, d, e, f, g, h], i);
    FlattenSnoc([a, b, c, d, e, f, g, h, i], j);
    assert [a, b] + [c] == [a, b, c];
    assert [a, b, c] + [d] == [a, b, c, d];
    assert [a, b, c, d] + [e] == [a, b, c, d, e];
    assert [a, b, c, d, e] + [f] == [a, b, c, d, e, f];
    assert [a, b, c, d, e, f] + [g] == [a, b, c, d, e, f, g];
    assert [a, b, c, d, e, f, g] + [h] == [a, b, c, d, e, f, g, h];
    assert [a, b, c, d, e, f, g, h] + [i] == [a, b, c, d, e, f, g, h, i];
    assert [a, b, c, d, e, f, g, h, i] + [j] == [a, b, c, d, e, f, g, h, i, j];
  }

  /** What a verifier recovers from the packed message; all offsets are counted from one of the two ends. */
  datatype Message = Message(from: Address, factory: Address, encodedFunction: Bytes, fee: nat, gasPrice: nat,
                             gas: nat, nonce: nat, hub: Address, relay: Address)

  function ParseMessage(p: Bytes): Message
    requires |p| >= 212
  {
    var n := |p| - 168;
    Message(p[4..24], p[24..44], p[44..n], ToNat(p[n..n + 32]), ToNat(p[n + 32..n + 64]),
            ToNat(p[n + 64..n + 96]), ToNat(p[n + 96..n + 128]), p[n + 128..n + 148], p[n + 148..])
  }

  lemma PreimageLayout(r: Relay, gas: uint64)
    ensures
      var p := Preimage(r, gas);
      var n := |p| - 168;
      && n == 44 + |r.encodedFunction| && p[..4] == Ascii("rlx:")
      && p[4..24] == r.from && p[24..44] == r.factory && p[44..n] == r.encodedFunction
      && p[n..n + 32] == EncodeUint256(0) && p[n + 32..n + 64] == EncodeUint256(0)
      && p[n + 64..n + 96] == EncodeUint256(gas) && p[n + 96..n + 128] == EncodeUint256(r.nonce)
      && p[n + 128..n + 148] == r.hub && p[n + 148..] == r.relay
  {
    PreimageStart(Ascii("rlx:"), r.from, r.factory, r.encodedFunction);
    PreimageEnd(Ascii("rlx:") + r.from + r.factory + r.encodedFunction,
                EncodeUint256(0), EncodeUint256(gas), EncodeUint256(r.nonce), r.hub, r.relay);
  }

  lemma PreimageStart(tag: Bytes, from: Address, factory: Address, f: Bytes)
    requires |tag| == 4
    ensures var s := tag + from + factory + f;
            s[..4] == tag && s[4..24] == from && s[24..44] == factory && s[44..] == f
  {
  }

  lemma PreimageEnd(s: Bytes, z: Word, g: Word, k: Word, hub: Address, relay: Address)
    ensures var p, n := s + z + z + g + k + hub + relay, |s|;
            && |p| == n + 168 && p[..n] == s && p[n..n + 32] == z && p[n + 32..n + 64] == z && p[n + 64..n + 96] == g
            && p[n + 96..n + 128] == k && p[n + 128..n + 148] == hub && p[n + 148..] == relay
  {
  }

  lemma PreimageRoundTrip(r: Relay, gas: uint64)
    ensures |Preimage(r, gas)| == 212 + |r.encodedFunction| && Preimage(r, gas)[..4] == Ascii("rlx:")
    ensures ParseMessage(Preimage(r, gas))
         == Message(r.from, r.factory, r.encodedFunction, 0, 0, gas, r.nonce % Pow256(32), r.hub, r.relay)
  {
    PreimageLayout(r, gas);
    StaticNumbers(gas, r.nonce);
  }

  lemma Uint64FitsWord(gas: uint64)
    ensures gas < Pow256(8) <= Pow256(32) && gas % Pow256(32) == gas
  {
    assert Pow256(8) == TWO_TO_64;
    Pow256Monotone(8, 32);
    RemainderIsUnique(gas, Pow256(32), 0, gas);
  }

  /** Two calls share a signing preimage exactly when every signed field agrees, the nonce modulo 2^256. */
  lemma PreimageBinds(r: Relay, gas: uint64, r': Relay, gas': uint64)
    ensures Preimage(r, gas) == Preimage(r', gas') <==>
            && r.from == r'.from && r.factory == r'.factory && r.encodedFunction == r'.encodedFunction
            && gas == gas' && r.nonce % Pow256(32) == r'.nonce % Pow256(32) && r.hub == r'.hub && r.relay == r'.relay
  {
    PreimageRoundTrip(r, gas);
    PreimageRoundTrip(r', gas');
    EncodeUint256Binds(r.nonce, r'.nonce);
  }

  /** A signing hash names one call, unless one of two known inputs collides. */
  lemma SigningHashBinds(r: Relay, gas: uint64, r': Relay, gas': uint64)
    requires r.keccak == r'.keccak && SigningHash(r, gas) == SigningHash(r', gas')
    ensures
      var x, x' := Preimage(r, gas), Preimage(r', gas');
      var tag := Ascii("\U{19}Ethereum Signed Message:\n32");
      || ParseMessage(x) == ParseMessage(x')
      || Collision(r.keccak, x, x')
      || Collision(r.keccak, tag + r.keccak(x), tag + r.keccak(x'))
  {
    var tag := Ascii("\U{19}Ethereum Signed Message:\n32");
    var y, y' := tag + r.keccak(Preimage(r, gas)), tag + r.keccak(Preimage(r', gas'));
    if y == y' {
      assert y[|tag|..] == y'[|tag|..];
    }
  }

  // ----- The calldata -----

  /** The length of n bytes padded to whole words. */
  function Padded(n: nat): (m: nat)
    ensures n <= m < n + 32 && m % 32 == 0
  {
    (n + 31) / 32 * 32
  }

  function Uint(v: nat): Word {
    FromNat(v, 32)
  }

  /** The nine head words: values in place, byte strings by the offset of their tail. */
  function HeadWords(r: Relay, gas: uint64): seq<Word> {
    var m := Padded(|r.encodedFunction|);
    [AddressWord(r.from), AddressWord(r.factory), Uint(288), Uint(0), Uint(0), Uint(gas),
     EncodeUint256(r.nonce), Uint(320 + m), Uint(448 + m)]
  }

  /** A byte string in the tail: its length, its content, and zeros up to a whole word. */
  function AbiBytes(b: Bytes): (e: Bytes)
    ensures |e| == 32 + Padded(|b|)
  {
    Uint(|b|) + b + Zeros(Padded(|b|) - |b|)
  }

  /** packRelayCall: selector, head words, then the three byte strings, the last one empty. */
  function Calldata(r: Relay, gas: uint64, sig: Signature): Bytes {
    r.selector + Flatten(HeadWords(r, gas)) + AbiBytes(r.encodedFunction) + AbiBytes(sig) + AbiBytes([])
  }

  /** Argument i of the call, as the ABI decoder finds it. */
  function Slot(data: Bytes, i: nat): Word
    requires 4 + 32 * i + 32 <= |data|
  {
    data[4 + 32 * i..4 + 32 * i + 32]
  }

  /** A byte string whose offset is argument i: its length stands at the offset, its content behind it. */
  function Dynamic(data: Bytes, i: nat): Option<Bytes>
    requires 4 + 32 * i + 32 <= |data|
  {
    var at := 4 + ToNat(Slot(data, i));
    if at + 32 > |data| then None else
      var n := ToNat(data[at..at + 32]);
      if at + 32 + n > |data| then None else Some(data[at + 32..at + 32 + n])
  }

  lemma UintExact(v: nat)
    requires v < TWO_TO_64
    ensures ToNat(Uint(v)) == v
  {
    Uint64FitsWord(v);
    FromNatExact(v, 32);
  }

  lemma HeadSlots(sel: Bytes, ws: seq<Word>, rest: Bytes, i: nat)
    requires |sel| == 4 && i < |ws|
    ensures |sel + Flatten(ws) + rest| == 4 + 32 * |ws| + |rest|
    ensures Slot(sel + Flatten(ws) + rest, i) == ws[i]
  {
    FlattenWordAt(ws, i);
    SliceWithin(sel, Flatten(ws), rest, 32 * i, 32 * i + 32);
  }

  lemma SliceWithin<T>(a: seq<T>, b: seq<T>, c: seq<T>, lo: nat, hi: nat)
    requires lo <= hi <= |b|
    ensures (a + b + c)[|a| + lo..|a| + hi] == b[lo..hi]
  {
  }

  /** A byte string is found by its offset, whatever stands before and after it. */
  lemma AbiBytesDecode(pre: Bytes, b: Bytes, post: Bytes, i: nat)
    requires 4 + 32 * i + 32 <= |pre| && |pre| < TWO_TO_64 && |b| < TWO_TO_64
    requires Slot(pre + AbiBytes(b) + post, i) == Uint(|pre| - 4)
    ensures Dynamic(pre + AbiBytes(b) + post, i) == Some(b)
  {
    var e := AbiBytes(b);
    UintExact(|pre| - 4);
    UintExact(|b|);
    SliceWithin(pre, e, post, 0, 32);
    SliceWithin(pre, e, post, 32, 32 + |b|);
    assert e[0..32] == Uint(|b|) && e[32..32 + |b|] == b;
  }

  lemma NumberDecodes(v: uint64)
    ensures ToNat(Uint(v)) == ToNat(EncodeUint256(v)) == v
  {
    EncodeUint256Binds(v, v);
    Uint64FitsWord(v);
    UintExact(v);
  }

  lemma StaticNumbers(gas: uint64, nonce: int)
    ensures ToNat(Uint(0)) == ToNat(EncodeUint256(0)) == 0 && ToNat(Uint(gas)) == ToNat(EncodeUint256(gas)) == gas
    ensures ToNat(EncodeUint256(nonce)) == nonce % Pow256(32)
  {
    NumberDecodes(0);
    NumberDecodes(gas);
    EncodeUint256Binds(nonce, nonce);
  }

  lemma PackedSlots(sel: Bytes, ws: seq<Word>, f: Bytes, s: Bytes, e: Bytes)
    requires |sel| == 4
    ensures var d := sel + Flatten(ws) + f + s + e;
            && |d| == 4 + 32 * |ws| + |f| + |s| + |e| && d[..4] == sel
            && forall i | 0 <= i < |ws| :: Slot(d, i) == ws[i]
  {
    var d := sel + Flatten(ws) + f + s + e;
    FlattenWordsInjective(ws, ws);
    assert d == sel + Flatten(ws) + (f + s + e);
    forall i | 0 <= i < |ws|
      ensures Slot(d, i) == ws[i]
    {
      HeadSlots(sel, ws, f + s + e, i);
    }
  }

  lemma PackedStrings(d: Bytes, pre: Bytes, f: Bytes, s: Bytes)
    requires d == pre + AbiBytes(f) + AbiBytes(s) + AbiBytes([])
    requires |pre| == 292 && |f| + |s| < TWO_TO_64 - 1000
    requires Slot(d, 2) == Uint(288) && Slot(d, 7) == Uint(320 + Padded(|f|))
    requires Slot(d, 8) == Uint(352 + Padded(|f|) + Padded(|s|))
    ensures Dynamic(d, 2) == Some(f) && Dynamic(d, 7) == Some(s) && Dynamic(d, 8) == Some([])
  {
    var a, b, c := AbiBytes(f), AbiBytes(s), AbiBytes([]);
    assert d == pre + a + (b + c) && d == pre + a + b + c + [];
    AbiBytesDecode(pre, f, b + c, 2);
    AbiBytesDecode(pre + a, s, c, 7);
    AbiBytesDecode(pre + a + b, [], [], 8);
  }

  /** The head words of the calldata, slot by slot. */
  lemma CalldataSlots(r: Relay, gas: uint64, sig: Signature)
    requires r.Valid()
    ensures var d := Calldata(r, gas, sig);
            && |d| == 484 + Padded(|r.encodedFunction|) && d[..4] == r.selector
            && forall i | 0 <= i < 9 :: Slot(d, i) == HeadWords(r, gas)[i]
  {
    PackedSlots(r.selector, HeadWords(r, gas), AbiBytes(r.encodedFunction), AbiBytes(sig), AbiBytes([]));
  }

  /** The three byte strings of the calldata, found by their offsets. */
  lemma CalldataStrings(r: Relay, gas: uint64, sig: Signature)
    requires r.Valid()
    ensures var d := Calldata(r, gas, sig);
            && |d| == 484 + Padded(|r.encodedFunction|)
            && Dynamic(d, 2) == Some(r.encodedFunction) && Dynamic(d, 7) == Some(sig) && Dynamic(d, 8) == Some([])
  {
    OffsetSlots(r, gas, sig);
    HeadLength(r, gas);
    PackedStrings(Calldata(r, gas, sig), r.selector + Flatten(HeadWords(r, gas)), r.encodedFunction, sig);
  }

  lemma HeadLength(r: Relay, gas: uint64)
    requires r.Valid()
    ensures |r.selector + Flatten(HeadWords(r, gas))| == 292
  {
    FlattenWordsInjective(HeadWords(r, gas), HeadWords(r, gas));
  }

  /** The offsets of the three byte strings. */
  lemma OffsetSlots(r: Relay, gas: uint64, sig: Signature)
    requires r.Valid()
    ensures var d, m := Calldata(r, gas, sig), Padded(|r.encodedFunction|);
            && |d| == 484 + m
            && Slot(d, 2) == Uint(288) && Slot(d, 7) == Uint(320 + m) && Slot(d, 8) == Uint(448 + m)
  {
    CalldataSlots(r, gas, sig);
    HeadOffsets(r, gas);
  }

  lemma HeadOffsets(r: Relay, gas: uint64)
    ensures var ws, m := HeadWords(r, gas), Padded(|r.encodedFunction|);
            ws[2] == Uint(288) && ws[7] == Uint(320 + m) && ws[8] == Uint(448 + m)
  {
  }

  /** Decoding the calldata by its own offsets returns the arguments. */
  lemma CalldataRoundTrip(r: Relay, gas: uint64, sig: Signature)
    requires r.Valid()
    ensures
      var d := Calldata(r, gas, sig);
      && |d| == 484 + Padded(|r.encodedFunction|) && d[..4] == r.selector
      && Slot(d, 0) == Zeros(12) + r.from && Slot(d, 1) == Zeros(12) + r.factory
      && Dynamic(d, 2) == Some(r.encodedFunction)
      && ToNat(Slot(d, 3)) == ToNat(Slot(d, 4)) == 0
      && ToNat(Slot(d, 5)) == gas && ToNat(Slot(d, 6)) == r.nonce % Pow256(32)
      && Dynamic(d, 7) == Some(sig) && Dynamic(d, 8) == Some([])
  {
    CalldataStrings(r, gas, sig);
    StaticSlots(r, gas, sig);
  }

  /** The arguments of fixed width, decoded from their slots. */
  lemma StaticSlots(r: Relay, gas: uint64, sig: Signature)
    requires r.Valid()
    ensures
      var d := Calldata(r, gas, sig);
      && |d| == 484 + Padded(|r.encodedFunction|) && d[..4] == r.selector
      && Slot(d, 0) == Zeros(12) + r.from && Slot(d, 1) == Zeros(12) + r.factory
      && ToNat(Slot(d, 3)) == ToNat(Slot(d, 4)) == 0
      && ToNat(Slot(d, 5)) == gas && ToNat(Slot(d, 6)) == r.nonce % Pow256(32)
  {
    CalldataSlots(r, gas, sig);
    StaticNumbers(gas, r.nonce);
  }

  // ----- What the hub verifies -----

  /** "\x19Ethereum Signed Message:\n32", byte by byte. */
  const ENVELOPE: Bytes := [
    0x19, 0x45, 0x74, 0x68, 0x65, 0x72, 0x65, 0x75, 0x6d, 0x20, 0x53, 0x69, 0x67, 0x6e,
    0x65, 0x64, 0x20, 0x4d, 0x65, 0x73, 0x73, 0x61, 0x67, 0x65, 0x3a, 0x0a, 0x33, 0x32]

  /** "rlx:", byte by byte. */
  const RELAY_PREFIX: Bytes := [0x72, 0x6c, 0x78, 0x3a]

  /** The hash from which the signer of a packed message is recovered. */
  function RecoveredHash(keccak: Keccak, p: Bytes): Word {
    keccak(ENVELOPE + keccak(p))
  }

  /** A packed message that parses to this call, the fee and the gas price being 0. */
  predicate IsMessageFor(p: Bytes, r: Relay, gas: uint64) {
    && |p| >= 212 && p[..4] == RELAY_PREFIX
    && ParseMessage(p)
        == Message(r.from, r.factory, r.encodedFunction, 0, 0, gas, r.nonce % Pow256(32), r.hub, r.relay)
  }

  /** What the signer answers to the hash of a message for this call. */
  ghost predicate SignsMessage(r: Relay, gas: uint64, s: Option<Signature>) {
    exists p: Bytes :: IsMessageFor(p, r, gas) && AnswersHash(r.sign, RecoveredHash(r.keccak, p), s)
  }

  predicate AnswersHash(sign: Signer, h: Word, s: Option<Signature>) {
    match s
    case None => sign(h) == None
    case Some(sig) => IsSignatureOver(sign, h, sig)
  }

  lemma TextsInBytes()
    ensures Ascii("\U{19}Ethereum Signed Message:\n32") == ENVELOPE && Ascii("rlx:") == RELAY_PREFIX
  {
    EnvelopeInBytes();
  }

  lemma EnvelopeInBytes()
    ensures Ascii("\U{19}Ethereum Signed Message:\n32") == ENVELOPE
  {
    AsciiConcat("\U{19}Ethereum ", "Signed Message:\n32");
    assert Ascii("\U{19}Ethereum ") == ENVELOPE[..10];
    assert Ascii("Signed Message:\n32") == ENVELOPE[10..];
    assert "\U{19}Ethereum " + "Signed Message:\n32" == "\U{19}Ethereum Signed Message:\n32";
  }

  lemma AsciiConcat(a: string, b: string)
    ensures Ascii(a + b) == Ascii(a) + Ascii(b)
  {
  }

  lemma SignRelaySignsMessage(r: Relay, gas: uint64)
    ensures SignsMessage(r, gas, SignRelay(r, gas))
  {
    TextsInBytes();
    PreimageRoundTrip(r, gas);
    var p := Preimage(r, gas);
    assert SigningHash(r, gas) == RecoveredHash(r.keccak, p);
    if SignRelay(r, gas).Some? {
      EthereumSignatureIsOver(r.sign, SigningHash(r, gas));
    }
    assert IsMessageFor(p, r, gas) && AnswersHash(r.sign, RecoveredHash(r.keccak, p), SignRelay(r, gas));
  }

  /** The message that the hub packs from the arguments of relayCall, its own address and that of its caller. */
  function Rebuilt(d: Bytes, hub: Address, relay: Address): Bytes
    requires |d| >= 292 && Dynamic(d, 2).Some?
  {
    RELAY_PREFIX + Slot(d, 0)[12..] + Slot(d, 1)[12..] + Dynamic(d, 2).value + Slot(d, 3) + Slot(d, 4) + Slot(d, 5)
    + Slot(d, 6) + hub + relay
  }

  /** The signature found in the calldata is the signer's, over the message rebuilt from the same calldata. */
  predicate HubAccepts(r: Relay, d: Bytes) {
    && |d| >= 292 && Dynamic(d, 2).Some? && Dynamic(d, 7).Some?
    && var s := Dynamic(d, 7).value;
       |s| == 65 && 27 <= s[64] <= 28
       && IsSignatureOver(r.sign, RecoveredHash(r.keccak, Rebuilt(d, r.hub, r.relay)), s)
  }

  lemma UintIsEncoded(v: uint64)
    ensures Uint(v) == EncodeUint256(v)
  {
    Uint64FitsWord(v);
  }

  lemma HeadArguments(r: Relay, gas: uint64)
    ensures var ws := HeadWords(r, gas);
            && ws[0][12..] == r.from && ws[1][12..] == r.factory && ws[3] == ws[4] == EncodeUint256(0)
            && ws[5] == EncodeUint256(gas) && ws[6] == EncodeUint256(r.nonce)
  {
    UintIsEncoded(0);
    UintIsEncoded(gas);
  }

  lemma RebuiltIsPreimage(r: Relay, gas: uint64, sig: Signature)
    requires r.Valid()
    ensures var d := Calldata(r, gas, sig);
            |d| >= 292 && Dynamic(d, 2).Some? && Rebuilt(d, r.hub, r.relay) == Preimage(r, gas)
  {
    CalldataStrings(r, gas, sig);
    CalldataSlots(r, gas, sig);
    HeadArguments(r, gas);
    TextsInBytes();
  }

  /** A relayed call carries a signature over itself. */
  lemma SignedIsAccepted(r: Relay, gas: uint64)
    requires r.Valid() && SignRelay(r, gas).Some?
    ensures HubAccepts(r, Calldata(r, gas, SignRelay(r, gas).value))
  {
    var sig := SignRelay(r, gas).value;
    RebuiltIsPreimage(r, gas, sig);
    CalldataStrings(r, gas, sig);
    TextsInBytes();
    EthereumSignatureIsOver(r.sign, SigningHash(r, gas));
  }

  // ----- What the calldata costs -----

  function ZeroCount(b: Bytes): (n: nat)
    ensures n <= |b|
  {
    if b == [] then 0 else ZeroCount(b[..|b| - 1]) + if b[|b| - 1] == 0 then 1 else 0
  }

  lemma {:induction false} ZeroCountConcat(a: Bytes, b: Bytes)
    ensures ZeroCount(a + b) == ZeroCount(a) + ZeroCount(b)
  {
    if b == [] {
      assert a + b == a;
    } else {
      assert (a + b)[..|a + b| - 1] == a + b[..|b| - 1];
      ZeroCountConcat(a, b[..|b| - 1]);
    }
  }

  lemma {:induction false} ZeroCountZeros(n: nat)
    ensures ZeroCount(Zeros(n)) == n
  {
    if n > 0 {
      assert Zeros(n)[..n - 1] == Zeros(n - 1);
      ZeroCountZeros(n - 1);
    }
  }

  /** 4 gas per zero byte and 16 per other byte. */
  function DataGas(b: Bytes): (g: nat)
    ensures 4 * |b| <= g <= 16 * |b|
  {
    4 * ZeroCount(b) + 16 * (|b| - ZeroCount(b))
  }

  /** These laws leave nothing open: zero bytes cost 4, others 16, and what stands side by side adds up. */
  lemma DataGasLaws(a: Bytes, b: Bytes)
    ensures DataGas(a + b) == DataGas(a) + DataGas(b)
    ensures (forall i | 0 <= i < |a| :: a[i] == 0) ==> DataGas(a) == 4 * |a|
    ensures (forall i | 0 <= i < |a| :: a[i] != 0) ==> DataGas(a) == 16 * |a|
  {
    ZeroCountConcat(a, b);
    if forall i | 0 <= i < |a| :: a[i] == 0 {
      assert a == Zeros(|a|);
      ZeroCountZeros(|a|);
    }
    if forall i | 0 <= i < |a| :: a[i] != 0 {
      NoZeroCount(a);
    }
  }

  lemma {:induction false} NoZeroCount(b: Bytes)
    requires forall i | 0 <= i < |b| :: b[i] != 0
    ensures ZeroCount(b) == 0
  {
    if b != [] {
      NoZeroCount(b[..|b| - 1]);
    }
  }

  lemma DataGasSnoc(b: Bytes, i: nat)
    requires i < |b|
    ensures DataGas(b[..i + 1]) == DataGas(b[..i]) + if b[i] == 0 then 4 else 16
  {
    assert b[..i + 1][..i] == b[..i];
  }

  lemma WrapAfterAdding(x: nat, k: nat)
    ensures (x % TWO_TO_64 + k) % TWO_TO_64 == (x + k) % TWO_TO_64
  {
  }

  function IntrinsicGas(data: Bytes): uint64 {
    (21_000 + DataGas(data)) % TWO_TO_64
  }

  /** relayCallIntrinsicGas: a uint64 accumulator, so the sum is taken modulo 2^64. */
  method RelayCallIntrinsicGas(data: Bytes) returns (gas: uint64)
    ensures gas == (21_000 + DataGas(data)) % TWO_TO_64
  {
    gas := 21_000;
    for i := 0 to |data|
      invariant gas == (21_000 + DataGas(data[..i])) % TWO_TO_64
    {
      DataGasSnoc(data, i);
      WrapAfterAdding(21_000 + DataGas(data[..i]), if data[i] == 0 then 4 else 16);
      if data[i] == 0 {
        gas := (gas + 4) % TWO_TO_64;
      } else {
        gas := (gas + 16) % TWO_TO_64;
      }
    }
    assert data[..|data|] == data;
  }

  lemma UintZeros(gas: uint64)
    ensures ZeroCount(Uint(gas)) == 24 + ZeroCount(FromNat(gas, 8))
  {
    Uint64FitsWord(gas);
    FromNatWidens(gas, 8, 32);
    ZeroCountConcat(Zeros(24), FromNat(gas, 8));
    ZeroCountZeros(24);
  }

  /** Replacing one word of a concatenation moves the zero count by that word's difference. */
  lemma {:induction false} ZeroCountReplace(ws: seq<Word>, i: nat, w: Word)
    requires i < |ws|
    ensures ZeroCount(Flatten(ws[i := w])) - ZeroCount(w) == ZeroCount(Flatten(ws)) - ZeroCount(ws[i])
  {
    var n := |ws| - 1;
    var us := ws[i := w];
    ZeroCountConcat(Flatten(ws[..n]), ws[n]);
    ZeroCountConcat(Flatten(us[..n]), us[n]);
    if i < n {
      assert us[..n] == ws[..n][i := w];
      ZeroCountReplace(ws[..n], i, w);
    } else {
      assert us[..n] == ws[..n];
    }
  }

  /** The zero bytes that no gas limit and no signature can change. */
  function FixedZeros(r: Relay): int {
    ZeroCount(r.selector) + ZeroCount(Flatten(HeadWords(r, 0))) - ZeroCount(Uint(0)) + 24
    + ZeroCount(AbiBytes(r.encodedFunction)) + ZeroCount(Uint(65)) + 31 + ZeroCount(AbiBytes([]))
  }

  lemma HeadZeros(r: Relay, gas: uint64)
    ensures ZeroCount(Flatten(HeadWords(r, gas)))
         == ZeroCount(Flatten(HeadWords(r, 0))) - ZeroCount(Uint(0)) + 24 + ZeroCount(FromNat(gas, 8))
  {
    assert HeadWords(r, gas) == HeadWords(r, 0)[5 := Uint(gas)];
    ZeroCountReplace(HeadWords(r, 0), 5, Uint(gas));
    UintZeros(gas);
  }

  lemma SignatureZeros(sig: Signature)
    ensures ZeroCount(AbiBytes(sig)) == ZeroCount(Uint(65)) + ZeroCount(sig) + 31
  {
    ZeroCountConcat(Uint(65), sig);
    ZeroCountConcat(Uint(65) + sig, Zeros(31));
    ZeroCountZeros(31);
  }

  lemma ZeroCountFive(a: Bytes, b: Bytes, c: Bytes, d: Bytes, e: Bytes)
    ensures ZeroCount(a + b + c + d + e) == ZeroCount(a) + ZeroCount(b) + ZeroCount(c) + ZeroCount(d) + ZeroCount(e)
  {
    ZeroCountConcat(a, b);
    ZeroCountConcat(a + b, c);
    ZeroCountConcat(a + b + c, d);
    ZeroCountConcat(a + b + c + d, e);
  }

  /** Only the 8 low gas bytes and 64 signature bytes can switch between zero and non-zero. */
  lemma CalldataZeros(r: Relay, gas: uint64, sig: Signature)
    ensures ZeroCount(Calldata(r, gas, sig)) == FixedZeros(r) + ZeroCount(FromNat(gas, 8)) + ZeroCount(sig)
    ensures ZeroCount(FromNat(gas, 8)) <= 8 && ZeroCount(sig) <= 64
  {
    ZeroCountFive(r.selector, Flatten(HeadWords(r, gas)), AbiBytes(r.encodedFunction), AbiBytes(sig), AbiBytes([]));
    HeadZeros(r, gas);
    SignatureZeros(sig);
  }

  // ----- Which bytes can change -----

  /** The 8 low bytes of the gas limit's head word. */
  predicate IsGasByte(i: nat) {
    188 <= i < 196
  }

  /** The 65 bytes of the signature's string. */
  predicate IsSignatureByte(r: Relay, i: nat) {
    356 + Padded(|r.encodedFunction|) <= i < 421 + Padded(|r.encodedFunction|)
  }

  lemma HeadDiffers(r: Relay, gas: uint64, gas': uint64, i: nat)
    requires i < 288
    ensures |Flatten(HeadWords(r, gas))| == |Flatten(HeadWords(r, gas'))| == 288
    ensures Flatten(HeadWords(r, gas))[i] != Flatten(HeadWords(r, gas'))[i] ==> 184 <= i < 192
  {
    var ws, ws' := HeadWords(r, gas), HeadWords(r, gas');
    var k := i / 32;
    FlattenWordAt(ws, k);
    FlattenWordAt(ws', k);
    WordByte(Flatten(ws), ws[k], i);
    WordByte(Flatten(ws'), ws'[k], i);
    if k == 5 {
      GasWord(gas);
      GasWord(gas');
    }
  }

  lemma WordByte(s: Bytes, w: Word, i: nat)
    requires i < |s| && |s| % 32 == 0 && s[32 * (i / 32)..32 * (i / 32) + 32] == w
    ensures s[i] == w[i % 32]
  {
    assert i == 32 * (i / 32) + i % 32;
  }

  lemma GasWord(gas: uint64)
    ensures Uint(gas) == Zeros(24) + FromNat(gas, 8)
  {
    Uint64FitsWord(gas);
    FromNatWidens(gas, 8, 32);
  }

  lemma FivePartsDiffer(a: Bytes, b: Bytes, c: Bytes, d: Bytes, e: Bytes, b': Bytes, d': Bytes, i: nat)
    requires |b| == |b'| && |d| == |d'| && i < |a + b + c + d + e|
    requires (a + b + c + d + e)[i] != (a + b' + c + d' + e)[i]
    ensures var j, k: int := i - |a|, i - |a + b + c|;
            (0 <= j < |b| && b[j] != b'[j]) || (0 <= k < |d| && d[k] != d'[k])
  {
  }

  /** Two encodings of one call differ only in the 8 low gas bytes and the signature, whose last byte is never zero. */
  lemma CalldataDiffers(r: Relay, gas: uint64, sig: Signature, gas': uint64, sig': Signature, i: nat)
    requires r.Valid() && i < 484 + Padded(|r.encodedFunction|)
    ensures |Calldata(r, gas, sig)| == |Calldata(r, gas', sig')| == 484 + Padded(|r.encodedFunction|)
    ensures Calldata(r, gas, sig)[i] != Calldata(r, gas', sig')[i] ==> IsGasByte(i) || IsSignatureByte(r, i)
    ensures Calldata(r, gas, sig)[420 + Padded(|r.encodedFunction|)] in {27, 28}
  {
    var m := Padded(|r.encodedFunction|);
    CalldataSlots(r, gas, sig);
    CalldataSlots(r, gas', sig');
    HeadDiffers(r, gas, gas', if 4 <= i < 292 then i - 4 else 0);
    if Calldata(r, gas, sig)[i] != Calldata(r, gas', sig')[i] {
      FivePartsDiffer(r.selector, Flatten(HeadWords(r, gas)), AbiBytes(r.encodedFunction), AbiBytes(sig), AbiBytes([]),
                      Flatten(HeadWords(r, gas')), AbiBytes(sig'), i);
    }
    LastSignatureByte(r.selector + Flatten(HeadWords(r, gas)), AbiBytes(r.encodedFunction), sig);
  }

  lemma LastSignatureByte(a: Bytes, c: Bytes, sig: Signature)
    ensures (a + c + AbiBytes(sig) + AbiBytes([]))[|a| + |c| + 96] == sig[64]
  {
  }
}
