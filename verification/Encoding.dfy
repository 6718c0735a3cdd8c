/** Byte strings, big-endian integers and the packing helpers of clob/auth.go. */
module Encoding {

  type byte = b: int | 0 <= b < 256
  type Bytes = seq<byte>
  type Word = w: Bytes | |w| == 32 witness seq(32, _ => 0)
  type Address = a: Bytes | |a| == 20 witness seq(20, _ => 0)

  function Pow256(n: nat): (p: nat)
    ensures p > 0
  {
    if n == 0 then 1 else 256 * Pow256(n - 1)
  }

  /** The integer a byte string denotes, most significant byte first. */
  function ToNat(b: Bytes): nat {
    if b == [] then 0 else 256 * ToNat(b[..|b| - 1]) + b[|b| - 1]
  }

  /** Digit k of v in base 256, digit 0 being the least significant. */
  function Digit(v: nat, k: nat): byte {
    if k == 0 then v % 256 else Digit(v / 256, k - 1)
  }

  /** The n low-order bytes of v, most significant first. */
  function FromNat(v: nat, n: nat): (b: Bytes)
    ensures |b| == n
  {
    seq(n, i requires 0 <= i < n => Digit(v, n - 1 - i))
  }

  lemma FromNatSnoc(v: nat, n: nat)
    requires n > 0
    ensures FromNat(v, n)[..n - 1] == FromNat(v / 256, n - 1) && FromNat(v, n)[n - 1] == v % 256
  {
    var b, c := FromNat(v, n), FromNat(v / 256, n - 1);
    assert b[n - 1] == Digit(v, 0);
    forall i | 0 <= i < n - 1
      ensures b[i] == c[i]
    {
      assert b[i] == Digit(v, n - 1 - i) && c[i] == Digit(v / 256, n - 2 - i);
    }
  }

  function Zeros(n: nat): (z: Bytes)
    ensures |z| == n && forall i :: 0 <= i < n ==> z[i] == 0
  {
    seq(n, _ => 0)
  }

  function Abs(v: int): nat {
    if v < 0 then -v else v
  }

  lemma {:induction false} ToNatBound(b: Bytes)
    ensures ToNat(b) < Pow256(|b|)
  {
    if b != [] {
      ToNatBound(b[..|b| - 1]);
    }
  }

  lemma {:induction false} ToNatConcat(a: Bytes, b: Bytes)
    ensures ToNat(a + b) == Pow256(|b|) * ToNat(a) + ToNat(b)
  {
    if b == [] {
      assert a + b == a;
    } else {
      var b' := b[..|b| - 1];
      assert (a + b)[..|a + b| - 1] == a + b';
      ToNatConcat(a, b');
      calc {
        ToNat(a + b);
        256 * (Pow256(|b'|) * ToNat(a) + ToNat(b')) + b[|b| - 1];
        (256 * Pow256(|b'|)) * ToNat(a) + ToNat(b);
      }
    }
  }

  lemma {:induction false} ToNatZeros(n: nat)
    ensures ToNat(Zeros(n)) == 0
  {
    if n > 0 {
      assert Zeros(n)[..n - 1] == Zeros(n - 1);
      ToNatZeros(n - 1);
    }
  }

  lemma {:induction false} FromNatIsModular(v: nat, n: nat)
    ensures ToNat(FromNat(v, n)) == v % Pow256(n)
  {
    if n > 0 {
      FromNatIsModular(v / 256, n - 1);
      FromNatSnoc(v, n);
      ModOfDiv(v, Pow256(n - 1));
    }
  }

  lemma ModOfDiv(v: nat, m: nat)
    requires m > 0
    ensures 256 * (v / 256 % m) + v % 256 == v % (256 * m)
  {
    var q, r := v / 256 / m, v / 256 % m;
    assert v / 256 == m * q + r;
    assert v == (256 * m) * q + (256 * r + v % 256);
    RemainderIsUnique(v, 256 * m, q, 256 * r + v % 256);
  }

  lemma MultipleOutsideModulus(m: nat, d: int)
    ensures d >= 1 ==> m * d >= m
    ensures d <= -1 ==> m * d <= 0 - m
  {
    if d >= 1 {
      assert m * (d - 1) >= 0;
    } else if d <= -1 {
      assert m * (-1 - d) >= 0;
    }
  }

  lemma RemainderIsUnique(v: int, m: nat, q: int, r: nat)
    requires r < m && v == m * q + r
    ensures v % m == r && v / m == q
  {
    var d := v / m - q;
    assert m * d == r - v % m;
    MultipleOutsideModulus(m, d);
  }

  /** Every byte string is the fixed-width encoding of its own value. */
  lemma {:induction false} FromNatOfToNat(b: Bytes)
    ensures FromNat(ToNat(b), |b|) == b
  {
    if b != [] {
      FromNatOfToNat(b[..|b| - 1]);
      FromNatSnoc(ToNat(b), |b|);
    }
  }

  lemma ToNatInjective(a: Bytes, b: Bytes)
    requires |a| == |b| && ToNat(a) == ToNat(b)
    ensures a == b
  {
    FromNatOfToNat(a);
    FromNatOfToNat(b);
  }

  lemma {:induction false} Pow256Adds(m: nat, n: nat)
    ensures Pow256(m + n) == Pow256(m) * Pow256(n)
  {
    if m > 0 {
      Pow256Adds(m - 1, n);
    }
  }

  lemma Pow256Monotone(m: nat, n: nat)
    requires m <= n
    ensures Pow256(m) <= Pow256(n)
  {
    Pow256Adds(m, n - m);
    assert Pow256(m) * Pow256(n - m) >= Pow256(m);
  }

  /** A value that fits its width decodes to itself. */
  lemma FromNatExact(v: nat, n: nat)
    requires v < Pow256(n)
    ensures ToNat(FromNat(v, n)) == v
  {
    FromNatIsModular(v, n);
    RemainderIsUnique(v, Pow256(n), 0, v);
  }

  lemma ZerosKeepValue(n: nat, b: Bytes)
    ensures ToNat(Zeros(n) + b) == ToNat(b)
  {
    ToNatConcat(Zeros(n), b);
    ToNatZeros(n);
  }

  /** A small value in a wide field is its narrow encoding after zeros. */
  lemma FromNatWidens(v: nat, k: nat, n: nat)
    requires k <= n && v < Pow256(k)
    ensures FromNat(v, n) == Zeros(n - k) + FromNat(v, k)
  {
    var z, b := Zeros(n - k), FromNat(v, k);
    assert ToNat(FromNat(v, n)) == v by {
      Pow256Monotone(k, n);
      FromNatExact(v, n);
    }
    ZerosKeepValue(n - k, b);
    FromNatExact(v, k);
    ToNatInjective(FromNat(v, n), z + b);
  }

  lemma FitsWiderWidth(b: Bytes, n: nat)
    requires |b| <= n
    ensures ToNat(b) < Pow256(n) && ToNat(b) % Pow256(n) == ToNat(b)
  {
    ToNatBound(b);
    Pow256Monotone(|b|, n);
    RemainderIsUnique(ToNat(b), Pow256(n), 0, ToNat(b));
  }

  // ----- The helpers of clob/auth.go -----

  /** big.Int.Bytes: the magnitude without leading zero bytes. */
  function MinimalBytes(v: nat): (b: Bytes)
    ensures ToNat(b) == v
  {
    if v == 0 then [] else MinimalBytes(v / 256) + [v % 256]
  }

  /** padTo32: keeps the last 32 bytes, or left-fills with zeros. */
  function PadTo32(b: Bytes): Word {
    if |b| >= 32 then b[|b| - 32..] else Zeros(32 - |b|) + b
  }

  /** encodeUint256: a (possibly negative) integer in 256-bit two's complement. */
  function EncodeUint256(v: int): Word {
    FromNat(v % Pow256(32), 32)
  }

  /** encodeUint8: the magnitude of v, padded. */
  function EncodeUint8(v: int): Word {
    PadTo32(MinimalBytes(Abs(v)))
  }

  lemma SuffixIsModular(b: Bytes, n: nat)
    requires n <= |b|
    ensures ToNat(b[|b| - n..]) == ToNat(b) % Pow256(n)
  {
    var hi, lo := b[..|b| - n], b[|b| - n..];
    assert hi + lo == b;
    ToNatConcat(hi, lo);
    ToNatBound(lo);
    RemainderIsUnique(ToNat(b), Pow256(n), ToNat(hi), ToNat(lo));
  }

  /** Padding keeps the value modulo 2^256, whatever the input's length. */
  lemma PadTo32IsModular(b: Bytes)
    ensures ToNat(PadTo32(b)) == ToNat(b) % Pow256(32)
  {
    if |b| < 32 {
      ZerosKeepValue(32 - |b|, b);
      FitsWiderWidth(b, 32);
    } else {
      SuffixIsModular(b, 32);
    }
  }

  /** An address in the last 20 bytes of a word. */
  function AddressWord(a: Address): Word {
    Zeros(12) + a
  }

  /** Two integers share an encoding exactly when they agree modulo 2^256. */
  lemma EncodeUint256Binds(v: int, w: int)
    ensures ToNat(EncodeUint256(v)) == v % Pow256(32)
    ensures EncodeUint256(v) == EncodeUint256(w) <==> v % Pow256(32) == w % Pow256(32)
  {
    FromNatExact(v % Pow256(32), 32);
    FromNatExact(w % Pow256(32), 32);
  }

  // ----- Concatenation -----

  function Flatten(parts: seq<Bytes>): Bytes {
    if parts == [] then [] else Flatten(parts[..|parts| - 1]) + parts[|parts| - 1]
  }

  /** encodePacked: appends the parts one after the other. */
  method EncodePacked(parts: seq<Bytes>) returns (buf: Bytes)
    ensures buf == Flatten(parts)
  {
    buf := [];
    for i := 0 to |parts|
      invariant buf == Flatten(parts[..i])
    {
      buf := buf + parts[i];
      assert parts[..i + 1][..i] == parts[..i];
    }
    assert parts[..|parts|] == parts;
  }

  /** Equal concatenations of equally long word lists have equal words. */
  lemma {:induction false} FlattenWordsInjective(a: seq<Word>, b: seq<Word>)
    requires |a| == |b|
    ensures |Flatten(a)| == |Flatten(b)| == 32 * |a|
    ensures Flatten(a) == Flatten(b) ==> a == b
  {
    if a != [] {
      var n := |a| - 1;
      FlattenWordsInjective(a[..n], b[..n]);
      if Flatten(a) == Flatten(b) {
        assert Flatten(a)[..32 * n] == Flatten(a[..n]);
        assert Flatten(b)[..32 * n] == Flatten(b[..n]);
        assert Flatten(a)[32 * n..] == a[n];
        assert Flatten(b)[32 * n..] == b[n];
        assert a == a[..n] + [a[n]] && b == b[..n] + [b[n]];
      }
    }
  }

  /** Word i of a concatenation of words sits at byte 32 * i. */
  lemma {:induction false} FlattenWordAt(ws: seq<Word>, i: nat)
    requires i < |ws|
    ensures |Flatten(ws)| == 32 * |ws|
    ensures Flatten(ws)[32 * i..32 * i + 32] == ws[i]
  {
    FlattenWordsInjective(ws, ws);
    var n := |ws| - 1;
    FlattenWordsInjective(ws[..n], ws[..n]);
    if i < n {
      FlattenWordAt(ws[..n], i);
      assert Flatten(ws)[32 * i..32 * i + 32] == Flatten(ws[..n])[32 * i..32 * i + 32];
    }
  }
}
