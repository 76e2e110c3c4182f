/** UTF-8 as `unicode/utf8.DecodeRune` reads it (sections 3 and 4 of RFC 3629). */
module Utf8 {

  type Byte = b: int | 0 <= b < 256

  const RUNE_ERROR := 0xFFFD

  /** A Unicode scalar value. */
  predicate Scalar(r: int) {
    0 <= r < 0xD800 || 0xE000 <= r <= 0x10FFFF
  }

  /** The unique encoding RFC 3629 gives a scalar value. */
  function Encode(r: int): (s: seq<Byte>)
    requires Scalar(r)
    ensures 1 <= |s| <= 4
  {
    if r < 0x80 then [r]
    else if r < 0x800 then [0xC0 + r / 64, 0x80 + r % 64]
    else if r < 0x10000 then [0xE0 + r / 4096, 0x80 + r / 64 % 64, 0x80 + r % 64]
    else [0xF0 + r / 262144, 0x80 + r / 4096 % 64, 0x80 + r / 64 % 64, 0x80 + r % 64]
  }

  datatype Decoded = Decoded(rune: int, size: nat) {
    /** What DecodeRune returns for a byte that starts no encoding. */
    predicate Invalid() { rune == RUNE_ERROR && size == 1 }
  }

  predicate Continuation(d: seq<Byte>, i: nat) {
    i < |d| && 0x80 <= d[i] < 0xC0
  }

  /** The range of the second byte depends on the first (table of section 4, RFC 3629). */
  predicate SecondOfThree(first: Byte, second: Byte) {
    (if first == 0xE0 then 0xA0 else 0x80) <= second <= (if first == 0xED then 0x9F else 0xBF)
  }

  predicate SecondOfFour(first: Byte, second: Byte) {
    (if first == 0xF0 then 0x90 else 0x80) <= second <= (if first == 0xF4 then 0x8F else 0xBF)
  }

  /** The number whose base-64 digits are p, q, s, t. */
  function Value(p: int, q: int, s: int, t: int): int {
    262144 * p + 4096 * q + 64 * s + t
  }

  lemma Digits(r: int)
    requires 0 <= r
    ensures r == Value(r / 262144, r / 4096 % 64, r / 64 % 64, r % 64)
    ensures r < 262144 ==> r / 262144 == 0 && r / 4096 % 64 == r / 4096
    ensures r < 4096 ==> r / 4096 == 0 && r / 64 % 64 == r / 64
  {
    assert r / 4096 / 64 == r / 262144;
    assert r / 64 / 64 == r / 4096;
  }

  lemma ValueDigits(p: int, q: int, s: int, t: int)
    requires 0 <= p && 0 <= q < 64 && 0 <= s < 64 && 0 <= t < 64
    ensures Value(p, q, s, t) % 64 == t && Value(p, q, s, t) / 64 % 64 == s
    ensures Value(p, q, s, t) / 4096 % 64 == q && Value(p, q, s, t) / 262144 == p
  {
    var v := Value(p, q, s, t);
    assert v / 64 == 4096 * p + 64 * q + s;
    assert v / 64 / 64 == 64 * p + q == v / 4096;
    assert v / 4096 / 64 == p == v / 262144;
  }

  function Decode(d: seq<Byte>, i: nat): (r: Decoded)
    requires i < |d|
    ensures 1 <= r.size && i + r.size <= |d|
    ensures d[i] < 0x80 ==> r == Decoded(d[i], 1)
  {
    var b := d[i];
    if b < 0x80 then Decoded(b, 1)
    else if 0xC2 <= b <= 0xDF && Continuation(d, i + 1) then
      Decoded(Value(0, 0, b - 0xC0, d[i + 1] - 0x80), 2)
    else if 0xE0 <= b <= 0xEF && Continuation(d, i + 1) && SecondOfThree(b, d[i + 1]) && Continuation(d, i + 2) then
      Decoded(Value(0, b - 0xE0, d[i + 1] - 0x80, d[i + 2] - 0x80), 3)
    else if 0xF0 <= b <= 0xF4 && Continuation(d, i + 1) && SecondOfFour(b, d[i + 1])
            && Continuation(d, i + 2) && Continuation(d, i + 3) then
      Decoded(Value(b - 0xF0, d[i + 1] - 0x80, d[i + 2] - 0x80, d[i + 3] - 0x80), 4)
    else Decoded(RUNE_ERROR, 1)
  }

  predicate RuneStart(b: Byte) { !(0x80 <= b < 0xC0) }

  /** Where the last rune of d may start: the last byte in front of the final one that can start a rune, among
      three, or the byte in front of these. */
  function LastStart(d: seq<Byte>): (i: nat)
    requires d != []
    ensures i < |d| && |d| - i <= 5
  {
    var n := |d|;
    if n == 1 then 0
    else if RuneStart(d[n - 2]) then n - 2
    else if n == 2 then 0
    else if RuneStart(d[n - 3]) then n - 3
    else if n == 3 then 0
    else if RuneStart(d[n - 4]) then n - 4
    else if n == 4 then 0
    else n - 5
  }

  /** `utf8.DecodeLastRune`. */
  function DecodeLast(d: seq<Byte>): (r: Decoded)
    requires d != []
    ensures 1 <= r.size <= |d|
  {
    var n := |d|;
    if d[n - 1] < 0x80 then Decoded(d[n - 1], 1)
    else
      var r := Decode(d, LastStart(d));
      if LastStart(d) + r.size == n then r else Decoded(RUNE_ERROR, 1)
  }

  lemma DecodeOne(d: seq<Byte>, i: nat)
    requires i < |d| && d[i] < 0x80
    ensures Decode(d, i) == Decoded(d[i], 1)
  {
  }

  lemma DecodeTwo(d: seq<Byte>, i: nat, q: int, t: int)
    requires 2 <= q < 32 && 0 <= t < 64
    requires i + 2 <= |d| && d[i] == 0xC0 + q && d[i + 1] == 0x80 + t
    ensures Decode(d, i) == Decoded(Value(0, 0, q, t), 2)
  {
  }

  lemma DecodeThree(d: seq<Byte>, i: nat, q: int, s: int, t: int)
    requires 0 <= q < 16 && 0 <= s < 64 && 0 <= t < 64 && (q == 0 ==> s >= 32) && (q == 13 ==> s < 32)
    requires i + 3 <= |d| && d[i] == 0xE0 + q && d[i + 1] == 0x80 + s && d[i + 2] == 0x80 + t
    ensures Decode(d, i) == Decoded(Value(0, q, s, t), 3)
  {
    hide Value;
  }

  lemma DecodeFour(d: seq<Byte>, i: nat, p: int, q: int, s: int, t: int)
    requires 0 <= p < 5 && 0 <= q < 64 && 0 <= s < 64 && 0 <= t < 64 && (p == 0 ==> q >= 16) && (p == 4 ==> q < 16)
    requires i + 4 <= |d| && d[i] == 0xF0 + p && d[i + 1] == 0x80 + q && d[i + 2] == 0x80 + s && d[i + 3] == 0x80 + t
    ensures Decode(d, i) == Decoded(Value(p, q, s, t), 4)
  {
    hide Value;
  }

  /** Whatever surrounds it, an encoded scalar value decodes to itself. */
  lemma DecodeEncoded(d: seq<Byte>, i: nat, r: int)
    requires Scalar(r)
    requires i + |Encode(r)| <= |d| && d[i..i + |Encode(r)|] == Encode(r)
    ensures Decode(d, i) == Decoded(r, |Encode(r)|)
  {
    hide Decode;
    var e := Encode(r);
    forall k: nat | k < |e| ensures d[i + k] == e[k] { SliceAt(d, i, e, k); }
    var p, q, s, t := r / 262144, r / 4096 % 64, r / 64 % 64, r % 64;
    Digits(r);
    if r < 0x80 {
      assert d[i + 0] == r;
      DecodeOne(d, i);
    } else if r < 0x800 {
      assert d[i + 0] == 0xC0 + s && d[i + 1] == 0x80 + t;
      DecodeTwo(d, i, s, t);
    } else if r < 0x10000 {
      assert d[i + 0] == 0xE0 + q && d[i + 1] == 0x80 + s && d[i + 2] == 0x80 + t;
      DecodeThree(d, i, q, s, t);
    } else {
      assert d[i + 0] == 0xF0 + p && d[i + 1] == 0x80 + q && d[i + 2] == 0x80 + s && d[i + 3] == 0x80 + t;
      DecodeFour(d, i, p, q, s, t);
    }
  }

  lemma SliceAt(d: seq<Byte>, i: nat, e: seq<Byte>, k: nat)
    requires i + |e| <= |d| && d[i..i + |e|] == e && k < |e|
    ensures d[i + k] == e[k]
  {
    assert d[i..i + |e|][k] == d[i + k];
  }

  lemma EncodeTwo(q: int, t: int)
    requires 2 <= q < 32 && 0 <= t < 64
    ensures Scalar(Value(0, 0, q, t)) && Encode(Value(0, 0, q, t)) == [0xC0 + q, 0x80 + t]
  {
    ValueDigits(0, 0, q, t);
  }

  lemma EncodeThree(q: int, s: int, t: int)
    requires 0 <= q < 16 && 0 <= s < 64 && 0 <= t < 64 && (q == 0 ==> s >= 32) && (q == 13 ==> s < 32)
    ensures Scalar(Value(0, q, s, t)) && Encode(Value(0, q, s, t)) == [0xE0 + q, 0x80 + s, 0x80 + t]
  {
    ValueDigits(0, q, s, t);
  }

  lemma EncodeFour(p: int, q: int, s: int, t: int)
    requires 0 <= p < 5 && 0 <= q < 64 && 0 <= s < 64 && 0 <= t < 64 && (p == 0 ==> q >= 16) && (p == 4 ==> q < 16)
    ensures Scalar(Value(p, q, s, t)) && Encode(Value(p, q, s, t)) == [0xF0 + p, 0x80 + q, 0x80 + s, 0x80 + t]
  {
    ValueDigits(p, q, s, t);
  }

  /** A rune is accepted only where its shortest encoding stands, so Decode and Encode are inverse. */
  lemma DecodedIsEncoding(d: seq<Byte>, i: nat)
    requires i < |d|
    requires !Decode(d, i).Invalid()
    ensures Scalar(Decode(d, i).rune)
    ensures d[i..i + Decode(d, i).size] == Encode(Decode(d, i).rune)
  {
    hide Encode, Value, Scalar;
    var n := Decode(d, i).size;
    if n == 1 {
      assert Scalar(d[i]) && Encode(d[i]) == [d[i]] by { EncodeOne(d[i]); }
    } else if n == 2 {
      EncodeTwo(d[i] - 0xC0, d[i + 1] - 0x80);
      assert d[i..i + 2] == [d[i], d[i + 1]];
    } else if n == 3 {
      EncodeThree(d[i] - 0xE0, d[i + 1] - 0x80, d[i + 2] - 0x80);
      assert d[i..i + 3] == [d[i], d[i + 1], d[i + 2]];
    } else {
      EncodeFour(d[i] - 0xF0, d[i + 1] - 0x80, d[i + 2] - 0x80, d[i + 3] - 0x80);
      assert d[i..i + 4] == [d[i], d[i + 1], d[i + 2], d[i + 3]];
    }
  }

  lemma EncodeOne(b: Byte)
    requires b < 0x80
    ensures Scalar(b) && Encode(b) == [b]
  {
  }

  /** Truncating the input after a decoded rune does not change it. */
  lemma DecodeLocal(a: seq<Byte>, b: seq<Byte>, i: nat)
    requires i < |a| && i + Decode(a + b, i).size <= |a|
    ensures Decode(a + b, i) == Decode(a, i)
  {
    assert forall k :: 0 <= k < |a| ==> (a + b)[k] == a[k];
  }

  /** One scalar value of each length: A, e with acute, the euro sign, and U+1F600. */
  lemma EncodingsByLength()
    ensures Encode(0x41) == [0x41] && Encode(0xE9) == [0xC3, 0xA9]
    ensures Encode(0x20AC) == [0xE2, 0x82, 0xAC] && Encode(0x1F600) == [0xF0, 0x9F, 0x98, 0x80]
  {
  }
}
