/** The UTF-8 encoding of code-point sequences (RFC 3629, section 3), which Python's
    `str.encode("utf-8")` produces. */
module Utf8 {
  import opened Common

  type Byte = b: int | 0 <= b < 256

  /** A code point that has an encoding: surrogates have none. */
  predicate Scalar(c: nat) { c <= 0x10FFFF && !(0xD800 <= c <= 0xDFFF) }

  predicate Encodable(s: seq<nat>) { forall i :: 0 <= i < |s| ==> Scalar(s[i]) }

  /** A continuation byte carrying six bits. */
  function Continuation(bits: nat): Byte { 0x80 + bits % 64 }

  function EncodePoint(c: nat): seq<Byte>
    requires Scalar(c)
  {
    if c < 0x80 then [c]
    else if c < 0x800 then [0xC0 + c / 64, Continuation(c)]
    else if c < 0x10000 then [0xE0 + c / 4096, Continuation(c / 64), Continuation(c)]
    else [0xF0 + c / 262144, Continuation(c / 4096), Continuation(c / 64), Continuation(c)]
  }

  function Encode(s: seq<nat>): seq<Byte>
    requires Encodable(s)
  {
    if s == [] then [] else EncodePoint(s[0]) + Encode(s[1..])
  }

  // ----- Decoding

  predicate Continues(b: seq<Byte>, n: nat) { n <= |b| && forall i :: 1 <= i < n ==> 0x80 <= b[i] < 0xC0 }

  /** What a byte carries above its tag. */
  function Payload(b: Byte, tag: int): int { b as int - tag }

  /** The first code point of a byte sequence and the number of bytes it takes. Overlong forms,
      surrogates and stray bytes are refused. */
  function DecodePoint(b: seq<Byte>): (r: Option<(nat, nat)>)
    requires b != []
    ensures r.Some? ==> 1 <= r.value.1 <= |b|
  {
    if b[0] < 0x80 then Some((b[0], 1))
    else if 0xC0 <= b[0] < 0xE0 && Continues(b, 2) then
      Shortest(0x80, 64 * Payload(b[0], 0xC0) + Payload(b[1], 0x80), 2)
    else if 0xE0 <= b[0] < 0xF0 && Continues(b, 3) then
      Shortest(0x800, 4096 * Payload(b[0], 0xE0) + 64 * Payload(b[1], 0x80) + Payload(b[2], 0x80), 3)
    else if 0xF0 <= b[0] < 0xF8 && Continues(b, 4) then
      Shortest(0x10000, 262144 * Payload(b[0], 0xF0) + 4096 * Payload(b[1], 0x80) + 64 * Payload(b[2], 0x80)
                        + Payload(b[3], 0x80), 4)
    else None
  }

  function Shortest(least: nat, c: int, width: nat): Option<(nat, nat)> {
    if least <= c && Scalar(c) then Some((c, width)) else None
  }

  function Decode(b: seq<Byte>): Option<seq<nat>>
    decreases |b|
  {
    if b == [] then Some([]) else
      match DecodePoint(b)
      case None => None
      case Some((c, width)) =>
        match Decode(b[width..])
        case None => None
        case Some(rest) => Some([c] + rest)
  }

  /** Six-bit digits reassemble. */
  lemma Digits(c: nat)
    ensures c / 64 * 64 + c % 64 == c
    ensures c / 4096 * 4096 + c / 64 % 64 * 64 + c % 64 == c
    ensures c / 262144 * 262144 + c / 4096 % 64 * 4096 + c / 64 % 64 * 64 + c % 64 == c
  {
    assert c / 4096 == c / 64 / 64;
    assert c / 262144 == c / 4096 / 64;
  }

  lemma PointRoundTrip(c: nat, rest: seq<Byte>)
    requires Scalar(c)
    ensures DecodePoint(EncodePoint(c) + rest) == Some((c, |EncodePoint(c)|))
  {
    Digits(c);
  }

  /** Decoding an encoding gives the code points back, so every byte of it is needed. */
  lemma {:induction false} RoundTrip(s: seq<nat>)
    requires Encodable(s)
    ensures Decode(Encode(s)) == Some(s)
  {
    if s != [] {
      PointRoundTrip(s[0], Encode(s[1..]));
      RoundTrip(s[1..]);
      assert [s[0]] + s[1..] == s;
      assert (EncodePoint(s[0]) + Encode(s[1..]))[|EncodePoint(s[0])|..] == Encode(s[1..]);
    }
  }
}
