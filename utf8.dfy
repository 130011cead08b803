/** `str.encode()`: the UTF-8 bytes that the directory fingerprint feeds to its
    digest for every relative path and every file hash. */
module Utf8 {
  import opened Common

  function EncodeChar(c: char): (r: seq<byte>)
    ensures 1 <= |r| <= 4
  {
    var n := c as int;
    if n < 0x80 then [n as byte]
    else if n < 0x800 then [(0xC0 + n / 64) as byte, (0x80 + n % 64) as byte]
    else if n < 0x10000 then
      [(0xE0 + n / 4096) as byte, (0x80 + (n / 64) % 64) as byte, (0x80 + n % 64) as byte]
    else
      [(0xF0 + n / 262144) as byte, (0x80 + (n / 4096) % 64) as byte,
       (0x80 + (n / 64) % 64) as byte, (0x80 + n % 64) as byte]
  }

  function Encode(s: string): (r: seq<byte>)
    ensures |r| >= |s|
  {
    if s == [] then [] else EncodeChar(s[0]) + Encode(s[1..])
  }

  /** How many bytes the sequence starting with lead byte `b` occupies. */
  function SeqLength(b: byte): nat {
    if b < 0x80 then 1
    else if 0xC0 <= b < 0xE0 then 2
    else if 0xE0 <= b < 0xF0 then 3
    else if 0xF0 <= b < 0xF8 then 4
    else 0
  }

  predicate IsScalar(n: int) {
    (0 <= n < 0xD800) || (0xE000 <= n < 0x11_0000)
  }

  function DecodeChar(bs: seq<byte>): Option<char>
    requires 1 <= |bs| <= 4
  {
    var n :=
      if |bs| == 1 then bs[0] as int
      else if |bs| == 2 then (bs[0] as int - 0xC0) * 64 + (bs[1] as int - 0x80)
      else if |bs| == 3 then
        (bs[0] as int - 0xE0) * 4096 + (bs[1] as int - 0x80) * 64 + (bs[2] as int - 0x80)
      else
        (bs[0] as int - 0xF0) * 262144 + (bs[1] as int - 0x80) * 4096
        + (bs[2] as int - 0x80) * 64 + (bs[3] as int - 0x80);
    if IsScalar(n) then Some(n as char) else None
  }

  /** The inverse of Encode on the bytes Encode produces. */
  function Decode(bs: seq<byte>): Option<string>
    decreases |bs|
  {
    if bs == [] then Some([])
    else
      var k := SeqLength(bs[0]);
      if k == 0 || k > |bs| then None
      else match DecodeChar(bs[..k])
        case None => None
        case Some(c) =>
          match Decode(bs[k..])
          case None => None
          case Some(rest) => Some([c] + rest)
  }

  lemma CharRoundTrip(c: char)
    ensures SeqLength(EncodeChar(c)[0]) == |EncodeChar(c)|
    ensures DecodeChar(EncodeChar(c)) == Some(c)
  {
    var n := c as int;
    assert IsScalar(n);
    var r0, q0 := n % 64, n / 64;
    assert n == q0 * 64 + r0 && 0 <= r0 < 64;
    var r1, q1 := q0 % 64, q0 / 64;
    assert q0 == q1 * 64 + r1 && 0 <= r1 < 64;
    var r2, q2 := q1 % 64, q1 / 64;
    assert q1 == q2 * 64 + r2 && 0 <= r2 < 64;
    assert n / 4096 == q1 && (n / 4096) % 64 == r2 && n / 262144 == q2;
    var e := EncodeChar(c);
    if n < 0x80 {
    } else if n < 0x800 {
      assert e == [(0xC0 + q0) as byte, (0x80 + r0) as byte];
      assert DecodeChar(e) == Some(c);
    } else if n < 0x10000 {
      assert e == [(0xE0 + q1) as byte, (0x80 + r1) as byte, (0x80 + r0) as byte];
      assert q1 * 4096 + r1 * 64 + r0 == n;
      assert DecodeChar(e) == Some(c);
    } else {
      assert e == [(0xF0 + q2) as byte, (0x80 + r2) as byte, (0x80 + r1) as byte, (0x80 + r0) as byte];
      assert q2 * 262144 + r2 * 4096 + r1 * 64 + r0 == n;
      assert DecodeChar(e) == Some(c);
    }
  }

  /** Round trip: decoding the encoding of a string gives the string back. */
  lemma {:induction false} RoundTrip(s: string)
    ensures Decode(Encode(s)) == Some(s)
  {
    if s != [] {
      var e := EncodeChar(s[0]);
      CharRoundTrip(s[0]);
      RoundTrip(s[1..]);
      var bs := Encode(s);
      assert bs == e + Encode(s[1..]);
      assert bs[0] == e[0];
      assert bs[..|e|] == e;
      assert bs[|e|..] == Encode(s[1..]);
      assert s == [s[0]] + s[1..];
    }
  }

  /** Encode is injective: different strings are fed as different bytes. */
  lemma Injective(s: string, t: string)
    requires Encode(s) == Encode(t)
    ensures s == t
  {
    RoundTrip(s);
    RoundTrip(t);
  }
}
