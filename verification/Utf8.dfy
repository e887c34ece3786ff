/** UTF-8 as `Buffer.from(text)` writes it and `buffer.toString('utf-8')` reads it back. */
module Utf8 {
  import opened Wrappers

  const REPLACEMENT := '\U{FFFD}'

  function EncodeChar(c: char): (bs: seq<byte>)
    ensures 1 <= |bs| <= 4
  {
    var n := c as int;
    if n < 0x80 then [n]
    else if n < 0x800 then [0xC0 + n / 64, 0x80 + n % 64]
    else if n < 0x1_0000 then [0xE0 + n / 4096, 0x80 + n / 64 % 64, 0x80 + n % 64]
    else [0xF0 + n / 262144, 0x80 + n / 4096 % 64, 0x80 + n / 64 % 64, 0x80 + n % 64]
  }

  function Encode(s: string): seq<byte> {
    if s == [] then [] else EncodeChar(s[0]) + Encode(s[1..])
  }

  predicate Continues(bs: seq<byte>, i: nat) { i < |bs| && 0x80 <= bs[i] < 0xC0 }

  function Tail(b: byte): int { b as int - 0x80 }

  /** The first character of a byte string and the bytes it takes; a malformed start reads as U+FFFD. */
  function DecodeOne(bs: seq<byte>): (r: (char, nat))
    requires bs != []
    ensures 1 <= r.1 <= |bs|
  {
    var b: int := bs[0];
    if b < 0x80 then (b as char, 1)
    else if 0xC2 <= b < 0xE0 && Continues(bs, 1) then (((b - 0xC0) * 64 + Tail(bs[1])) as char, 2)
    else if 0xE0 <= b < 0xF0 && Continues(bs, 1) &&
            (b == 0xE0 ==> bs[1] >= 0xA0) && (b == 0xED ==> bs[1] < 0xA0) then
      if Continues(bs, 2) then (((b - 0xE0) * 4096 + Tail(bs[1]) * 64 + Tail(bs[2])) as char, 3)
      else (REPLACEMENT, 2)
    else if 0xF0 <= b < 0xF5 && Continues(bs, 1) &&
            (b == 0xF0 ==> bs[1] >= 0x90) && (b == 0xF4 ==> bs[1] < 0x90) then
      if !Continues(bs, 2) then (REPLACEMENT, 2)
      else if !Continues(bs, 3) then (REPLACEMENT, 3)
      else (((b - 0xF0) * 262144 + Tail(bs[1]) * 4096 + Tail(bs[2]) * 64 + Tail(bs[3])) as char, 4)
    else (REPLACEMENT, 1)
  }

  function Decode(bs: seq<byte>): string {
    if bs == [] then [] else
      var (c, n) := DecodeOne(bs);
      [c] + Decode(bs[n..])
  }

  /** The first bytes decide what is decoded, whatever follows them. */
  lemma DecodeStart(bs: seq<byte>, c: char)
    requires EncodeChar(c) <= bs
    ensures DecodeOne(bs) == (c, |EncodeChar(c)|)
  {
    var n, e := c as int, EncodeChar(c);
    assert forall i | 0 <= i < |e| :: bs[i] == e[i];
    if n < 0x80 {
    } else if n < 0x800 {
      assert n == n / 64 * 64 + n % 64;
    } else if n < 0x1_0000 {
      ThreeDigits(n);
    } else {
      FourDigits(n);
    }
  }

  /** A number from its base-64 digits. */
  lemma ThreeDigits(n: nat)
    ensures n == n / 4096 * 4096 + n / 64 % 64 * 64 + n % 64
  {
    assert n / 4096 == n / 64 / 64;
  }

  lemma FourDigits(n: nat)
    ensures n == n / 262144 * 262144 + n / 4096 % 64 * 4096 + n / 64 % 64 * 64 + n % 64
  {
    ThreeDigits(n);
    assert n / 262144 == n / 4096 / 64;
  }

  predicate Trails(b: byte) { 0x80 <= b <= 0xBF }

  /** The shortest of the four forms of section 3 of RFC 3629, and the bits it carries. */
  lemma EncodeExact(c: char)
    ensures var n, bs := c as int, EncodeChar(c);
            (n < 0x80 ==> bs == [n]) &&
            (0x80 <= n < 0x800 ==>
              |bs| == 2 && 0xC2 <= bs[0] <= 0xDF && Trails(bs[1]) &&
              n == (bs[0] - 0xC0) as int * 64 + (bs[1] - 0x80) as int) &&
            (0x800 <= n < 0x1_0000 ==>
              |bs| == 3 && 0xE0 <= bs[0] <= 0xEF && Trails(bs[1]) && Trails(bs[2]) &&
              n == (bs[0] - 0xE0) as int * 4096 + (bs[1] - 0x80) as int * 64 + (bs[2] - 0x80) as int) &&
            (0x1_0000 <= n ==>
              |bs| == 4 && 0xF0 <= bs[0] <= 0xF4 && Trails(bs[1]) && Trails(bs[2]) && Trails(bs[3]) &&
              n == (bs[0] - 0xF0) as int * 262144 + (bs[1] - 0x80) as int * 4096 +
                   (bs[2] - 0x80) as int * 64 + (bs[3] - 0x80) as int)
  {
    ThreeDigits(c as int);
    FourDigits(c as int);
  }

  lemma CharRoundTrip(c: char, rest: seq<byte>)
    ensures DecodeOne(EncodeChar(c) + rest) == (c, |EncodeChar(c)|)
  {
    DecodeStart(EncodeChar(c) + rest, c);
  }

  /** A byte that starts no character, or that no continuation follows, reads as U+FFFD. */
  lemma MalformedReads(b: byte, rest: seq<byte>)
    requires 0x80 <= b && (b < 0xC2 || b >= 0xF5 || rest == [] || !Trails(rest[0]))
    ensures Decode([b] + rest) == ['\U{FFFD}'] + Decode(rest)
  {
    assert ([b] + rest)[1..] == rest;
    assert rest != [] ==> ([b] + rest)[1] == rest[0];
  }

  lemma {:induction false} RoundTrip(s: string)
    ensures Decode(Encode(s)) == s
  {
    if s != [] {
      CharRoundTrip(s[0], Encode(s[1..]));
      assert Encode(s)[|EncodeChar(s[0])|..] == Encode(s[1..]);
      RoundTrip(s[1..]);
    }
  }
}
