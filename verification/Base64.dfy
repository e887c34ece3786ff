/**
 Base64 with padding, as section 4 of RFC 4648 defines it, and the lenient
 reading of `Buffer.from(text, 'base64')`: the URL-safe letters are accepted,
 reading stops at the first '=', and any other character is skipped.
 */
module Base64 {
  import opened Wrappers

  type sextet = v: int | 0 <= v < 64

  function Digit(v: sextet): char {
    if v < 26 then ('A' as int + v) as char
    else if v < 52 then ('a' as int + v - 26) as char
    else if v < 62 then ('0' as int + v - 52) as char
    else if v == 62 then '+'
    else '/'
  }

  function Value(c: char): Option<sextet> {
    if 'A' <= c <= 'Z' then Some(c as int - 'A' as int)
    else if 'a' <= c <= 'z' then Some(c as int - 'a' as int + 26)
    else if '0' <= c <= '9' then Some(c as int - '0' as int + 52)
    else if c == '+' || c == '-' then Some(62)
    else if c == '/' || c == '_' then Some(63)
    else None
  }

  function Sextet0(a: int): int { a / 4 }
  function Sextet1(a: int, b: int): int { a % 4 * 16 + b / 16 }
  function Sextet2(b: int, c: int): int { b % 16 * 4 + c / 64 }
  function Sextet3(c: int): int { c % 64 }

  /** Three bytes make four sextets; one or two bytes left over make two or three. */
  function Split(bs: seq<byte>): seq<sextet> {
    if |bs| == 0 then []
    else if |bs| == 1 then [Sextet0(bs[0]), Sextet1(bs[0], 0)]
    else if |bs| == 2 then [Sextet0(bs[0]), Sextet1(bs[0], bs[1]), Sextet2(bs[1], 0)]
    else [Sextet0(bs[0]), Sextet1(bs[0], bs[1]), Sextet2(bs[1], bs[2]), Sextet3(bs[2])] + Split(bs[3..])
  }

  function Byte0(a: int, b: int): int { a * 4 + b / 16 }
  function Byte1(b: int, c: int): int { b % 16 * 16 + c / 4 }
  function Byte2(c: int, d: int): int { c % 4 * 64 + d }

  function Join(vs: seq<sextet>): seq<byte> {
    if |vs| < 2 then []
    else if |vs| == 2 then [Byte0(vs[0], vs[1])]
    else if |vs| == 3 then [Byte0(vs[0], vs[1]), Byte1(vs[1], vs[2])]
    else [Byte0(vs[0], vs[1]), Byte1(vs[1], vs[2]), Byte2(vs[2], vs[3])] + Join(vs[4..])
  }

  function Digits(vs: seq<sextet>): string {
    if vs == [] then [] else [Digit(vs[0])] + Digits(vs[1..])
  }

  function Padding(n: nat): string {
    if n % 3 == 1 then "==" else if n % 3 == 2 then "=" else ""
  }

  function Sextets(s: string): seq<sextet> {
    if s == [] || s[0] == '=' then []
    else if Value(s[0]).None? then Sextets(s[1..])
    else [Value(s[0]).value] + Sextets(s[1..])
  }

  function Encode(bs: seq<byte>): string { Digits(Split(bs)) + Padding(|bs|) }

  function Decode(s: string): seq<byte> { Join(Sextets(s)) }

  /** The bits of three bytes, put into four sextets and taken out again; zeros stand in for absent bytes. */
  lemma BitsReturn(a: byte, b: byte, c: byte)
    ensures Byte0(Sextet0(a), Sextet1(a, b)) == a
    ensures Byte1(Sextet1(a, b), Sextet2(b, c)) == b
    ensures Byte2(Sextet2(b, c), Sextet3(c)) == c
  {
  }

  lemma JoinFour(w: sextet, x: sextet, y: sextet, z: sextet, rest: seq<sextet>)
    ensures Join([w, x, y, z] + rest) == [Byte0(w, x), Byte1(x, y), Byte2(y, z)] + Join(rest)
  {
    var vs: seq<sextet> := [w, x, y, z] + rest;
    assert vs[4..] == rest;
  }

  lemma JoinQuantum(a: byte, b: byte, c: byte, rest: seq<sextet>)
    ensures Join([Sextet0(a), Sextet1(a, b), Sextet2(b, c), Sextet3(c)] + rest) == [a, b, c] + Join(rest)
  {
    BitsReturn(a, b, c);
    JoinFour(Sextet0(a), Sextet1(a, b), Sextet2(b, c), Sextet3(c), rest);
  }

  lemma JoinOne(a: byte)
    ensures Join([Sextet0(a), Sextet1(a, 0)]) == [a]
  {
  }

  lemma JoinTwo(a: byte, b: byte)
    ensures Join([Sextet0(a), Sextet1(a, b), Sextet2(b, 0)]) == [a, b]
  {
  }

  lemma {:induction false} JoinSplit(bs: seq<byte>)
    ensures Join(Split(bs)) == bs
  {
    if |bs| == 1 {
      JoinOne(bs[0]);
    } else if |bs| == 2 {
      JoinTwo(bs[0], bs[1]);
    } else if |bs| >= 3 {
      JoinQuantum(bs[0], bs[1], bs[2], Split(bs[3..]));
      JoinSplit(bs[3..]);
      assert bs == [bs[0], bs[1], bs[2]] + bs[3..];
    }
  }

  lemma DigitValue(v: sextet)
    ensures Value(Digit(v)) == Some(v) && Digit(v) != '='
  {
  }

  lemma SextetsFirst(v: sextet, rest: string)
    ensures Sextets([Digit(v)] + rest) == [v] + Sextets(rest)
  {
    DigitValue(v);
    assert ([Digit(v)] + rest)[1..] == rest;
  }

  lemma DigitsFirst(vs: seq<sextet>, pad: string)
    requires vs != []
    ensures Digits(vs) + pad == [Digit(vs[0])] + (Digits(vs[1..]) + pad)
  {
  }

  lemma {:induction false} SextetsOfDigits(vs: seq<sextet>, pad: string)
    requires pad != [] ==> pad[0] == '='
    ensures Sextets(Digits(vs) + pad) == vs
  {
    if vs == [] {
      assert Digits(vs) + pad == pad;
    } else {
      var v, rest := vs[0], vs[1..];
      SextetsOfDigits(rest, pad);
      SextetsFirst(v, Digits(rest) + pad);
      DigitsFirst(vs, pad);
      assert vs == [v] + rest;
    }
  }

  /** Decoding undoes encoding for every length and every padding. */
  lemma RoundTrip(bs: seq<byte>)
    ensures Decode(Encode(bs)) == bs
  {
    SextetsOfDigits(Split(bs), Padding(|bs|));
    JoinSplit(bs);
  }

  lemma PaddingRepeats(n: nat)
    requires n >= 3
    ensures Padding(n) == Padding(n - 3) && (n + 2) / 3 * 4 == (n - 3 + 2) / 3 * 4 + 4
  {
    assert (n + 2) / 3 == (n - 3 + 2) / 3 + 1;
  }

  lemma {:induction false} SplitLength(bs: seq<byte>)
    ensures |Split(bs)| + |Padding(|bs|)| == (|bs| + 2) / 3 * 4
  {
    if |bs| >= 3 {
      SplitLength(bs[3..]);
      PaddingRepeats(|bs|);
    }
  }

  /** The text is whole quanta of four characters, as section 4 requires. */
  lemma WholeQuanta(bs: seq<byte>)
    ensures |Encode(bs)| == (|bs| + 2) / 3 * 4
  {
    SplitLength(bs);
    DigitsLength(Split(bs));
  }

  lemma {:induction false} DigitsLength(vs: seq<sextet>)
    ensures |Digits(vs)| == |vs|
  {
    if vs != [] { DigitsLength(vs[1..]); }
  }

  // ------------------------------------------- the alphabet and the quanta of section 4

  const UPPER := "ABCDEFGHIJKLMNOPQRSTUVWXYZ"
  const LOWER := "abcdefghijklmnopqrstuvwxyz"
  const DECIMAL := "0123456789"
  const ALPHABET := UPPER + LOWER + DECIMAL + "+/"

  lemma DigitsAreTheAlphabet(v: sextet)
    ensures |ALPHABET| == 64 && Digit(v) == ALPHABET[v]
  {
    assert |UPPER| == 26 && |LOWER| == 26 && |DECIMAL| == 10;
    if v < 26 {
      assert Digit(v) == UPPER[v];
    } else if v < 52 {
      assert Digit(v) == LOWER[v - 26];
    } else if v < 62 {
      assert Digit(v) == DECIMAL[v - 52];
    }
  }

  /** Three bytes as one number. */
  function Bits(a: int, b: int, c: int): int { 65536 * a + 256 * b + c }

  /** Four letters for the four times six bits of three bytes. */
  function Quantum(a: byte, b: byte, c: byte): string {
    var n := Bits(a, b, c);
    [Digit(n / 262144), Digit(n / 4096 % 64), Digit(n / 64 % 64), Digit(n % 64)]
  }

  lemma SextetsOfBits(a: byte, b: byte, c: byte)
    ensures var n := Bits(a, b, c);
            Sextet0(a) == n / 262144 && Sextet1(a, b) == n / 4096 % 64 &&
            Sextet2(b, c) == n / 64 % 64 && Sextet3(c) == n % 64
  {
    HighDigits(a, b, c);
    SecondDigit(a, b as int / 16);
    ThirdDigit(a, b, c as int / 64);
  }

  lemma Remainder(q: int, r: int)
    requires 0 <= r < 64
    ensures (64 * q + r) % 64 == r
  {
  }

  lemma SecondDigit(a: byte, high: int)
    requires 0 <= high < 16
    ensures (16 * a as int + high) % 64 == a as int % 4 * 16 + high
  {
    Remainder(a as int / 4, a as int % 4 * 16 + high);
  }

  lemma ThirdDigit(a: byte, b: byte, high: int)
    requires 0 <= high < 4
    ensures (1024 * a as int + 4 * b as int + high) % 64 == b as int % 16 * 4 + high
  {
    Remainder(16 * a as int + b as int / 16, b as int % 16 * 4 + high);
  }

  lemma QuantumExact(a: byte, b: byte, c: byte)
    ensures Quantum(a, b, c) == [Digit(Sextet0(a)), Digit(Sextet1(a, b)), Digit(Sextet2(b, c)), Digit(Sextet3(c))]
  {
    SextetsOfBits(a, b, c);
  }

  lemma HighDigits(a: byte, b: byte, c: byte)
    ensures var n := Bits(a, b, c);
            n / 262144 == a / 4 && n / 4096 == 16 * a as int + b as int / 16 &&
            n / 64 == 1024 * a as int + 4 * b as int + c as int / 64
  {
  }

  lemma DigitsCons(v: sextet, rest: seq<sextet>)
    ensures Digits([v] + rest) == [Digit(v)] + Digits(rest)
  {
    assert ([v] + rest)[1..] == rest;
  }

  lemma DigitsTwo(w: sextet, x: sextet, rest: seq<sextet>)
    ensures Digits([w, x] + rest) == [Digit(w), Digit(x)] + Digits(rest)
  {
    assert [w, x] + rest == [w] + ([x] + rest);
    DigitsCons(w, [x] + rest);
    DigitsCons(x, rest);
  }

  lemma DigitsPair(w: sextet, x: sextet)
    ensures Digits([w, x]) == [Digit(w), Digit(x)]
  {
    DigitsTwo(w, x, []);
    assert [w, x] + [] == [w, x];
  }

  lemma DigitsThree(w: sextet, x: sextet, y: sextet)
    ensures Digits([w, x, y]) == [Digit(w), Digit(x), Digit(y)]
  {
    DigitsTwo(w, x, [y]);
    DigitsCons(y, []);
    assert [w, x] + [y] == [w, x, y] && [y] + [] == [y];
  }

  lemma DigitsFour(w: sextet, x: sextet, y: sextet, z: sextet, rest: seq<sextet>)
    ensures Digits([w, x, y, z] + rest) == [Digit(w), Digit(x), Digit(y), Digit(z)] + Digits(rest)
  {
    assert [w, x, y, z] + rest == [w, x] + ([y, z] + rest);
    DigitsTwo(w, x, [y, z] + rest);
    DigitsTwo(y, z, rest);
  }

  /**
   The text is the quantum of the first three bytes and the text of the rest; one or
   two bytes at the end are filled up with zeros, and '=' stands for the letters that
   hold nothing else.
   */
  lemma EncodeByQuanta(bs: seq<byte>)
    ensures Encode([]) == ""
    ensures |bs| == 1 ==> Encode(bs) == Quantum(bs[0], 0, 0)[..2] + "=="
    ensures |bs| == 2 ==> Encode(bs) == Quantum(bs[0], bs[1], 0)[..3] + "="
    ensures |bs| >= 3 ==> Encode(bs) == Quantum(bs[0], bs[1], bs[2]) + Encode(bs[3..])
  {
    if |bs| == 1 {
      EncodeOne(bs);
    } else if |bs| == 2 {
      EncodeTwo(bs);
    } else if |bs| >= 3 {
      EncodeThree(bs);
    }
  }

  lemma SextetsOfOne(bs: seq<byte>) returns (w: sextet, x: sextet)
    requires |bs| == 1
    ensures Split(bs) == [w, x] && Quantum(bs[0], 0, 0)[..2] == [Digit(w), Digit(x)]
  {
    w, x := Sextet0(bs[0]), Sextet1(bs[0], 0);
    QuantumExact(bs[0], 0, 0);
  }

  lemma LettersOfOne(bs: seq<byte>)
    requires |bs| == 1
    ensures Digits(Split(bs)) == Quantum(bs[0], 0, 0)[..2]
  {
    var w, x := SextetsOfOne(bs);
    DigitsPair(w, x);
  }

  lemma EncodeOne(bs: seq<byte>)
    requires |bs| == 1
    ensures Encode(bs) == Quantum(bs[0], 0, 0)[..2] + "=="
  {
    LettersOfOne(bs);
  }

  lemma EncodeTwo(bs: seq<byte>)
    requires |bs| == 2
    ensures Encode(bs) == Quantum(bs[0], bs[1], 0)[..3] + "="
  {
    QuantumExact(bs[0], bs[1], 0);
    DigitsThree(Sextet0(bs[0]), Sextet1(bs[0], bs[1]), Sextet2(bs[1], 0));
  }

  lemma LettersOfThree(bs: seq<byte>)
    requires |bs| >= 3
    ensures Digits(Split(bs)) == Quantum(bs[0], bs[1], bs[2]) + Digits(Split(bs[3..]))
  {
    QuantumExact(bs[0], bs[1], bs[2]);
    DigitsFour(Sextet0(bs[0]), Sextet1(bs[0], bs[1]), Sextet2(bs[1], bs[2]), Sextet3(bs[2]), Split(bs[3..]));
  }

  lemma EncodeThree(bs: seq<byte>)
    requires |bs| >= 3
    ensures Encode(bs) == Quantum(bs[0], bs[1], bs[2]) + Encode(bs[3..])
  {
    LettersOfThree(bs);
    PaddingRepeats(|bs|);
  }

  // ------------------------------------------- lenient reading

  /** What one character is read as, before what follows it. */
  lemma SextetsCons(c: char, rest: string)
    ensures Sextets([c] + rest) ==
              if c == '=' then [] else (if Value(c).Some? then [Value(c).value] else []) + Sextets(rest)
  {
    assert ([c] + rest)[1..] == rest;
  }

  lemma {:induction false} SextetsConcat(a: string, b: string)
    ensures Sextets(a + b) == if '=' in a then Sextets(a) else Sextets(a) + Sextets(b)
  {
    if a == [] {
      assert a + b == b;
    } else {
      assert a == [a[0]] + a[1..];
      assert a + b == [a[0]] + (a[1..] + b);
      SextetsConcat(a[1..], b);
      SextetsCons(a[0], a[1..]);
      SextetsCons(a[0], a[1..] + b);
    }
  }

  lemma ValueExact(c: char)
    ensures Value(c) == None <==> c !in ALPHABET + "-_"
  {
    if Value(c).Some? && c != '-' && c != '_' {
      DigitsAreTheAlphabet(Value(c).value);
      assert c in ALPHABET;
    }
    if c in ALPHABET {
      var v :| 0 <= v < 64 && ALPHABET[v] == c;
      DigitsAreTheAlphabet(v);
      DigitValue(v);
    }
  }

  /**
   Nothing from the first '=' on is read, '-' and '_' are read as '+' and '/', and a
   character of neither alphabet is passed over.
   */
  lemma ReadsLeniently(a: string, c: char, b: string)
    ensures Decode(a + ['='] + b) == Decode(a)
    ensures Decode(a + ['-'] + b) == Decode(a + ['+'] + b) && Decode(a + ['_'] + b) == Decode(a + ['/'] + b)
    ensures c !in ALPHABET + "-_=" ==> Decode(a + [c] + b) == Decode(a + b)
  {
    OneMore(a, '=', b);
    OneMore(a, '-', b);
    OneMore(a, '+', b);
    OneMore(a, '_', b);
    OneMore(a, '/', b);
    OneMore(a, c, b);
    SextetsConcat(a, b);
    ValueExact(c);
  }

  lemma OneMore(a: string, c: char, b: string)
    ensures Sextets(a + [c] + b) ==
              if '=' in a then Sextets(a)
              else if c == '=' then Sextets(a)
              else Sextets(a) + (if Value(c).Some? then [Value(c).value] + Sextets(b) else Sextets(b))
  {
    assert a + [c] + b == a + ([c] + b);
    assert ([c] + b)[1..] == b;
    SextetsConcat(a, [c] + b);
  }
}
