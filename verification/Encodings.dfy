/** Unpadded base64url (section 5 of RFC 4648) and hexadecimal, as Go encodes and decodes them. */
module Encodings {
  import opened Core

  type byte = x: int | 0 <= x < 256

  function Alphabet(v: int): char
    requires 0 <= v < 64
  {
    if v < 26 then ('A' as int + v) as char
    else if v < 52 then ('a' as int + (v - 26)) as char
    else if v < 62 then ('0' as int + (v - 52)) as char
    else if v == 62 then '-' else '_'
  }

  predicate InAlphabet(c: char) {
    'A' <= c <= 'Z' || 'a' <= c <= 'z' || '0' <= c <= '9' || c == '-' || c == '_'
  }

  function Sextet(c: char): (v: int)
    requires InAlphabet(c)
    ensures 0 <= v < 64 && Alphabet(v) == c
  {
    if 'A' <= c <= 'Z' then c as int - 'A' as int
    else if 'a' <= c <= 'z' then c as int - 'a' as int + 26
    else if '0' <= c <= '9' then c as int - '0' as int + 52
    else if c == '-' then 62 else 63
  }

  function Encode64(b: seq<byte>): string {
    if b == [] then ""
    else if |b| == 1 then [Alphabet(b[0] / 4), Alphabet(b[0] % 4 * 16)]
    else if |b| == 2 then
      [Alphabet(b[0] / 4), Alphabet(b[0] % 4 * 16 + b[1] / 16), Alphabet(b[1] % 16 * 4)]
    else
      [Alphabet(b[0] / 4), Alphabet(b[0] % 4 * 16 + b[1] / 16),
       Alphabet(b[1] % 16 * 4 + b[2] / 64), Alphabet(b[2] % 64)] + Encode64(b[3..])
  }

  /** Decodes characters of the alphabet; a lone trailing character is corrupt, and the
      unused low bits of a short last group are ignored. */
  function DecodeChars(s: string): Option<seq<byte>>
    requires forall c :: c in s ==> InAlphabet(c)
  {
    if s == "" then Some([])
    else if |s| == 1 then None
    else
      var v0, v1 := Sextet(s[0]), Sextet(s[1]);
      var b0: byte := v0 * 4 + v1 / 16;
      if |s| == 2 then Some([b0])
      else
        var v2 := Sextet(s[2]);
        var b1: byte := v1 % 16 * 16 + v2 / 4;
        if |s| == 3 then Some([b0, b1])
        else
          var b2: byte := v2 % 4 * 64 + Sextet(s[3]);
          match DecodeChars(s[4..])
          case None => None
          case Some(rest) => Some([b0, b1, b2] + rest)
  }

  /** Line breaks are skipped wherever they occur. */
  function DropLineBreaks(s: string): string {
    if s == "" then ""
    else (if s[0] == '\r' || s[0] == '\n' then "" else [s[0]]) + DropLineBreaks(s[1..])
  }

  function Decode64(s: string): Option<seq<byte>> {
    var t := DropLineBreaks(s);
    if forall c :: c in t ==> InAlphabet(c) then DecodeChars(t) else None
  }

  lemma SextetOfAlphabet(v: int)
    requires 0 <= v < 64
    ensures InAlphabet(Alphabet(v)) && Sextet(Alphabet(v)) == v
  {
  }

  lemma {:induction false} Encode64Chars(b: seq<byte>)
    ensures forall c :: c in Encode64(b) ==> InAlphabet(c)
    ensures Encode64(b) == "" <==> b == []
  {
    if |b| >= 3 {
      Encode64Chars(b[3..]);
    }
  }

  /** The four sextets of three bytes give the bytes back; missing bytes count as zero. */
  lemma Quantum(b0: byte, b1: byte, b2: byte)
    ensures var v0, v1, v2, v3 := b0 / 4, b0 % 4 * 16 + b1 / 16, b1 % 16 * 4 + b2 / 64, b2 % 64;
            && 0 <= v0 < 64 && 0 <= v1 < 64 && 0 <= v2 < 64 && 0 <= v3 < 64
            && v0 * 4 + v1 / 16 == b0 && v1 % 16 * 16 + v2 / 4 == b1 && v2 % 4 * 64 + v3 == b2
  {
  }

  lemma DecodeOne(b0: byte, e: string)
    requires |e| == 2 && e[0] == Alphabet(b0 / 4) && e[1] == Alphabet(b0 % 4 * 16)
    requires forall c :: c in e ==> InAlphabet(c)
    ensures DecodeChars(e) == Some([b0])
  {
    Quantum(b0, 0, 0);
    SextetOfAlphabet(b0 / 4);
    SextetOfAlphabet(b0 % 4 * 16);
  }

  lemma DecodeTwo(b0: byte, b1: byte, e: string)
    requires |e| == 3 && e[0] == Alphabet(b0 / 4) && e[1] == Alphabet(b0 % 4 * 16 + b1 / 16)
    requires e[2] == Alphabet(b1 % 16 * 4)
    requires forall c :: c in e ==> InAlphabet(c)
    ensures DecodeChars(e) == Some([b0, b1])
  {
    Quantum(b0, b1, 0);
    SextetOfAlphabet(b0 / 4);
    SextetOfAlphabet(b0 % 4 * 16 + b1 / 16);
    SextetOfAlphabet(b1 % 16 * 4);
  }

  lemma DecodeThree(b0: byte, b1: byte, b2: byte, e: string, tail: seq<byte>)
    requires |e| >= 4 && forall c :: c in e ==> InAlphabet(c)
    requires e[0] == Alphabet(b0 / 4) && e[1] == Alphabet(b0 % 4 * 16 + b1 / 16)
    requires e[2] == Alphabet(b1 % 16 * 4 + b2 / 64) && e[3] == Alphabet(b2 % 64)
    requires DecodeChars(e[4..]) == Some(tail)
    ensures DecodeChars(e) == Some([b0, b1, b2] + tail)
  {
    Quantum(b0, b1, b2);
    SextetOfAlphabet(b0 / 4);
    SextetOfAlphabet(b0 % 4 * 16 + b1 / 16);
    SextetOfAlphabet(b1 % 16 * 4 + b2 / 64);
    SextetOfAlphabet(b2 % 64);
  }

  lemma {:induction false} DecodeCharsEncode(b: seq<byte>)
    requires forall c :: c in Encode64(b) ==> InAlphabet(c)
    ensures DecodeChars(Encode64(b)) == Some(b)
  {
    if |b| == 1 {
      DecodeOne(b[0], Encode64(b));
      assert b == [b[0]];
    } else if |b| == 2 {
      DecodeTwo(b[0], b[1], Encode64(b));
      assert b == [b[0], b[1]];
    } else if |b| >= 3 {
      assert Encode64(b)[4..] == Encode64(b[3..]);
      Encode64Chars(b[3..]);
      DecodeCharsEncode(b[3..]);
      DecodeThree(b[0], b[1], b[2], Encode64(b), b[3..]);
      assert b == [b[0], b[1], b[2]] + b[3..];
    }
  }

  lemma {:induction false} DropNothing(s: string)
    requires '\r' !in s && '\n' !in s
    ensures DropLineBreaks(s) == s
  {
    if s != "" {
      DropNothing(s[1..]);
      assert [s[0]] + s[1..] == s;
    }
  }

  /** Decoding inverts encoding, for every byte string. */
  lemma Base64RoundTrip(b: seq<byte>)
    ensures Decode64(Encode64(b)) == Some(b)
  {
    Encode64Chars(b);
    DropNothing(Encode64(b));
    DecodeCharsEncode(b);
  }

  function HexDigit(v: int): char
    requires 0 <= v < 16
  {
    if v < 10 then ('0' as int + v) as char else ('a' as int + (v - 10)) as char
  }

  function HexValue(c: char): (r: Option<int>)
    ensures r.Some? ==> 0 <= r.value < 16
  {
    if '0' <= c <= '9' then Some(c as int - '0' as int)
    else if 'a' <= c <= 'f' then Some(c as int - 'a' as int + 10)
    else if 'A' <= c <= 'F' then Some(c as int - 'A' as int + 10)
    else None
  }

  function HexPair(hi: char, lo: char): Option<byte> {
    match (HexValue(hi), HexValue(lo))
    case (Some(h), Some(l)) => Some(h * 16 + l)
    case _ => None
  }

  function EncodeHex(b: seq<byte>): (s: string)
    ensures |s| == 2 * |b|
  {
    if b == [] then "" else [HexDigit(b[0] / 16), HexDigit(b[0] % 16)] + EncodeHex(b[1..])
  }

  function DecodeHex(s: string): (r: Option<seq<byte>>)
    ensures r.Some? ==> |s| == 2 * |r.value|
  {
    if s == "" then Some([])
    else if |s| == 1 then None
    else
      match (HexPair(s[0], s[1]), DecodeHex(s[2..]))
      case (Some(b), Some(rest)) => Some([b] + rest)
      case _ => None
  }

  lemma HexPairRoundTrip(b: byte)
    ensures HexPair(HexDigit(b / 16), HexDigit(b % 16)) == Some(b)
  {
    assert HexValue(HexDigit(b / 16)) == Some(b / 16);
    assert HexValue(HexDigit(b % 16)) == Some(b % 16);
  }

  lemma {:induction false} HexRoundTrip(b: seq<byte>)
    ensures DecodeHex(EncodeHex(b)) == Some(b)
    ensures forall c :: c in EncodeHex(b) ==> HexValue(c).Some?
  {
    if b != [] {
      HexRoundTrip(b[1..]);
      HexPairRoundTrip(b[0]);
      assert EncodeHex(b)[2..] == EncodeHex(b[1..]);
      assert [b[0]] + b[1..] == b;
    }
  }

  lemma {:induction false} EncodeHexConcat(a: seq<byte>, b: seq<byte>)
    ensures EncodeHex(a + b) == EncodeHex(a) + EncodeHex(b)
  {
    if a == [] {
      assert a + b == b;
    } else {
      EncodeHexConcat(a[1..], b);
      assert (a + b)[1..] == a[1..] + b;
      var first := [HexDigit(a[0] / 16), HexDigit(a[0] % 16)];
      assert first + (EncodeHex(a[1..]) + EncodeHex(b)) == (first + EncodeHex(a[1..])) + EncodeHex(b);
    }
  }

  /** The test vectors of section 10 of RFC 4648, without padding, and where the alphabet of its section 5
      differs from the standard one. */
  lemma Base64Vectors()
    ensures Encode64([0x66]) == "Zg" && Encode64([0x66, 0x6f]) == "Zm8" && Encode64([0x66, 0x6f, 0x6f]) == "Zm9v"
    ensures Encode64([0x66, 0x6f, 0x6f, 0x62]) == "Zm9vYg"
    ensures Encode64([0xfb, 0xff, 0xfe]) == "-__-"
  {
    assert [0x66, 0x6f, 0x6f, 0x62][3..] == [0x62];
    assert [0x66, 0x6f, 0x6f][3..] == [];
    assert [0xfb, 0xff, 0xfe][3..] == [];
  }

  lemma HexVector()
    ensures EncodeHex([0x0f, 0xa0]) == "0fa0"
  {
    assert [0x0f, 0xa0][1..] == [0xa0] && [0xa0][1..] == [];
  }

  /** Upper and lower case digits have the same value, and nothing else is a digit. */
  lemma HexDigitsMean(c: char)
    ensures HexValue(c).Some? <==> c in "0123456789abcdefABCDEF"
    ensures forall v: int :: 0 <= v < 16 ==> HexDigit(v) == "0123456789abcdef"[v] && HexValue(HexDigit(v)) == Some(v)
    ensures 'A' <= c <= 'F' ==> HexValue(c) == HexValue((c as int + 32) as char)
  {
  }
}
