/**
 * Base64 as `btoa` and `atob` apply it: encoding with the standard alphabet and `=`
 * padding (section 4 of RFC 4648), and the lenient decoding `atob` performs (ASCII
 * white space dropped, padding optional, stray low bits of the last character ignored).
 */
module Base64 {
  import opened Wrappers
  import Text
  import Seqs

  type byte = b: int | 0 <= b < 256
  type Sextet = v: int | 0 <= v < 64

  predicate IsBase64Char(c: char) {
    Text.IsAsciiUpper(c) || Text.IsAsciiLower(c) || Text.IsDigit(c) || c == '+' || c == '/'
  }

  /** The value `c` stands for in the standard alphabet. */
  function ValueOf(c: char): Sextet
    requires IsBase64Char(c)
  {
    if Text.IsAsciiUpper(c) then c as int - 'A' as int
    else if Text.IsAsciiLower(c) then c as int - 'a' as int + 26
    else if Text.IsDigit(c) then c as int - '0' as int + 52
    else if c == '+' then 62
    else 63
  }

  /** The character of the standard alphabet (table 1 of RFC 4648) for value `v`. */
  function CharOf(v: Sextet): (c: char)
    ensures IsBase64Char(c) && ValueOf(c) == v
    ensures c != '='
  {
    if v < 26 then ('A' as int + v) as char
    else if v < 52 then ('a' as int + v - 26) as char
    else if v < 62 then ('0' as int + v - 52) as char
    else if v == 62 then '+'
    else '/'
  }

  /** Three bytes as four characters: each character carries six of the 24 bits. */
  function EncodeGroup(b0: byte, b1: byte, b2: byte): (s: string)
    ensures |s| == 4 && forall i :: 0 <= i < 4 ==> IsBase64Char(s[i])
  {
    [CharOf(b0 / 4), CharOf((b0 % 4) * 16 + b1 / 16), CharOf((b1 % 16) * 4 + b2 / 64), CharOf(b2 % 64)]
  }

  /** One last byte as two characters; the low four bits of the second are zero. */
  function EncodeTail1(b0: byte): (s: string)
    ensures |s| == 2 && IsBase64Char(s[0]) && IsBase64Char(s[1])
  {
    [CharOf(b0 / 4), CharOf((b0 % 4) * 16)]
  }

  /** Two last bytes as three characters; the low two bits of the third are zero. */
  function EncodeTail2(b0: byte, b1: byte): (s: string)
    ensures |s| == 3 && IsBase64Char(s[0]) && IsBase64Char(s[1]) && IsBase64Char(s[2])
  {
    [CharOf(b0 / 4), CharOf((b0 % 4) * 16 + b1 / 16), CharOf((b1 % 16) * 4)]
  }

  /** The encoding of `b` without its trailing `=` characters. */
  function EncodeUnpadded(b: seq<byte>): (s: string)
    ensures |s| % 4 == (if |b| % 3 == 0 then 0 else |b| % 3 + 1)
    ensures forall i :: 0 <= i < |s| ==> IsBase64Char(s[i])
    decreases |b|
  {
    if |b| == 0 then ""
    else if |b| == 1 then EncodeTail1(b[0])
    else if |b| == 2 then EncodeTail2(b[0], b[1])
    else
      var rest := EncodeUnpadded(b[3..]);
      LengthStep(|b[3..]|, |rest|);
      EncodeGroup(b[0], b[1], b[2]) + rest
  }

  /** Three more bytes and four more characters keep the length relation. */
  lemma LengthStep(n: nat, m: nat)
    requires m % 4 == (if n % 3 == 0 then 0 else n % 3 + 1)
    ensures (m + 4) % 4 == (if (n + 3) % 3 == 0 then 0 else (n + 3) % 3 + 1)
  {
  }

  /** Four characters for every three bytes, rounded up. */
  lemma {:induction false} EncodedLength(b: seq<byte>)
    ensures |EncodeUnpadded(b)| == (4 * |b| + 2) / 3
    decreases |b|
  {
    if |b| >= 3 {
      EncodedLength(b[3..]);
      assert |EncodeUnpadded(b)| == 4 + |EncodeUnpadded(b[3..])|;
    }
  }

  /** The `=` characters that complete the last group of four. */
  function Padding(n: nat): string {
    if n % 3 == 1 then "==" else if n % 3 == 2 then "=" else ""
  }

  /** `btoa` of the bytes `b`: groups of four characters, `=`-padded. */
  function Encode(b: seq<byte>): (s: string)
    ensures |s| % 4 == 0
  {
    EncodeUnpadded(b) + Padding(|b|)
  }

  /** The white space `atob` skips: TAB, LF, FF, CR and SPACE. */
  predicate IsAsciiWhitespace(c: char) {
    c == '\t' || c == '\n' || c as int == 0x0C || c == '\r' || c == ' '
  }

  /** When the length is a multiple of four, one or two trailing `=` are dropped. */
  function StripPadding(s: string): string {
    if |s| % 4 == 0 && |s| >= 2 && s[|s| - 1] == '=' && s[|s| - 2] == '=' then s[..|s| - 2]
    else if |s| % 4 == 0 && |s| >= 1 && s[|s| - 1] == '=' then s[..|s| - 1]
    else s
  }

  /** Four characters as three bytes. */
  function DecodeGroup(s: string): (b: seq<byte>)
    requires |s| == 4 && forall i :: 0 <= i < 4 ==> IsBase64Char(s[i])
    ensures |b| == 3
  {
    [ValueOf(s[0]) * 4 + ValueOf(s[1]) / 16, (ValueOf(s[1]) % 16) * 16 + ValueOf(s[2]) / 4,
     (ValueOf(s[2]) % 4) * 64 + ValueOf(s[3])]
  }

  /**
   * Characters to bytes, four characters to three bytes; a final two or three characters
   * give one or two bytes, whatever their unused low bits hold (the decoder reads them
   * as if the group were completed with `A`s and keeps the whole bytes).
   */
  function DecodeUnpadded(s: string): (b: seq<byte>)
    requires forall i :: 0 <= i < |s| ==> IsBase64Char(s[i])
    requires |s| % 4 != 1
    decreases |s|
  {
    if |s| == 0 then []
    else if |s| == 2 then [ValueOf(s[0]) * 4 + ValueOf(s[1]) / 16]
    else if |s| == 3 then [ValueOf(s[0]) * 4 + ValueOf(s[1]) / 16, (ValueOf(s[1]) % 16) * 16 + ValueOf(s[2]) / 4]
    else DecodeGroup(s[..4]) + DecodeUnpadded(s[4..])
  }

  /** `atob`: `None` where `atob` throws. */
  function Decode(s: string): (r: Option<seq<byte>>)
    ensures r.Some? ==> |r.value| <= |s|
  {
    var t := StripPadding(Seqs.Filter(s, c => !IsAsciiWhitespace(c)));
    if |t| % 4 == 1 || exists i :: 0 <= i < |t| && !IsBase64Char(t[i]) then None
    else
      DecodeLength(t);
      Some(DecodeUnpadded(t))
  }

  lemma {:induction false} DecodeLength(s: string)
    requires forall i :: 0 <= i < |s| ==> IsBase64Char(s[i])
    requires |s| % 4 != 1
    ensures |DecodeUnpadded(s)| <= |s|
    decreases |s|
  {
    if |s| >= 4 {
      DecodeLength(s[4..]);
    }
  }

  /** The arithmetic of one group: the four sextets of three bytes give the three bytes back. */
  lemma SextetArithmetic(b0: byte, b1: byte, b2: byte, c0: int, c1: int, c2: int, c3: int)
    requires c0 == b0 / 4 && c1 == (b0 % 4) * 16 + b1 / 16
    requires c2 == (b1 % 16) * 4 + b2 / 64 && c3 == b2 % 64
    ensures c0 * 4 + c1 / 16 == b0 && (c1 % 16) * 16 + c2 / 4 == b1 && (c2 % 4) * 64 + c3 == b2
  {
  }

  /** Decoding the four characters of a group gives its three bytes back. */
  lemma GroupRoundTrip(b0: byte, b1: byte, b2: byte)
    ensures DecodeGroup(EncodeGroup(b0, b1, b2)) == [b0, b1, b2]
  {
    var c0, c1, c2, c3 := b0 / 4, (b0 % 4) * 16 + b1 / 16, (b1 % 16) * 4 + b2 / 64, b2 % 64;
    var s := EncodeGroup(b0, b1, b2);
    assert ValueOf(s[0]) == c0 && ValueOf(s[1]) == c1 && ValueOf(s[2]) == c2 && ValueOf(s[3]) == c3;
    SextetArithmetic(b0, b1, b2, c0, c1, c2, c3);
  }

  /** A last single byte decodes back from its two characters. */
  lemma Tail1RoundTrip(b0: byte)
    ensures DecodeUnpadded(EncodeTail1(b0)) == [b0]
  {
    SextetArithmetic(b0, 0, 0, b0 / 4, (b0 % 4) * 16, 0, 0);
  }

  /** Two last bytes decode back from their three characters. */
  lemma Tail2RoundTrip(b0: byte, b1: byte)
    ensures DecodeUnpadded(EncodeTail2(b0, b1)) == [b0, b1]
  {
    SextetArithmetic(b0, b1, 0, b0 / 4, (b0 % 4) * 16 + b1 / 16, (b1 % 16) * 4, 0);
  }

  /** One full group: if the rest decodes back, so does the whole. */
  lemma GroupStep(b: seq<byte>)
    requires |b| >= 3
    requires DecodeUnpadded(EncodeUnpadded(b[3..])) == b[3..]
    ensures DecodeUnpadded(EncodeUnpadded(b)) == b
  {
    var g := EncodeGroup(b[0], b[1], b[2]);
    var rest := EncodeUnpadded(b[3..]);
    assert EncodeUnpadded(b) == g + rest;
    DecodeFirstGroup(g, rest);
    GroupRoundTrip(b[0], b[1], b[2]);
    SplitAfterGroup(b);
  }

  /** A byte string of three or more is its first three bytes followed by the rest. */
  lemma SplitAfterGroup(b: seq<byte>)
    requires |b| >= 3
    ensures b == [b[0], b[1], b[2]] + b[3..]
  {
  }

  /** A full group in front decodes on its own. */
  lemma DecodeFirstGroup(g: string, rest: string)
    requires |g| == 4 && forall i :: 0 <= i < 4 ==> IsBase64Char(g[i])
    requires forall i :: 0 <= i < |rest| ==> IsBase64Char(rest[i])
    requires |rest| % 4 != 1
    ensures forall i :: 0 <= i < |g + rest| ==> IsBase64Char((g + rest)[i])
    ensures DecodeUnpadded(g + rest) == DecodeGroup(g) + DecodeUnpadded(rest)
  {
    var s := g + rest;
    assert s[..4] == g && s[4..] == rest;
  }

  /** Decoding undoes encoding, group by group. */
  lemma {:induction false} UnpaddedRoundTrip(b: seq<byte>)
    ensures DecodeUnpadded(EncodeUnpadded(b)) == b
    decreases |b|
  {
    if |b| == 1 {
      Tail1RoundTrip(b[0]);
      assert b == [b[0]];
    } else if |b| == 2 {
      Tail2RoundTrip(b[0], b[1]);
      assert b == [b[0], b[1]];
    } else if |b| >= 3 {
      UnpaddedRoundTrip(b[3..]);
      GroupStep(b);
    }
  }

  /** Stripping the padding of an encoding leaves its unpadded part. */
  lemma StripEncoding(b: seq<byte>)
    ensures StripPadding(Encode(b)) == EncodeUnpadded(b)
  {
    var u := EncodeUnpadded(b);
    var s := Encode(b);
    if |b| % 3 == 0 {
      assert s == u;
      assert |u| >= 1 ==> IsBase64Char(u[|u| - 1]);
    } else if |b| % 3 == 1 {
      assert s == u + "==";
      assert s[..|s| - 2] == u;
    } else {
      assert s == u + "=";
      assert IsBase64Char(u[|u| - 1]);
      assert s[..|s| - 1] == u;
    }
  }

  /** `atob(btoa(b)) == b` for every byte string `b`. */
  lemma DecodeEncode(b: seq<byte>)
    ensures Decode(Encode(b)) == Some(b)
  {
    var s := Encode(b);
    assert forall i :: 0 <= i < |s| ==> !IsAsciiWhitespace(s[i]) by {
      assert forall i :: 0 <= i < |s| ==> s[i] == '=' || IsBase64Char(s[i]);
    }
    Seqs.FilterAll(s, c => !IsAsciiWhitespace(c));
    StripEncoding(b);
    UnpaddedRoundTrip(b);
  }

  /** `atob` also accepts the encoding with its padding left off. */
  lemma DecodeUnpaddedText(b: seq<byte>)
    ensures Decode(EncodeUnpadded(b)) == Some(b)
  {
    var s := EncodeUnpadded(b);
    Seqs.FilterAll(s, c => !IsAsciiWhitespace(c));
    assert |s| >= 1 ==> IsBase64Char(s[|s| - 1]);
    assert StripPadding(s) == s;
    UnpaddedRoundTrip(b);
  }
}
