/**
 * Password blobs and session tokens. A stored password is the Base64 text of a
 * 16-byte random salt followed by the 32-byte key PBKDF2 derives from the password
 * and that salt; PBKDF2 itself is a parameter, a deterministic function the model
 * does not look inside. A session token is 32 random bytes in URL-safe Base64
 * without padding.
 */
module Crypto {
  import opened Wrappers
  import Base64
  import Text
  import Seqs

  type byte = Base64.byte

  const SaltLength: nat := 16
  const KeyLength: nat := 32
  const TokenBytes: nat := 32

  /** PBKDF2 with SHA-256, 100000 iterations and a 256-bit output, as a plain function. */
  type Kdf = (string, seq<byte>) -> seq<byte>

  /** The derived key always has 32 bytes. */
  ghost predicate KdfOutputsKey(kdf: Kdf) {
    forall p: string, salt: seq<byte> :: |kdf(p, salt)| == KeyLength
  }

  /** `hashPassword`: salt and derived key laid side by side in a buffer, then `btoa`. */
  method HashPassword(password: string, salt: seq<byte>, kdf: Kdf) returns (blob: string)
    requires |salt| == SaltLength && |kdf(password, salt)| == KeyLength
    ensures blob == Base64.Encode(salt + kdf(password, salt))
    ensures |blob| == 64
    ensures VerifyPassword(password, blob, kdf)
  {
    var hash := kdf(password, salt);
    var combined := new byte[|salt| + |hash|];
    var i := 0;
    while i < |salt|
      invariant 0 <= i <= |salt|
      invariant combined[..i] == salt[..i]
    {
      combined[i] := salt[i];
      i := i + 1;
    }
    var j := 0;
    while j < |hash|
      invariant 0 <= j <= |hash|
      invariant combined[..|salt|] == salt
      invariant combined[|salt|..|salt| + j] == hash[..j]
    {
      combined[|salt| + j] := hash[j];
      j := j + 1;
    }
    assert combined[..] == combined[..|salt|] + combined[|salt|..|salt| + |hash|];
    assert hash[..|hash|] == hash;
    assert combined[..] == salt + hash;
    blob := Base64.Encode(combined[..]);
    Base64.EncodedLength(combined[..]);
    HashThenVerify(password, password, salt, hash, kdf);
  }

  /** The first 16 decoded bytes, or all of them when there are fewer. */
  function SaltOf(combined: seq<byte>): (salt: seq<byte>)
    ensures |salt| == if |combined| < SaltLength then |combined| else SaltLength
    ensures Seqs.IsSubsequence(salt, combined) && salt <= combined
  {
    var n := if |combined| < SaltLength then |combined| else SaltLength;
    Seqs.SliceIsSubsequence(combined, 0, n);
    combined[..n]
  }

  /** The decoded bytes after the salt: empty when there are 16 or fewer. */
  function StoredHashOf(combined: seq<byte>): (stored: seq<byte>)
    ensures SaltOf(combined) + stored == combined
  {
    combined[|SaltOf(combined)|..]
  }

  /**
   * `verifyPassword`: derive a key from the candidate password and the stored salt and
   * compare it byte by byte with the stored hash (a missing stored byte never equals a
   * derived one). Text that `atob` rejects gives `false` instead of an exception.
   */
  function VerifyPassword(password: string, blob: string, kdf: Kdf): (ok: bool)
    ensures ok ==> Base64.Decode(blob).Some?
  {
    match Base64.Decode(blob)
    case None => false
    case Some(combined) =>
      EveryByteMatches(kdf(password, SaltOf(combined)), StoredHashOf(combined))
  }

  /** `hash.every((byte, index) => byte === stored[index])`. */
  predicate EveryByteMatches(hash: seq<byte>, stored: seq<byte>) {
    forall i :: 0 <= i < |hash| ==> i < |stored| && hash[i] == stored[i]
  }

  /** The `every` comparison is a prefix test: only the derived key's length is compared. */
  lemma VerifyIsPrefixTest(password: string, blob: string, kdf: Kdf)
    requires Base64.Decode(blob).Some?
    ensures VerifyPassword(password, blob, kdf) <==>
      var combined := Base64.Decode(blob).value;
      kdf(password, SaltOf(combined)) <= StoredHashOf(combined)
  {
    var combined := Base64.Decode(blob).value;
    var hash := kdf(password, SaltOf(combined));
    var stored := StoredHashOf(combined);
    assert VerifyPassword(password, blob, kdf) == EveryByteMatches(hash, stored);
    if |stored| < |hash| {
      var missing := hash[|stored|];
      assert !EveryByteMatches(hash, stored);
    } else if VerifyPassword(password, blob, kdf) {
      assert hash == stored[..|hash|];
    }
  }

  /**
   * Against a blob of salt and stored bytes, a candidate password passes exactly when
   * the key it derives is a prefix of the stored bytes: bytes past the key are ignored,
   * and a stored part shorter than the key fails.
   */
  lemma HashThenVerify(candidate: string, password: string, salt: seq<byte>, stored: seq<byte>, kdf: Kdf)
    requires |salt| == SaltLength
    ensures VerifyPassword(candidate, Base64.Encode(salt + stored), kdf) <==> kdf(candidate, salt) <= stored
  {
    var combined := salt + stored;
    Base64.DecodeEncode(combined);
    assert SaltOf(combined) == salt;
    assert StoredHashOf(combined) == stored;
    VerifyIsPrefixTest(candidate, Base64.Encode(combined), kdf);
  }

  /** A blob made by `HashPassword` accepts exactly the passwords deriving the same key. */
  lemma VerifyHashedPassword(candidate: string, password: string, salt: seq<byte>, kdf: Kdf)
    requires |salt| == SaltLength && KdfOutputsKey(kdf)
    ensures VerifyPassword(candidate, Base64.Encode(salt + kdf(password, salt)), kdf)
            <==> kdf(candidate, salt) == kdf(password, salt)
  {
    HashThenVerify(candidate, password, salt, kdf(password, salt), kdf);
    assert |kdf(candidate, salt)| == |kdf(password, salt)|;
  }

  /** With a 32-byte key, a blob that verifies decodes to at least 48 bytes. */
  lemma VerifiedBlobLength(password: string, blob: string, kdf: Kdf)
    requires KdfOutputsKey(kdf) && VerifyPassword(password, blob, kdf)
    ensures |Base64.Decode(blob).value| >= SaltLength + KeyLength
  {
    var combined := Base64.Decode(blob).value;
    VerifyIsPrefixTest(password, blob, kdf);
    assert |kdf(password, SaltOf(combined))| == KeyLength;
  }

  /** Every occurrence of `from` replaced by `to` (a global `replace`). */
  function ReplaceAll(s: string, from: char, to: char): (r: string)
    ensures |r| == |s|
    ensures forall i :: 0 <= i < |s| ==> r[i] == if s[i] == from then to else s[i]
    ensures from != to ==> from !in r
    ensures forall x :: x in r ==> x == to || (x in s && x != from)
  {
    seq(|s|, i requires 0 <= i < |s| => if s[i] == from then to else s[i])
  }

  /** Every occurrence of `c` removed (a global `replace` with the empty string). */
  function RemoveAll(s: string, c: char): (r: string)
    ensures c !in r && |r| <= |s|
    ensures forall x :: x in r <==> x in s && x != c
  {
    Seqs.FilterIsExact(s, x => x != c);
    Seqs.Filter(s, x => x != c)
  }

  /** `generateSessionToken`: `btoa` of the random bytes, then `-` for `+`, `_` for `/`, no `=`. */
  function SessionToken(random: seq<byte>): (token: string)
    ensures '+' !in token && '/' !in token && '=' !in token
  {
    RemoveAll(ReplaceAll(ReplaceAll(Base64.Encode(random), '+', '-'), '/', '_'), '=')
  }

  /** The URL-safe alphabet of section 5 of RFC 4648: values 62 and 63 become `-` and `_`. */
  function UrlSafeChar(c: char): char {
    if c == '+' then '-' else if c == '/' then '_' else c
  }

  /** Back from the URL-safe alphabet to the standard one. */
  function StandardChar(c: char): char {
    if c == '-' then '+' else if c == '_' then '/' else c
  }

  function MapChars(s: string, f: char -> char): (r: string)
    ensures |r| == |s| && forall i :: 0 <= i < |s| ==> r[i] == f(s[i])
  {
    seq(|s|, i requires 0 <= i < |s| => f(s[i]))
  }

  /** The token is the unpadded encoding of the bytes with the URL-safe alphabet. */
  lemma SessionTokenIsUrlSafeEncoding(random: seq<byte>)
    ensures SessionToken(random) == MapChars(Base64.EncodeUnpadded(random), UrlSafeChar)
  {
    var u := Base64.EncodeUnpadded(random);
    var m := MapChars(u, UrlSafeChar);
    var e := Base64.Encode(random);
    var r := ReplaceAll(ReplaceAll(e, '+', '-'), '/', '_');
    var pad := Base64.Padding(|random|);
    assert r == m + pad;
    assert forall i :: 0 <= i < |m| ==> m[i] != '=';
    assert forall i :: 0 <= i < |pad| ==> pad[i] == '=';
    FilterKeepsPrefixDropsPadding(m, pad);
  }

  lemma {:induction false} FilterKeepsPrefixDropsPadding(m: string, pad: string)
    requires forall i :: 0 <= i < |m| ==> m[i] != '='
    requires forall i :: 0 <= i < |pad| ==> pad[i] == '='
    ensures Seqs.Filter(m + pad, x => x != '=') == m
    decreases |m| + |pad|
  {
    if m != [] {
      assert (m + pad)[1..] == m[1..] + pad;
      FilterKeepsPrefixDropsPadding(m[1..], pad);
    } else if pad != [] {
      assert m + pad == pad;
      FilterKeepsPrefixDropsPadding(m, pad[1..]);
      assert m + pad[1..] == pad[1..];
    }
  }

  /** A token carries its random bytes: mapping back and decoding recovers them. */
  lemma SessionTokenDecodes(random: seq<byte>)
    ensures Base64.Decode(MapChars(SessionToken(random), StandardChar)) == Some(random)
  {
    SessionTokenIsUrlSafeEncoding(random);
    var u := Base64.EncodeUnpadded(random);
    assert MapChars(SessionToken(random), StandardChar) == u;
    Base64.DecodeUnpaddedText(random);
  }

  /** Letters, digits, `-` and `_`: the URL-safe alphabet. */
  predicate IsUrlSafeChar(c: char) {
    Text.IsAsciiUpper(c) || Text.IsAsciiLower(c) || Text.IsDigit(c) || c == '-' || c == '_'
  }

  /** Every character of a token is from the URL-safe alphabet. */
  lemma SessionTokenAlphabet(random: seq<byte>)
    ensures forall i :: 0 <= i < |SessionToken(random)| ==> IsUrlSafeChar(SessionToken(random)[i])
  {
    SessionTokenIsUrlSafeEncoding(random);
  }

  /** Distinct random bytes give distinct tokens. */
  lemma SessionTokenInjective(r1: seq<byte>, r2: seq<byte>)
    requires SessionToken(r1) == SessionToken(r2)
    ensures r1 == r2
  {
    SessionTokenDecodes(r1);
    SessionTokenDecodes(r2);
  }

  /** Thirty-two random bytes give a 43-character token. */
  lemma SessionTokenLength(random: seq<byte>)
    requires |random| == TokenBytes
    ensures |SessionToken(random)| == 43
  {
    SessionTokenIsUrlSafeEncoding(random);
    Base64.EncodedLength(random);
  }

  /**
   * `generateId` draws a random UUID; the model replaces it by a supply of distinct
   * names, the `k`-th of which is `id-k`.
   */
  function FreshId(k: nat): (id: string)
    ensures |id| >= 4 && id[..3] == "id-"
  {
    "id-" + Text.NatToString(k)
  }

  lemma FreshIdInjective(j: nat, k: nat)
    requires FreshId(j) == FreshId(k)
    ensures j == k
  {
    assert FreshId(j)[3..] == Text.NatToString(j);
    assert FreshId(k)[3..] == Text.NatToString(k);
    Text.NatToStringInjective(j, k);
  }
}
