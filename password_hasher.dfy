/**
 * The credential verifier of `Services/PasswordHasher.cs`.  `VerifyPassword`
 * looks at the stored value and picks one of four ways to check a password:
 * an ASP.NET-Identity-style tagged binary record, a base64 SHA-256 digest, an
 * MD5 hex digest, or plain text.
 *
 * The cryptographic primitives are foreign library code; they are the fields
 * of a `Crypto` value, typed so that SHA-256 gives 32 bytes and MD5 16.
 */
module PasswordHasher {
  import opened Wrappers
  import opened Text
  import opened Encoding

  type Digest32 = b: Bytes | |b| == 32 witness seq(32, _ => 0)
  type Digest16 = b: Bytes | |b| == 16 witness seq(16, _ => 0)

  /** `KeyDerivationPrf`: the pseudo-random function PBKDF2 iterates. */
  datatype Prf = HmacSha256 | HmacSha512

  /**
   * The library calls: `SHA256.ComputeHash`, `MD5.ComputeHash` and
   * `KeyDerivation.Pbkdf2(password, salt, prf, iterationCount, numBytesRequested)`.
   */
  datatype Crypto = Crypto(
    sha256: Bytes -> Digest32,
    md5: Bytes -> Digest16,
    pbkdf2: (string, Bytes, Prf, int, int) -> Bytes)

  // ---------------------------------------------------------------------------
  // Shape tests
  // ---------------------------------------------------------------------------

  const IdentityPrefix: string := "AQAAAA"

  /** `IsAspNetIdentityHash`: the stored value starts with `AQAAAA`. */
  predicate IsAspNetIdentityHash(hash: string)
  {
    StartsWith(hash, IdentityPrefix)
  }

  /** `IsBase64Hash`: non-empty, a multiple of four long, and `FromBase64String` accepts it. */
  predicate IsBase64Hash(hash: string)
  {
    hash != "" && |hash| % 4 == 0 && Base64Decode(hash).Some?
  }

  /** `IsMd5Hash`: exactly 32 hex digits of either case. */
  predicate IsMd5Hash(hash: string)
  {
    |hash| == 32 && forall i :: 0 <= i < |hash| ==> IsHexDigit(hash[i])
  }

  // ---------------------------------------------------------------------------
  // Hash producers
  // ---------------------------------------------------------------------------

  /** `HashPasswordSha256`: the base64 text of SHA-256 over the UTF-8 bytes. */
  function HashPasswordSha256(c: Crypto, password: string): (r: string)
    ensures |r| == 44
    ensures Base64Decode(r) == Some(c.sha256(Utf8(password)))
    ensures IsBase64Hash(r)
  {
    var digest := c.sha256(Utf8(password));
    DigestText(digest);
    Base64Encode(digest)
  }

  /** The base64 text of a 32-byte digest has 44 characters and decodes back to the digest. */
  lemma DigestText(d: Bytes)
    requires |d| == 32
    ensures |Base64Encode(d)| == 44
    ensures Base64Decode(Base64Encode(d)) == Some(d)
  {
    Base64RoundTrip(d);
    QuantaForIsCeiling(|d|);
  }

  /** `HashPasswordMd5`: MD5 over the UTF-8 bytes as 32 lower-case hex digits. */
  function HashPasswordMd5(c: Crypto, password: string): (r: string)
    ensures |r| == 32
    ensures forall i :: 0 <= i < |r| ==> IsLowerHexDigit(r[i])
    ensures r == ToLower(UpperHex(c.md5(Utf8(password))))
  {
    var digest := c.md5(Utf8(password));
    BitConverterWithoutDashes(digest);
    LowerUpperHexIsLowerHex(digest);
    ToLower(RemoveChar(BitConverterToString(digest), '-'))
  }

  // ---------------------------------------------------------------------------
  // The tagged binary record
  // ---------------------------------------------------------------------------

  /**
   * The fields the verifier reads from the decoded record, in order: a flags
   * byte after the version byte `0x01`, a 32-bit little-endian iteration
   * count, a 32-bit little-endian salt length, the salt, and the expected key.
   */
  datatype IdentityRecord = IdentityRecord(flags: byte, iterCount: int, salt: Bytes, expected: Bytes)

  /** The layout the verifier reads, at fixed offsets. `None` is every exception it catches. */
  function ParseIdentityRecord(b: Bytes): (r: Option<IdentityRecord>)
    ensures r.Some? ==> 0 <= r.value.iterCount < TwoTo32 && |r.value.salt| < TwoTo31
    ensures r.Some? ==> |b| == 10 + |r.value.salt| + |r.value.expected| && b[0] == 1
  {
    if |b| < 10 || b[0] != 1 then None
    else
      var saltLength := Int32FromUInt32(UInt32FromLittleEndian(b[6..10]));
      if saltLength < 0 || |b| - 10 < saltLength then None
      else Some(IdentityRecord(b[1], UInt32FromLittleEndian(b[2..6]), b[10..10 + saltLength], b[10 + saltLength..]))
  }

  /** The bytes of a record in the layout `ParseIdentityRecord` reads. */
  function SerializeIdentityRecord(r: IdentityRecord): (b: Bytes)
    requires 0 <= r.iterCount < TwoTo32 && |r.salt| < TwoTo31
    ensures |b| == 10 + |r.salt| + |r.expected|
  {
    [1, r.flags] + LittleEndianFromUInt32(r.iterCount) + LittleEndianFromUInt32(|r.salt|) + r.salt + r.expected
  }

  /** Parsing what was serialized gives the record back. */
  lemma IdentityRecordRoundTrip(r: IdentityRecord)
    requires 0 <= r.iterCount < TwoTo32 && |r.salt| < TwoTo31
    ensures ParseIdentityRecord(SerializeIdentityRecord(r)) == Some(r)
  {
    var b := SerializeIdentityRecord(r);
    var n := |r.salt|;
    LittleEndianRoundTrip(r.iterCount);
    LittleEndianRoundTrip(n);
    assert b[2..6] == LittleEndianFromUInt32(r.iterCount);
    assert b[6..10] == LittleEndianFromUInt32(n);
    assert b[10..10 + n] == r.salt;
    assert b[10 + n..] == r.expected;
  }

  /** Every record the verifier accepts is the serialization of what it read. */
  lemma IdentityRecordParsedIsSerialized(b: Bytes, r: IdentityRecord)
    requires ParseIdentityRecord(b) == Some(r)
    ensures SerializeIdentityRecord(r) == b
  {
    var n := |r.salt|;
    LittleEndianOfUInt32(b[6..10]);
    LittleEndianOfUInt32(b[2..6]);
    assert Int32FromUInt32(UInt32FromLittleEndian(b[6..10])) == n;
    assert b == [b[0], b[1]] + b[2..6] + b[6..10] + b[10..10 + n] + b[10 + n..];
  }

  /** `(flags & 1) != 0 ? HMACSHA256 : HMACSHA512`. */
  function PrfOf(flags: byte): (prf: Prf)
    ensures prf == HmacSha256 <==> flags % 2 == 1
  {
    if flags % 2 != 0 then HmacSha256 else HmacSha512
  }

  /**
   * Whether `VerifyAspNetIdentityPassword` answers `true`: the stored value
   * decodes, the record parses, `Pbkdf2` accepts its arguments (it refuses an
   * iteration count or a key length that is not positive, and the iteration
   * count is the unsigned field cast to `int`), and the derived key equals the
   * expected one.
   */
  predicate IdentityMatches(c: Crypto, password: string, storedHash: string)
  {
    match Base64Decode(storedHash)
    case None => false
    case Some(b) =>
      match ParseIdentityRecord(b)
      case None => false
      case Some(r) =>
        var iterations := Int32FromUInt32(r.iterCount);
        iterations > 0 && |r.expected| > 0
        && c.pbkdf2(password, r.salt, PrfOf(r.flags), iterations, |r.expected|) == r.expected
  }

  /**
   * `VerifyAspNetIdentityPassword`: a cursor walks over the decoded bytes, and
   * every out-of-range read or library refusal ends in `false`.
   */
  method VerifyAspNetIdentityPassword(c: Crypto, password: string, storedHash: string) returns (ok: bool)
    ensures ok == IdentityMatches(c, password, storedHash)
  {
    var decoded := Base64Decode(storedHash);
    if decoded.None? {
      return false;
    }
    var bytes := decoded.value;
    if |bytes| == 0 || bytes[0] != 1 {
      return false;
    }
    var offset := 1;
    if |bytes| - offset < 1 {
      return false;
    }
    var flags := bytes[offset];
    offset := offset + 1;
    var prf := if flags % 2 != 0 then HmacSha256 else HmacSha512;
    if |bytes| - offset < 4 {
      return false;
    }
    var iterCount := UInt32FromLittleEndian(bytes[offset..offset + 4]);
    offset := offset + 4;
    if |bytes| - offset < 4 {
      return false;
    }
    var saltLength := Int32FromUInt32(UInt32FromLittleEndian(bytes[offset..offset + 4]));
    offset := offset + 4;
    if saltLength < 0 || |bytes| - offset < saltLength {
      return false;
    }
    var salt := bytes[offset..offset + saltLength];
    offset := offset + saltLength;
    var expected := bytes[offset..];
    var iterations := Int32FromUInt32(iterCount);
    if iterations <= 0 || |expected| == 0 {
      return false;
    }
    var actual := c.pbkdf2(password, salt, prf, iterations, |expected|);
    ok := actual == expected;
  }

  // ---------------------------------------------------------------------------
  // The digest checks
  // ---------------------------------------------------------------------------

  /** `VerifySha256Password`: the SHA-256 text of the password equals the stored text exactly. */
  predicate VerifySha256Password(c: Crypto, password: string, storedHash: string)
  {
    HashPasswordSha256(c, password) == storedHash
  }

  /** `VerifyMd5Password`: the MD5 hex of the password equals the stored text lower-cased. */
  predicate VerifyMd5Password(c: Crypto, password: string, md5Hash: string)
  {
    HashPasswordMd5(c, password) == ToLower(md5Hash)
  }

  // ---------------------------------------------------------------------------
  // Dispatch
  // ---------------------------------------------------------------------------

  /** The branch `VerifyPassword` takes. */
  datatype HashFormat = Unusable | AspNetIdentity | Sha256Base64 | Md5Hex | PlainText

  /** The branch chosen for a password and a stored value, in the order the tests run. */
  function FormatOf(password: string, storedHash: string): HashFormat
  {
    if password == "" || storedHash == "" then Unusable
    else if IsAspNetIdentityHash(storedHash) then AspNetIdentity
    else if IsBase64Hash(storedHash) then Sha256Base64
    else if IsMd5Hash(storedHash) then Md5Hex
    else PlainText
  }

  /** `VerifyPassword`: the check of the branch `FormatOf` chooses. */
  predicate VerifyPassword(c: Crypto, password: string, storedHash: string)
  {
    match FormatOf(password, storedHash)
    case Unusable => false
    case AspNetIdentity => IdentityMatches(c, password, storedHash)
    case Sha256Base64 => VerifySha256Password(c, password, storedHash)
    case Md5Hex => VerifyMd5Password(c, password, storedHash)
    case PlainText => password == storedHash
  }

  // ---------------------------------------------------------------------------
  // Properties of the dispatch
  // ---------------------------------------------------------------------------

  /** An empty password or an empty stored value never verifies. */
  lemma EmptyNeverVerifies(c: Crypto, password: string, storedHash: string)
    requires password == "" || storedHash == ""
    ensures !VerifyPassword(c, password, storedHash)
  {
  }

  /** The plain-text branch is exact, case-sensitive equality. */
  lemma PlainTextIsExact(c: Crypto, password: string, storedHash: string)
    requires FormatOf(password, storedHash) == PlainText
    ensures VerifyPassword(c, password, storedHash) <==> password == storedHash
    ensures password != "" && storedHash != ""
  {
  }

  /** Text made only of alphabet letters, in whole quanta, passes the base64 shape test. */
  lemma AlphabetTextIsBase64Hash(s: string)
    requires s != "" && |s| % 4 == 0
    requires forall i :: 0 <= i < |s| ==> IsBase64Char(s[i])
    ensures IsBase64Hash(s)
  {
    StripSpacesNoop(s);
    AlphabetQuantaDecode(s);
  }

  /** Every 32-digit hex string also passes the base64 shape test. */
  lemma Md5ShapeIsBase64Shape(s: string)
    requires IsMd5Hash(s)
    ensures IsBase64Hash(s)
  {
    AlphabetTextIsBase64Hash(s);
  }

  /** So the MD5 branch is never taken. */
  lemma Md5BranchUnreachable(password: string, storedHash: string)
    ensures FormatOf(password, storedHash) != Md5Hex
  {
    if IsMd5Hash(storedHash) {
      Md5ShapeIsBase64Shape(storedHash);
    }
  }

  /**
   * A base64-shaped stored value without the `AQAAAA` prefix is checked
   * against a SHA-256 text, which is 44 letters long: any other length fails
   * for every password.
   */
  lemma Base64ShapeNeeds44(c: Crypto, password: string, storedHash: string)
    requires !IsAspNetIdentityHash(storedHash) && IsBase64Hash(storedHash)
    requires |storedHash| != 44
    ensures !VerifyPassword(c, password, storedHash)
  {
  }

  /** An MD5 text of a lower-case hex digit never begins with `AQAAAA`. */
  lemma LowerHexIsNotIdentity(s: string)
    requires |s| > 0 && IsLowerHexDigit(s[0])
    ensures !IsAspNetIdentityHash(s)
  {
    assert s[0] != IdentityPrefix[0];
  }

  /** A password stored as its MD5 text never verifies. */
  lemma Md5RoundTripFails(c: Crypto, password: string)
    ensures !VerifyPassword(c, password, HashPasswordMd5(c, password))
  {
    var h := HashPasswordMd5(c, password);
    LowerHexIsNotIdentity(h);
    Md5ShapeIsBase64Shape(h);
    Base64ShapeNeeds44(c, password, h);
  }

  /** A password stored as its SHA-256 text verifies, unless that text happens to start with `AQAAAA`. */
  lemma Sha256RoundTrip(c: Crypto, password: string)
    requires password != ""
    requires !IsAspNetIdentityHash(HashPasswordSha256(c, password))
    ensures VerifyPassword(c, password, HashPasswordSha256(c, password))
  {
  }

  /** A password registered verbatim as eight base64 letters does not verify against itself. */
  lemma VerbatimPasswordRejected(c: Crypto)
    ensures !VerifyPassword(c, "abcdefgh", "abcdefgh")
  {
    var s := "abcdefgh";
    AlphabetTextIsBase64Hash(s);
    assert !IsAspNetIdentityHash(s) by {
      assert s[..6] != IdentityPrefix by { assert s[0] != IdentityPrefix[0]; }
    }
    Base64ShapeNeeds44(c, s, s);
  }

  /**
   * Every stored value that reaches the tagged branch and decodes starts with
   * the bytes `01 00 00 00`: the version test passes, the flags are zero, and
   * HMAC-SHA512 is always the function chosen.
   */
  lemma IdentityBranchAlwaysSha512(storedHash: string, b: Bytes)
    requires IsAspNetIdentityHash(storedHash)
    requires Base64Decode(storedHash) == Some(b)
    ensures |b| >= 4 && b[0] == 1 && b[1] == 0 && b[2] == 0 && b[3] == 0
    ensures forall r :: ParseIdentityRecord(b) == Some(r) ==> r.flags == 0 && PrfOf(r.flags) == HmacSha512
  {
    PrefixAQAAAADecodes(storedHash, b);
  }

  /** A stored value beginning `AQAAAA` is judged by the tagged record alone. */
  lemma IdentityBranchTakesPrecedence(c: Crypto, password: string, storedHash: string)
    requires password != "" && IsAspNetIdentityHash(storedHash)
    ensures VerifyPassword(c, password, storedHash) <==> IdentityMatches(c, password, storedHash)
    ensures storedHash != ""
  {
  }

  // ---------------------------------------------------------------------------
  // The dispatch as evidently intended
  // ---------------------------------------------------------------------------

  /**
   * The same four checks with the MD5 test moved ahead of the base64 test and
   * the base64 branch limited to the 44-letter length of a SHA-256 text.
   */
  predicate VerifyPasswordFixed(c: Crypto, password: string, storedHash: string)
  {
    if password == "" || storedHash == "" then false
    else if IsAspNetIdentityHash(storedHash) then IdentityMatches(c, password, storedHash)
    else if IsMd5Hash(storedHash) then VerifyMd5Password(c, password, storedHash)
    else if |storedHash| == 44 && IsBase64Hash(storedHash) then VerifySha256Password(c, password, storedHash)
    else password == storedHash
  }

  /** Lower-casing changes nothing in text without upper-case letters. */
  lemma {:induction false} ToLowerNoop(s: string)
    requires forall i :: 0 <= i < |s| ==> !IsUpperLetter(s[i])
    ensures ToLower(s) == s
  {
    if s != [] {
      ToLowerNoop(s[1..]);
      assert ToLower(s) == [LowerChar(s[0])] + ToLower(s[1..]);
    }
  }

  /** With the corrected order a password stored as its MD5 text verifies. */
  lemma FixedMd5RoundTrip(c: Crypto, password: string)
    requires password != ""
    ensures VerifyPasswordFixed(c, password, HashPasswordMd5(c, password))
  {
    var h := HashPasswordMd5(c, password);
    LowerHexIsNotIdentity(h);
    ToLowerNoop(h);
  }

  /** With the corrected order a password stored as its SHA-256 text still verifies, unless it starts `AQAAAA`. */
  lemma FixedSha256RoundTrip(c: Crypto, password: string)
    requires password != ""
    requires !IsAspNetIdentityHash(HashPasswordSha256(c, password))
    ensures VerifyPasswordFixed(c, password, HashPasswordSha256(c, password))
  {
  }

  /**
   * With the corrected order a password stored verbatim verifies unless it is
   * itself shaped like one of the hashes: eight base64 letters now pass.
   */
  lemma FixedPlainTextRoundTrip(c: Crypto, password: string)
    requires password != ""
    requires !IsAspNetIdentityHash(password) && !IsMd5Hash(password) && |password| != 44
    ensures VerifyPasswordFixed(c, password, password)
    ensures VerifyPasswordFixed(c, "abcdefgh", "abcdefgh")
  {
    var s := "abcdefgh";
    assert !IsAspNetIdentityHash(s) by {
      assert s[..6] != IdentityPrefix by { assert s[0] != IdentityPrefix[0]; }
    }
  }
}
