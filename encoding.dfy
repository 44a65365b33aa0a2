/**
 * Byte-level encodings the credential verifier leans on: base64 as section 4
 * of RFC 4648 defines it (with .NET's `Convert.FromBase64String` and
 * `Convert.ToBase64String` conventions), `BitConverter` hex text and
 * little-endian 32-bit integers, and UTF-8.
 */
module Encoding {
  import opened Wrappers
  import opened Text

  type byte = x: int | 0 <= x < 256
  type Bytes = seq<byte>

  const TwoTo32: int := 0x1_0000_0000
  const TwoTo31: int := 0x8000_0000

  // ---------------------------------------------------------------------------
  // Base64: section 4 of RFC 4648
  // ---------------------------------------------------------------------------

  /** A character of the 64-letter alphabet (not the pad character). */
  predicate IsBase64Char(c: char)
  {
    ('A' <= c <= 'Z') || ('a' <= c <= 'z') || ('0' <= c <= '9') || c == '+' || c == '/'
  }

  /** The 6-bit value a letter of the alphabet stands for. */
  function Base64Value(c: char): (v: int)
    requires IsBase64Char(c)
    ensures 0 <= v < 64
  {
    if 'A' <= c <= 'Z' then c as int - 'A' as int
    else if 'a' <= c <= 'z' then c as int - 'a' as int + 26
    else if '0' <= c <= '9' then c as int - '0' as int + 52
    else if c == '+' then 62
    else 63
  }

  /** The letter of the alphabet that stands for a 6-bit value. */
  function Base64Digit(v: int): (c: char)
    requires 0 <= v < 64
    ensures IsBase64Char(c)
  {
    if v < 26 then ('A' as int + v) as char
    else if v < 52 then ('a' as int + v - 26) as char
    else if v < 62 then ('0' as int + v - 52) as char
    else if v == 62 then '+'
    else '/'
  }

  /** Value and letter are inverse bijections between 0..63 and the alphabet. */
  lemma Base64DigitValue(v: int, c: char)
    requires 0 <= v < 64 && IsBase64Char(c)
    ensures Base64Value(Base64Digit(v)) == v
    ensures Base64Digit(Base64Value(c)) == c
  {
  }

  /** The characters `Convert.FromBase64String` skips before decoding. */
  predicate IsBase64Space(c: char)
  {
    c == ' ' || c == '\t' || c == '\r' || c == '\n'
  }

  function StripSpaces(s: string): (r: string)
    ensures |r| <= |s|
    ensures forall i :: 0 <= i < |r| ==> !IsBase64Space(r[i])
  {
    if s == [] then []
    else if IsBase64Space(s[0]) then StripSpaces(s[1..])
    else [s[0]] + StripSpaces(s[1..])
  }

  lemma {:induction false} StripSpacesAppend(a: string, b: string)
    ensures StripSpaces(a + b) == StripSpaces(a) + StripSpaces(b)
  {
    if a != [] {
      assert (a + b)[0] == a[0];
      assert (a + b)[1..] == a[1..] + b;
      StripSpacesAppend(a[1..], b);
    } else {
      assert a + b == b;
    }
  }

  lemma {:induction false} StripSpacesNoop(s: string)
    requires forall i :: 0 <= i < |s| ==> !IsBase64Space(s[i])
    ensures StripSpaces(s) == s
  {
    if s != [] {
      StripSpacesNoop(s[1..]);
    }
  }

  /** Three bytes from a complete four-letter quantum. */
  function DecodeQuantum(q: string): (b: Bytes)
    requires |q| == 4 && forall i :: 0 <= i < 4 ==> IsBase64Char(q[i])
    ensures |b| == 3
  {
    var v0, v1, v2, v3 := Base64Value(q[0]), Base64Value(q[1]), Base64Value(q[2]), Base64Value(q[3]);
    [v0 * 4 + v1 / 16, (v1 % 16) * 16 + v2 / 4, (v2 % 4) * 64 + v3]
  }

  predicate IsFullQuantum(q: string)
  {
    |q| == 4 && forall i :: 0 <= i < 4 ==> IsBase64Char(q[i])
  }

  /**
   * The last quantum: four letters give three bytes, `xyz=` two and `xy==` one.
   * Unused low bits of a padded quantum are ignored, as .NET's decoder does.
   */
  function DecodeFinalQuantum(q: string): (r: Option<Bytes>)
    requires |q| == 4
    ensures r.Some? ==> 1 <= |r.value| <= 3
  {
    if IsFullQuantum(q) then Some(DecodeQuantum(q))
    else if IsBase64Char(q[0]) && IsBase64Char(q[1]) && IsBase64Char(q[2]) && q[3] == '=' then
      var v0, v1, v2 := Base64Value(q[0]), Base64Value(q[1]), Base64Value(q[2]);
      Some([v0 * 4 + v1 / 16, (v1 % 16) * 16 + v2 / 4])
    else if IsBase64Char(q[0]) && IsBase64Char(q[1]) && q[2] == '=' && q[3] == '=' then
      var v0, v1 := Base64Value(q[0]), Base64Value(q[1]);
      Some([v0 * 4 + v1 / 16])
    else None
  }

  /** Quantum by quantum; only the last one may carry padding. */
  function DecodeQuanta(s: string): Option<Bytes>
    requires |s| % 4 == 0
    decreases |s|
  {
    if s == [] then Some([])
    else if |s| == 4 then DecodeFinalQuantum(s)
    else if !IsFullQuantum(s[..4]) then None
    else match DecodeQuanta(s[4..])
      case None => None
      case Some(rest) => Some(DecodeQuantum(s[..4]) + rest)
  }

  /**
   * `Convert.FromBase64String`: the spaces it tolerates are dropped, what is
   * left must be whole quanta; `None` is the `FormatException` it throws.
   */
  function Base64Decode(s: string): Option<Bytes>
  {
    var t := StripSpaces(s);
    if |t| % 4 != 0 then None else DecodeQuanta(t)
  }

  function EncodeTriple(b: Bytes): (q: string)
    requires |b| == 3
    ensures IsFullQuantum(q)
  {
    [Base64Digit(b[0] / 4), Base64Digit((b[0] % 4) * 16 + b[1] / 16),
     Base64Digit((b[1] % 16) * 4 + b[2] / 64), Base64Digit(b[2] % 64)]
  }

  /** The padded last quantum for one or two leftover bytes. */
  function EncodeTail(b: Bytes): (q: string)
    requires 1 <= |b| <= 2
    ensures |q| == 4
  {
    if |b| == 1 then
      [Base64Digit(b[0] / 4), Base64Digit((b[0] % 4) * 16), '=', '=']
    else
      [Base64Digit(b[0] / 4), Base64Digit((b[0] % 4) * 16 + b[1] / 16), Base64Digit((b[1] % 16) * 4), '=']
  }

  /** The number of quanta `n` bytes take: one per three bytes, the last one possibly short. */
  function QuantaFor(n: nat): nat
  {
    if n == 0 then 0 else if n <= 3 then 1 else 1 + QuantaFor(n - 3)
  }

  /** The number of quanta is `n / 3` rounded up. */
  lemma {:induction false} QuantaForIsCeiling(n: nat)
    ensures QuantaFor(n) == (n + 2) / 3
  {
    if n > 3 {
      QuantaForIsCeiling(n - 3);
    }
  }

  /** `Convert.ToBase64String`: padded, no line breaks, four letters per quantum. */
  function Base64Encode(b: Bytes): (s: string)
    ensures |s| == 4 * QuantaFor(|b|)
    decreases |b|
  {
    if b == [] then []
    else if |b| < 3 then EncodeTail(b)
    else EncodeTriple(b[..3]) + Base64Encode(b[3..])
  }

  /** Splitting a value into high and low parts and joining them again. */
  lemma SplitJoin(hi: int, lo: int, k: int)
    requires k == 4 || k == 16 || k == 64 || k == 256 || k == 65536 || k == 16777216
    requires 0 <= lo < k
    ensures (hi * k + lo) / k == hi && (hi * k + lo) % k == lo
  {
  }

  lemma QuantumRoundTrip(b: Bytes)
    requires |b| == 3
    ensures DecodeQuantum(EncodeTriple(b)) == b
  {
    var x0, x1, x2, x3 := b[0] / 4, (b[0] % 4) * 16 + b[1] / 16, (b[1] % 16) * 4 + b[2] / 64, b[2] % 64;
    Base64DigitValue(x0, 'A');
    Base64DigitValue(x1, 'A');
    Base64DigitValue(x2, 'A');
    Base64DigitValue(x3, 'A');
    SplitJoin(b[0] % 4, b[1] / 16, 16);
    SplitJoin(b[1] % 16, b[2] / 64, 4);
    var q := EncodeTriple(b);
    assert Base64Value(q[0]) == x0 && Base64Value(q[1]) == x1;
    assert Base64Value(q[2]) == x2 && Base64Value(q[3]) == x3;
    assert x0 * 4 + x1 / 16 == b[0];
    assert (x1 % 16) * 16 + x2 / 4 == b[1];
    assert (x2 % 4) * 64 + x3 == b[2];
  }

  lemma TailRoundTrip(b: Bytes)
    requires 1 <= |b| <= 2
    ensures DecodeFinalQuantum(EncodeTail(b)) == Some(b)
  {
    if |b| == 1 {
      OneByteTailRoundTrip(b);
    } else {
      TwoByteTailRoundTrip(b);
    }
  }

  /** One leftover byte: `xy==` decodes back to it. */
  lemma OneByteTailRoundTrip(b: Bytes)
    requires |b| == 1
    ensures DecodeFinalQuantum(EncodeTail(b)) == Some(b)
  {
    var q := EncodeTail(b);
    var x0, x1 := b[0] / 4, (b[0] % 4) * 16;
    Base64DigitValue(x0, 'A');
    Base64DigitValue(x1, 'A');
    SplitJoin(b[0] % 4, 0, 16);
    assert q == [Base64Digit(x0), Base64Digit(x1), '=', '='];
    DoublyPaddedQuantumDecodes(Base64Digit(x0), Base64Digit(x1));
    assert x0 * 4 + x1 / 16 == b[0];
    assert b == [b[0]];
  }

  /** A quantum `xy==` decodes to one byte. */
  lemma DoublyPaddedQuantumDecodes(c0: char, c1: char)
    requires IsBase64Char(c0) && IsBase64Char(c1)
    ensures DecodeFinalQuantum([c0, c1, '=', '=']) == Some([Base64Value(c0) * 4 + Base64Value(c1) / 16])
  {
    assert !IsBase64Char('=');
  }

  /** Two leftover bytes: `xyz=` decodes back to them. */
  lemma TwoByteTailRoundTrip(b: Bytes)
    requires |b| == 2
    ensures DecodeFinalQuantum(EncodeTail(b)) == Some(b)
  {
    var q := EncodeTail(b);
    var x0, x1, x2 := b[0] / 4, (b[0] % 4) * 16 + b[1] / 16, (b[1] % 16) * 4;
    TwoByteDigits(b[0], b[1]);
    Base64DigitValue(x0, 'A');
    Base64DigitValue(x1, 'A');
    Base64DigitValue(x2, 'A');
    assert q == [Base64Digit(x0), Base64Digit(x1), Base64Digit(x2), '='];
    PaddedQuantumDecodes(Base64Digit(x0), Base64Digit(x1), Base64Digit(x2));
    assert b == [b[0], b[1]];
  }

  /** A quantum `xyz=` decodes to two bytes. */
  lemma PaddedQuantumDecodes(c0: char, c1: char, c2: char)
    requires IsBase64Char(c0) && IsBase64Char(c1) && IsBase64Char(c2)
    ensures DecodeFinalQuantum([c0, c1, c2, '='])
            == Some([Base64Value(c0) * 4 + Base64Value(c1) / 16,
                     (Base64Value(c1) % 16) * 16 + Base64Value(c2) / 4])
  {
    assert !IsBase64Char('=');
  }

  /** The three 6-bit digits of two bytes give the bytes back. */
  lemma TwoByteDigits(v0: int, v1: int)
    requires 0 <= v0 < 256 && 0 <= v1 < 256
    ensures 0 <= v0 / 4 < 64 && 0 <= (v0 % 4) * 16 + v1 / 16 < 64 && 0 <= (v1 % 16) * 4 < 64
    ensures (v0 / 4) * 4 + ((v0 % 4) * 16 + v1 / 16) / 16 == v0
    ensures (((v0 % 4) * 16 + v1 / 16) % 16) * 16 + ((v1 % 16) * 4) / 4 == v1
  {
    SplitJoin(v0 % 4, v1 / 16, 16);
    SplitJoin(v1 % 16, 0, 4);
  }

  /** Encoded text holds only alphabet letters and `=`. */
  lemma {:induction false} EncodeHasNoSpaces(b: Bytes)
    ensures forall i :: 0 <= i < |Base64Encode(b)| ==> !IsBase64Space(Base64Encode(b)[i])
    decreases |b|
  {
    if |b| >= 3 {
      EncodeHasNoSpaces(b[3..]);
    }
  }

  lemma {:induction false} DecodeQuantaEncode(b: Bytes)
    ensures DecodeQuanta(Base64Encode(b)) == Some(b)
    decreases |b|
  {
    var s := Base64Encode(b);
    if b == [] {
    } else if |b| < 3 {
      TailRoundTrip(b);
    } else if |b| == 3 {
      QuantumRoundTrip(b);
      assert s == EncodeTriple(b[..3]);
      assert b[..3] == b;
    } else {
      var rest := Base64Encode(b[3..]);
      QuantumRoundTrip(b[..3]);
      DecodeQuantaEncode(b[3..]);
      EncodeQuanta(b[3..]);
      DecodeQuantaCons(EncodeTriple(b[..3]), rest, b[3..]);
      assert b == b[..3] + b[3..];
    }
  }

  /** The encoded text of some bytes is whole, non-empty quanta. */
  lemma EncodeQuanta(b: Bytes)
    requires b != []
    ensures |Base64Encode(b)| >= 4 && |Base64Encode(b)| % 4 == 0
  {
    var k := QuantaFor(|b|);
    assert k >= 1;
    FourTimes(k);
  }

  lemma FourTimes(k: int)
    ensures (4 * k) % 4 == 0
  {
  }

  /** A full quantum in front of decodable quanta decodes to its three bytes in front. */
  lemma DecodeQuantaCons(q: string, rest: string, tail: Bytes)
    requires IsFullQuantum(q) && |rest| % 4 == 0 && rest != []
    requires DecodeQuanta(rest) == Some(tail)
    ensures DecodeQuanta(q + rest) == Some(DecodeQuantum(q) + tail)
  {
    var s := q + rest;
    assert s[..4] == q;
    assert s[4..] == rest;
  }

  /** Decoding what `Base64Encode` produced gives back the bytes. */
  lemma Base64RoundTrip(b: Bytes)
    ensures Base64Decode(Base64Encode(b)) == Some(b)
  {
    var s := Base64Encode(b);
    EncodeHasNoSpaces(b);
    StripSpacesNoop(s);
    assert StripSpaces(s) == s;
    FourTimes(QuantaFor(|b|));
    DecodeQuantaEncode(b);
  }

  /** Whole quanta of alphabet letters, with no padding, always decode. */
  lemma {:induction false} AlphabetQuantaDecode(s: string)
    requires |s| % 4 == 0
    requires forall i :: 0 <= i < |s| ==> IsBase64Char(s[i])
    ensures DecodeQuanta(s).Some?
    decreases |s|
  {
    if |s| > 4 {
      AlphabetQuantaDecode(s[4..]);
    }
  }

  /** A decoded text whose first two letters are `AA` starts with a zero byte. */
  lemma LeadingAADecodesToZero(s: string, b: Bytes)
    requires |s| % 4 == 0 && |s| >= 4 && s[0] == 'A' && s[1] == 'A'
    requires DecodeQuanta(s) == Some(b)
    ensures |b| >= 1 && b[0] == 0
  {
    if |s| > 4 {
      DecodeQuantaHead(s);
    }
  }

  /**
   * Every text beginning `AQAAAA` that decodes yields the bytes `01 00 00 00`
   * first: the quantum `AQAA` is `01 00 00` and the next one starts `AA`.
   */
  lemma PrefixAQAAAADecodes(s: string, b: Bytes)
    requires StartsWith(s, "AQAAAA")
    requires Base64Decode(s) == Some(b)
    ensures |b| >= 4 && b[0] == 1 && b[1] == 0 && b[2] == 0 && b[3] == 0
  {
    StrippedPrefix(s);
    QuantaPrefixAQAAAA(StripSpaces(s), b);
  }

  /** Stripping spaces keeps a leading `AQAAAA`. */
  lemma StrippedPrefix(s: string)
    requires StartsWith(s, "AQAAAA")
    ensures var t := StripSpaces(s);
      |t| >= 6 && t[0] == 'A' && t[1] == 'Q' && t[2] == 'A' && t[3] == 'A' && t[4] == 'A' && t[5] == 'A'
  {
    assert s == s[..6] + s[6..];
    StripSpacesAppend(s[..6], s[6..]);
    StripSpacesNoop(s[..6]);
  }

  /** Quanta beginning `AQAAAA` decode to `01 00 00 00` first. */
  lemma QuantaPrefixAQAAAA(t: string, b: Bytes)
    requires |t| >= 6 && t[0] == 'A' && t[1] == 'Q' && t[2] == 'A' && t[3] == 'A' && t[4] == 'A' && t[5] == 'A'
    requires |t| % 4 == 0 && DecodeQuanta(t) == Some(b)
    ensures |b| >= 4 && b[0] == 1 && b[1] == 0 && b[2] == 0 && b[3] == 0
  {
    assert |t| >= 8;
    DecodeQuantaHead(t);
    assert t[..4] == "AQAA";
    QuantumAQAA();
    LeadingAADecodesToZero(t[4..], DecodeQuanta(t[4..]).value);
  }

  /** `AQAA` is the bytes `01 00 00`. */
  lemma QuantumAQAA()
    ensures IsFullQuantum("AQAA") && DecodeQuantum("AQAA") == [1, 0, 0]
  {
    assert Base64Value('A') == 0 && Base64Value('Q') == 16;
  }

  /** Decodable quanta longer than one quantum decode their first quantum first. */
  lemma DecodeQuantaHead(t: string)
    requires |t| > 4 && |t| % 4 == 0 && DecodeQuanta(t).Some?
    ensures IsFullQuantum(t[..4]) && DecodeQuanta(t[4..]).Some?
    ensures DecodeQuanta(t).value == DecodeQuantum(t[..4]) + DecodeQuanta(t[4..]).value
  {
  }

  // ---------------------------------------------------------------------------
  // BitConverter: hexadecimal text and little-endian integers
  // ---------------------------------------------------------------------------

  predicate IsHexDigit(c: char)
  {
    ('0' <= c <= '9') || ('a' <= c <= 'f') || ('A' <= c <= 'F')
  }

  predicate IsLowerHexDigit(c: char)
  {
    ('0' <= c <= '9') || ('a' <= c <= 'f')
  }

  function UpperHexDigit(n: int): (c: char)
    requires 0 <= n < 16
    ensures ('0' <= c <= '9') || ('A' <= c <= 'F')
  {
    if n < 10 then ('0' as int + n) as char else ('A' as int + n - 10) as char
  }

  /** The two upper-case hex digits `BitConverter` prints for one byte. */
  function HexPair(x: byte): (p: string)
    ensures |p| == 2
  {
    [UpperHexDigit(x / 16), UpperHexDigit(x % 16)]
  }

  function HexPairs(b: Bytes): (ps: seq<string>)
    ensures |ps| == |b|
    ensures forall i :: 0 <= i < |b| ==> ps[i] == HexPair(b[i])
  {
    if b == [] then [] else [HexPair(b[0])] + HexPairs(b[1..])
  }

  /** `BitConverter.ToString(bytes)`: pairs of upper-case hex digits joined by `-`. */
  function BitConverterToString(b: Bytes): string
  {
    Join("-", HexPairs(b))
  }

  /** `s.Replace(c.ToString(), "")`: every occurrence of `c` removed. */
  function RemoveChar(s: string, c: char): (r: string)
    ensures forall i :: 0 <= i < |r| ==> r[i] != c
  {
    if s == [] then []
    else if s[0] == c then RemoveChar(s[1..], c)
    else [s[0]] + RemoveChar(s[1..], c)
  }

  lemma {:induction false} RemoveCharAppend(a: string, b: string, c: char)
    ensures RemoveChar(a + b, c) == RemoveChar(a, c) + RemoveChar(b, c)
  {
    if a != [] {
      assert (a + b)[0] == a[0];
      assert (a + b)[1..] == a[1..] + b;
      RemoveCharAppend(a[1..], b, c);
    } else {
      assert a + b == b;
    }
  }

  lemma {:induction false} RemoveCharNoop(s: string, c: char)
    requires forall i :: 0 <= i < |s| ==> s[i] != c
    ensures RemoveChar(s, c) == s
  {
    if s != [] {
      RemoveCharNoop(s[1..], c);
    }
  }

  /** The hex digits of the bytes, upper case, with no separator. */
  function UpperHex(b: Bytes): (s: string)
    ensures |s| == 2 * |b|
    ensures forall i :: 0 <= i < |s| ==> ('0' <= s[i] <= '9') || ('A' <= s[i] <= 'F')
  {
    if b == [] then [] else HexPair(b[0]) + UpperHex(b[1..])
  }

  /** Removing the dashes from `BitConverter.ToString` leaves the bare hex digits. */
  lemma {:induction false} BitConverterWithoutDashes(b: Bytes)
    ensures RemoveChar(BitConverterToString(b), '-') == UpperHex(b)
    decreases |b|
  {
    if |b| == 1 {
      assert HexPairs(b) == [HexPair(b[0])];
      RemoveCharNoop(HexPair(b[0]), '-');
      assert UpperHex(b) == HexPair(b[0]) + UpperHex([]);
    } else if |b| > 1 {
      var p := HexPair(b[0]);
      assert HexPairs(b)[1..] == HexPairs(b[1..]);
      assert BitConverterToString(b) == p + "-" + BitConverterToString(b[1..]);
      RemoveCharAppend(p + "-", BitConverterToString(b[1..]), '-');
      RemoveCharAppend(p, "-", '-');
      RemoveCharNoop(p, '-');
      BitConverterWithoutDashes(b[1..]);
    }
  }

  /** Lower-casing upper-case hex gives lower-case hex digits only. */
  lemma LowerUpperHexIsLowerHex(b: Bytes)
    ensures |ToLower(UpperHex(b))| == 2 * |b|
    ensures forall i :: 0 <= i < 2 * |b| ==> IsLowerHexDigit(ToLower(UpperHex(b))[i])
  {
  }

  /** `BitConverter.ToUInt32` on four bytes in little-endian (host) order. */
  function UInt32FromLittleEndian(b: Bytes): (v: int)
    requires |b| == 4
    ensures 0 <= v < TwoTo32
  {
    b[0] as int + 256 * (b[1] as int) + 65536 * (b[2] as int) + 16777216 * (b[3] as int)
  }

  /** The four little-endian bytes of a 32-bit unsigned value. */
  function LittleEndianFromUInt32(v: int): (b: Bytes)
    requires 0 <= v < TwoTo32
    ensures |b| == 4
  {
    [v % 256, (v / 256) % 256, (v / 65536) % 256, v / 16777216]
  }

  lemma LittleEndianRoundTrip(v: int)
    requires 0 <= v < TwoTo32
    ensures UInt32FromLittleEndian(LittleEndianFromUInt32(v)) == v
  {
    var q1 := v / 256;
    var q2 := q1 / 256;
    var q3 := q2 / 256;
    assert v == 256 * q1 + v % 256;
    assert q1 == 256 * q2 + q1 % 256;
    assert q2 == 256 * q3 + q2 % 256;
    SplitJoin(q2, 256 * (q1 % 256) + v % 256, 65536);
    SplitJoin(q3, 65536 * (q2 % 256) + 256 * (q1 % 256) + v % 256, 16777216);
  }

  /** Four bytes read as an integer and written back are the same bytes. */
  lemma LittleEndianOfUInt32(b: Bytes)
    requires |b| == 4
    ensures LittleEndianFromUInt32(UInt32FromLittleEndian(b)) == b
  {
    var r2 := b[2] as int + 256 * (b[3] as int);
    var r1 := b[1] as int + 256 * r2;
    var v := b[0] as int + 256 * r1;
    assert v == UInt32FromLittleEndian(b);
    SplitJoin(r1, b[0], 256);
    SplitJoin(r2, b[1], 256);
    SplitJoin(b[3], b[2], 256);
    assert v / 65536 == (v / 256) / 256;
    assert v / 16777216 == (v / 65536) / 256;
  }

  /** A 32-bit pattern read as a two's-complement `int` (`BitConverter.ToInt32`, `(int)` casts). */
  function Int32FromUInt32(u: int): (i: int)
    requires 0 <= u < TwoTo32
    ensures -TwoTo31 <= i < TwoTo31
    ensures (i < 0) <==> (u >= TwoTo31)
  {
    if u < TwoTo31 then u else u - TwoTo32
  }

  // ---------------------------------------------------------------------------
  // UTF-8 (`Encoding.UTF8.GetBytes`)
  // ---------------------------------------------------------------------------

  function Utf8Char(c: char): (b: Bytes)
    ensures 1 <= |b| <= 4
  {
    var n := c as int;
    if n < 0x80 then [n]
    else if n < 0x800 then [0xC0 + n / 64, 0x80 + n % 64]
    else if n < 0x10000 then [0xE0 + n / 4096, 0x80 + (n / 64) % 64, 0x80 + n % 64]
    else [0xF0 + n / 262144, 0x80 + (n / 4096) % 64, 0x80 + (n / 64) % 64, 0x80 + n % 64]
  }

  function Utf8(s: string): (b: Bytes)
    ensures |s| <= |b| <= 4 * |s|
  {
    if s == [] then [] else Utf8Char(s[0]) + Utf8(s[1..])
  }
}
