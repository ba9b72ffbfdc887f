/** The string logic of ProductImageStorageService: object keys, public URLs and the
    percent-encoding of a reference (sections 2.1 and 2.3 of RFC 3986). */
module ImageStorage {
  import opened Common
  import Text

  type Byte = b: int | 0 <= b < 256

  /** The bucket and endpoint the service is configured with. */
  datatype StorageConfig = StorageConfig(bucket: string, endpoint: string)

  /** The configuration defaults: bucket `plm-files` at `http://localhost:9000`. */
  const DefaultConfig := StorageConfig("plm-files", "http://localhost:9000")

  /** The unreserved characters of section 2.3 of RFC 3986: ALPHA, DIGIT, "-", ".", "_", "~". */
  predicate IsUnreserved(c: char)
  {
    ('a' <= c <= 'z') || ('A' <= c <= 'Z') || ('0' <= c <= '9')
    || c == '-' || c == '_' || c == '.' || c == '~'
  }

  /** What the encoder copies unchanged. */
  predicate IsKept(c: char)
  {
    IsUnreserved(c) || c == '/'
  }

  /** The UTF-8 bytes `String.valueOf(c).getBytes(UTF_8)` gives for one Java char. A Dafny
      char above U+FFFF is a surrogate pair in Java; each half alone cannot be encoded and
      becomes '?' (0x3F), so the pair gives two of them. */
  function Utf8(c: char): (bs: seq<Byte>)
    ensures 1 <= |bs| <= 3
  {
    var n := c as int;
    if n < 0x80 then [n]
    else if n < 0x800 then [0xC0 + n / 64, 0x80 + n % 64]
    else if n < 0x10000 then [0xE0 + n / 4096, 0x80 + (n / 64) % 64, 0x80 + n % 64]
    else [0x3F, 0x3F]
  }

  const UpperHex := "0123456789ABCDEF"

  /** `%` followed by the byte as two upper-case hex digits (`String.format("%02X", b)`,
      which prints a Java byte as its unsigned value). */
  function PercentByte(b: Byte): string
  {
    ['%', UpperHex[b / 16], UpperHex[b % 16]]
  }

  function PercentBytes(bs: seq<Byte>): (r: string)
    ensures |r| == 3 * |bs|
  {
    if bs == [] then [] else PercentByte(bs[0]) + PercentBytes(bs[1..])
  }

  function EncodeChar(c: char): string
  {
    if IsKept(c) then [c] else PercentBytes(Utf8(c))
  }

  /** The encoding of a whole path, character by character. */
  function Encoded(s: string): string
  {
    if s == [] then [] else EncodeChar(s[0]) + Encoded(s[1..])
  }

  lemma {:induction false} EncodedAppend(a: string, b: string)
    ensures Encoded(a + b) == Encoded(a) + Encoded(b)
  {
    if a != [] {
      assert (a + b)[1..] == a[1..] + b;
      EncodedAppend(a[1..], b);
    } else {
      assert a + b == b;
    }
  }

  lemma EncodedSnoc(s: string, c: char)
    ensures Encoded(s + [c]) == Encoded(s) + EncodeChar(c)
  {
    EncodedAppend(s, [c]);
    assert Encoded([c]) == EncodeChar(c) + Encoded([]);
  }

  /** encodePath: the StringBuilder loop over the path's chars. */
  method EncodePath(path: string) returns (r: string)
    ensures r == Encoded(path)
  {
    r := [];
    var i := 0;
    while i < |path|
      invariant 0 <= i <= |path|
      invariant r == Encoded(path[..i])
    {
      var c := path[i];
      if IsKept(c) {
        r := r + [c];
      } else {
        r := AppendEscapes(r, Utf8(c));
      }
      assert path[..i + 1] == path[..i] + [c];
      EncodedSnoc(path[..i], c);
      i := i + 1;
    }
    assert path[..i] == path;
  }

  /** encodePath's inner loop: one `%HH` per UTF-8 byte of the char. */
  method AppendEscapes(prefix: string, bytes: seq<Byte>) returns (r: string)
    ensures r == prefix + PercentBytes(bytes)
  {
    r := prefix;
    var j := 0;
    while j < |bytes|
      invariant 0 <= j <= |bytes|
      invariant r == prefix + PercentBytes(bytes[..j])
    {
      PercentBytesSnoc(bytes, j);
      r := r + PercentByte(bytes[j]);
      j := j + 1;
    }
    assert bytes[..j] == bytes;
  }

  lemma PercentBytesSnoc(bs: seq<Byte>, j: nat)
    requires j < |bs|
    ensures PercentBytes(bs[..j + 1]) == PercentBytes(bs[..j]) + PercentByte(bs[j])
  {
    assert bs[..j + 1] == bs[..j] + [bs[j]];
    PercentBytesAppend(bs[..j], bs[j]);
  }

  lemma {:induction false} PercentBytesAppend(bs: seq<Byte>, b: Byte)
    ensures PercentBytes(bs + [b]) == PercentBytes(bs) + PercentByte(b)
  {
    if bs != [] {
      assert (bs + [b])[1..] == bs[1..] + [b];
      PercentBytesAppend(bs[1..], b);
    } else {
      assert PercentBytes([b]) == PercentByte(b) + PercentBytes([]);
    }
  }

  // ---------------------------------------------------------------------------------
  // The inverse: percent-decoding followed by UTF-8 decoding.

  function HexValue(c: char): Option<nat>
  {
    if '0' <= c <= '9' then Some(c as int - '0' as int)
    else if 'A' <= c <= 'F' then Some(c as int - 'A' as int + 10)
    else if 'a' <= c <= 'f' then Some(c as int - 'a' as int + 10)
    else None
  }

  /** The byte written as `%HH` at position i of s, if there is one. */
  function PercentByteAt(s: string, i: nat): (r: Option<Byte>)
  {
    if i + 3 <= |s| && s[i] == '%' && HexValue(s[i + 1]).Some? && HexValue(s[i + 2]).Some?
       && HexValue(s[i + 1]).value < 16 && HexValue(s[i + 2]).value < 16
    then Some(HexValue(s[i + 1]).value * 16 + HexValue(s[i + 2]).value)
    else None
  }

  predicate IsContinuation(b: Option<Byte>)
  {
    b.Some? && 0x80 <= b.value < 0xC0
  }

  function Prepend(c: char, rest: Option<string>): Option<string>
  {
    match rest
    case Some(t) => Some([c] + t)
    case None => None
  }

  /** Decoding of an encoded path; None when the text is not a well-formed encoding. */
  function Decoded(s: string): Option<string>
    decreases |s|
  {
    if s == [] then Some([])
    else if s[0] != '%' then Prepend(s[0], Decoded(s[1..]))
    else
      var b0 := PercentByteAt(s, 0);
      if b0.None? then None
      else if b0.value < 0x80 then Prepend(b0.value as char, Decoded(s[3..]))
      else if 0xC0 <= b0.value < 0xE0 then
        var b1 := PercentByteAt(s, 3);
        if !IsContinuation(b1) then None
        else Prepend(((b0.value - 0xC0) * 64 + (b1.value - 0x80)) as char, Decoded(s[6..]))
      else if 0xE0 <= b0.value < 0xF0 then
        var b1 := PercentByteAt(s, 3);
        var b2 := PercentByteAt(s, 6);
        if !IsContinuation(b1) || !IsContinuation(b2) then None
        else
          var n := (b0.value - 0xE0) * 4096 + (b1.value - 0x80) * 64 + (b2.value - 0x80);
          if 0xD800 <= n < 0xE000 then None
          else Prepend(n as char, Decoded(s[9..]))
      else None
  }

  lemma HexDigitRoundTrip(d: nat)
    requires d < 16
    ensures HexValue(UpperHex[d]) == Some(d)
  {
  }

  lemma PercentByteRead(b: Byte, rest: string)
    ensures PercentByteAt(PercentByte(b) + rest, 0) == Some(b)
  {
    HexDigitRoundTrip(b / 16);
    HexDigitRoundTrip(b % 16);
  }

  lemma TwoByteArithmetic(n: int)
    requires 0x80 <= n < 0x800
    ensures 2 <= n / 64 < 32 && 0 <= n % 64 < 64 && (n / 64) * 64 + n % 64 == n
  {
  }

  lemma ThreeByteArithmetic(n: int)
    requires 0x800 <= n < 0x10000
    ensures 0 <= n / 4096 < 16 && 0 <= (n / 64) % 64 < 64 && 0 <= n % 64 < 64
    ensures (n / 4096) * 4096 + ((n / 64) % 64) * 64 + n % 64 == n
  {
    var q := n / 64;
    assert n == q * 64 + n % 64;
    assert q == (q / 64) * 64 + q % 64;
    assert q / 64 == n / 4096;
  }

  /** Reading back the escape of a byte followed by more text. */
  lemma PercentByteReadAt(s: string, i: nat, b: Byte, rest: string)
    requires i <= |s| && s[i..] == PercentByte(b) + rest
    ensures PercentByteAt(s, i) == Some(b) && s[i + 3..] == rest
  {
    PercentByteRead(b, rest);
    assert PercentByteAt(s, i) == PercentByteAt(s[i..], 0);
  }

  lemma PercentBytesTwo(b0: Byte, b1: Byte)
    ensures PercentBytes([b0, b1]) == PercentByte(b0) + PercentByte(b1)
  {
    assert PercentBytes([b0, b1]) == PercentByte(b0) + PercentBytes([b1]);
    assert PercentBytes([b1]) == PercentByte(b1) + PercentBytes([]);
  }

  lemma PercentBytesThree(b0: Byte, b1: Byte, b2: Byte)
    ensures PercentBytes([b0, b1, b2]) == PercentByte(b0) + PercentByte(b1) + PercentByte(b2)
  {
    assert PercentBytes([b0, b1, b2]) == PercentByte(b0) + PercentBytes([b1, b2]);
    PercentBytesTwo(b1, b2);
  }

  /** The escapes of one byte below 0x80 decode to that char. */
  lemma DecodeOneByte(b0: Byte, rest: string)
    requires b0 < 0x80
    ensures Decoded(PercentBytes([b0]) + rest) == Prepend(b0 as char, Decoded(rest))
  {
    assert PercentBytes([b0]) == PercentByte(b0) + PercentBytes([]);
    var s := PercentBytes([b0]) + rest;
    assert s[0..] == PercentByte(b0) + rest;
    PercentByteReadAt(s, 0, b0, rest);
  }

  /** The escapes of a two-byte sequence decode to the char it spells. */
  lemma DecodeTwoBytes(b0: Byte, b1: Byte, rest: string, n: int)
    requires 0xC0 <= b0 < 0xE0 && 0x80 <= b1 < 0xC0 && n == (b0 - 0xC0) * 64 + (b1 - 0x80)
    ensures Decoded(PercentBytes([b0, b1]) + rest) == Prepend(n as char, Decoded(rest))
  {
    PercentBytesTwo(b0, b1);
    var s := PercentBytes([b0, b1]) + rest;
    assert s[0..] == PercentByte(b0) + (PercentByte(b1) + rest);
    PercentByteReadAt(s, 0, b0, PercentByte(b1) + rest);
    PercentByteReadAt(s, 3, b1, rest);
    assert s[6..] == rest;
  }

  /** The escapes of a three-byte sequence decode to the char it spells. */
  lemma DecodeThreeBytes(b0: Byte, b1: Byte, b2: Byte, rest: string, n: int)
    requires 0xE0 <= b0 < 0xF0 && 0x80 <= b1 < 0xC0 && 0x80 <= b2 < 0xC0
    requires n == (b0 - 0xE0) * 4096 + (b1 - 0x80) * 64 + (b2 - 0x80) && !(0xD800 <= n < 0xE000)
    ensures Decoded(PercentBytes([b0, b1, b2]) + rest) == Prepend(n as char, Decoded(rest))
  {
    PercentBytesThree(b0, b1, b2);
    var s := PercentBytes([b0, b1, b2]) + rest;
    assert s[0..] == PercentByte(b0) + (PercentByte(b1) + (PercentByte(b2) + rest));
    PercentByteReadAt(s, 0, b0, PercentByte(b1) + (PercentByte(b2) + rest));
    PercentByteReadAt(s, 3, b1, PercentByte(b2) + rest);
    PercentByteReadAt(s, 6, b2, rest);
    DecodedThreeStep(s, b0, b1, b2, n);
  }

  /** One step of Decoded over a three-byte escape. */
  lemma DecodedThreeStep(s: string, b0: Byte, b1: Byte, b2: Byte, n: int)
    requires PercentByteAt(s, 0) == Some(b0) && PercentByteAt(s, 3) == Some(b1) && PercentByteAt(s, 6) == Some(b2)
    requires 0xE0 <= b0 < 0xF0 && 0x80 <= b1 < 0xC0 && 0x80 <= b2 < 0xC0
    requires n == (b0 - 0xE0) * 4096 + (b1 - 0x80) * 64 + (b2 - 0x80) && !(0xD800 <= n < 0xE000)
    ensures Decoded(s) == Prepend(n as char, Decoded(s[9..]))
  {
    assert s[0] == '%';
  }

  lemma Utf8TwoBytes(c: char)
    requires 0x80 <= c as int < 0x800
    ensures var n := c as int;
      Utf8(c) == [0xC0 + n / 64, 0x80 + n % 64] && 0xC0 <= 0xC0 + n / 64 < 0xE0 && 0x80 <= 0x80 + n % 64 < 0xC0
      && n == (n / 64) * 64 + n % 64
  {
    TwoByteArithmetic(c as int);
  }

  lemma Utf8ThreeBytes(c: char)
    requires 0x800 <= c as int < 0x10000
    ensures var n := c as int;
      Utf8(c) == [0xE0 + n / 4096, 0x80 + (n / 64) % 64, 0x80 + n % 64]
      && 0xE0 <= 0xE0 + n / 4096 < 0xF0 && 0x80 <= 0x80 + (n / 64) % 64 < 0xC0 && 0x80 <= 0x80 + n % 64 < 0xC0
      && n == (n / 4096) * 4096 + ((n / 64) % 64) * 64 + n % 64
  {
    ThreeByteArithmetic(c as int);
  }

  /** Decoding undoes the encoding of one char of the Basic Multilingual Plane. */
  lemma DecodeEncodedChar(c: char, rest: string)
    requires c as int < 0x10000
    ensures Decoded(EncodeChar(c) + rest) == Prepend(c, Decoded(rest))
  {
    var n := c as int;
    if IsKept(c) {
      var s := EncodeChar(c) + rest;
      assert s[1..] == rest;
    } else if n < 0x80 {
      DecodeOneByte(n, rest);
    } else if n < 0x800 {
      Utf8TwoBytes(c);
      var b := Utf8(c);
      DecodeTwoBytes(b[0], b[1], rest, n);
    } else {
      Utf8ThreeBytes(c);
      var b := Utf8(c);
      DecodeThreeBytes(b[0], b[1], b[2], rest, n);
    }
  }

  predicate InBasicPlane(s: string)
  {
    forall i | 0 <= i < |s| :: s[i] as int < 0x10000
  }

  /** The encoding is reversible on every path without chars above U+FFFF, so two different
      references never share a URL. */
  lemma {:induction false} DecodeEncoded(s: string)
    requires InBasicPlane(s)
    ensures Decoded(Encoded(s)) == Some(s)
  {
    if s != [] {
      DecodeEncoded(s[1..]);
      DecodeEncodedChar(s[0], Encoded(s[1..]));
      assert [s[0]] + s[1..] == s;
    }
  }

  lemma EncodedInjective(a: string, b: string)
    requires InBasicPlane(a) && InBasicPlane(b)
    requires Encoded(a) == Encoded(b)
    ensures a == b
  {
    DecodeEncoded(a);
    DecodeEncoded(b);
  }

  /** A char above U+FFFF is written as two question marks, so here the encoding forgets. */
  lemma OutsideBasicPlaneBecomesQuestionMarks()
    ensures Encoded("\U{1F600}") == "%3F%3F" == Encoded("\U{1F601}")
  {
    assert Encoded("\U{1F600}") == EncodeChar('\U{1F600}') + Encoded([]);
    assert Encoded("\U{1F601}") == EncodeChar('\U{1F601}') + Encoded([]);
  }

  // ---------------------------------------------------------------------------------
  // What the encoded text is made of.

  predicate IsEncodedChar(c: char)
  {
    IsUnreserved(c) || c == '/' || c == '%'
  }

  /** Text made only of the chars the encoder emits. */
  predicate EncodedText(s: string)
  {
    forall i | 0 <= i < |s| :: IsEncodedChar(s[i])
  }

  /** Text made only of '%' and upper-case hex digits. */
  predicate EscapeText(s: string)
  {
    forall i | 0 <= i < |s| :: s[i] == '%' || s[i] in UpperHex
  }

  lemma EncodedTextConcat(a: string, b: string)
    requires EncodedText(a) && EncodedText(b)
    ensures EncodedText(a + b)
  {
    forall i | 0 <= i < |a + b| ensures IsEncodedChar((a + b)[i]) {
      if i >= |a| { assert (a + b)[i] == b[i - |a|]; }
    }
  }

  lemma EscapeTextConcat(a: string, b: string)
    requires EscapeText(a) && EscapeText(b)
    ensures EscapeText(a + b)
  {
    forall i | 0 <= i < |a + b| ensures (a + b)[i] == '%' || (a + b)[i] in UpperHex {
      if i >= |a| { assert (a + b)[i] == b[i - |a|]; }
    }
  }

  lemma PercentByteAlphabet(b: Byte)
    ensures EncodedText(PercentByte(b)) && EscapeText(PercentByte(b))
  {
    var p := PercentByte(b);
    assert p[1] in UpperHex && p[2] in UpperHex;
  }

  lemma {:induction false} PercentBytesAlphabet(bs: seq<Byte>)
    ensures EncodedText(PercentBytes(bs)) && EscapeText(PercentBytes(bs))
  {
    if bs != [] {
      PercentBytesAlphabet(bs[1..]);
      PercentByteAlphabet(bs[0]);
      EncodedTextConcat(PercentByte(bs[0]), PercentBytes(bs[1..]));
      EscapeTextConcat(PercentByte(bs[0]), PercentBytes(bs[1..]));
    }
  }

  /** The output holds only unreserved chars, '/', and '%' (whose two hex digits, being
      digits and upper-case letters, are unreserved themselves). */
  lemma {:induction false} EncodedAlphabet(s: string)
    ensures EncodedText(Encoded(s))
  {
    if s != [] {
      EncodedAlphabet(s[1..]);
      if !IsKept(s[0]) {
        PercentBytesAlphabet(Utf8(s[0]));
      }
      EncodedTextConcat(EncodeChar(s[0]), Encoded(s[1..]));
    }
  }

  /** Paths of unreserved chars and '/' come out as they went in. */
  lemma {:induction false} EncodedFixedPoint(s: string)
    requires forall i | 0 <= i < |s| :: IsKept(s[i])
    ensures Encoded(s) == s
  {
    if s != [] {
      EncodedFixedPoint(s[1..]);
      assert [s[0]] + s[1..] == s;
    }
  }

  /** A kept char necessarily encodes as itself, and every other char as its escapes. */
  lemma EncodeCharCases(c: char)
    ensures IsKept(c) ==> EncodeChar(c) == [c]
    ensures !IsKept(c) ==> |EncodeChar(c)| == 3 * |Utf8(c)| && EncodeChar(c)[0] == '%'
  {
  }

  // ---------------------------------------------------------------------------------
  // Object keys and URLs.

  const LowerHex := "0123456789abcdef"

  /** The last `width` hex digits of n, lower case, most significant first. */
  function HexDigits(n: nat, width: nat): (r: string)
    ensures |r| == width
    ensures forall i | 0 <= i < width :: r[i] in LowerHex
  {
    if width == 0 then [] else HexDigits(n / 16, width - 1) + [LowerHex[n % 16]]
  }

  function Pow16(k: nat): (p: nat)
    ensures p >= 1
  {
    if k == 0 then 1 else 16 * Pow16(k - 1)
  }

  /** The last digit, and the digits before it. */
  lemma HexDigitsSplit(n: nat, width: nat)
    requires width > 0
    ensures HexDigits(n, width)[..width - 1] == HexDigits(n / 16, width - 1)
    ensures HexDigits(n, width)[width - 1] == LowerHex[n % 16]
  {
  }

  lemma LowerHexInjective(i: nat, j: nat)
    requires i < 16 && j < 16 && i != j
    ensures LowerHex[i] != LowerHex[j]
  {
  }

  lemma QuotientBound(a: nat, width: nat)
    requires width > 0 && a < Pow16(width)
    ensures a / 16 < Pow16(width - 1)
  {
  }

  /** Different numbers below 16^width have different digit strings. */
  lemma {:induction false} HexDigitsInjective(a: nat, b: nat, width: nat)
    requires a < Pow16(width) && b < Pow16(width) && a != b
    ensures HexDigits(a, width) != HexDigits(b, width)
  {
    assert width > 0;
    HexDigitsSplit(a, width);
    HexDigitsSplit(b, width);
    var ha, hb := HexDigits(a, width), HexDigits(b, width);
    if a % 16 != b % 16 {
      LowerHexInjective(a % 16, b % 16);
      assert ha[width - 1] != hb[width - 1];
    } else {
      assert a / 16 != b / 16;
      QuotientBound(a, width);
      QuotientBound(b, width);
      HexDigitsInjective(a / 16, b / 16, width - 1);
      assert ha[..width - 1] != hb[..width - 1];
    }
  }

  /** UUID.toString of the id: 32 lower-case hex digits grouped 8-4-4-4-12. */
  function UuidText(id: Id): (t: string)
    ensures |t| == 36
  {
    var h := HexDigits(id, 32);
    h[..8] + "-" + h[8..12] + "-" + h[12..16] + "-" + h[16..20] + "-" + h[20..]
  }

  /** The object key under which a product's image is stored. */
  function ObjectKey(productId: Id): string
  {
    "products/" + UuidText(productId) + "/image.bin"
  }

  lemma UuidTextKept(id: Id)
    ensures forall i | 0 <= i < |UuidText(id)| :: IsKept(UuidText(id)[i])
  {
    var h := HexDigits(id, 32);
    assert forall c | c in LowerHex :: IsKept(c);
    assert forall i | 0 <= i < 32 :: IsKept(h[i]);
  }

  /** An object key needs no escaping: the URL names the object exactly. */
  lemma ObjectKeyIsFixedPoint(id: Id)
    ensures Encoded(ObjectKey(id)) == ObjectKey(id)
  {
    var k := ObjectKey(id);
    UuidTextKept(id);
    assert forall i | 0 <= i < |k| :: IsKept(k[i]);
    EncodedFixedPoint(k);
  }

  /** Where the i-th of the 32 hex digits sits in the 8-4-4-4-12 text. */
  function DigitPosition(i: nat): nat
  {
    if i < 8 then i else if i < 12 then i + 1 else if i < 16 then i + 2
    else if i < 20 then i + 3 else i + 4
  }

  lemma UuidTextDigits(id: Id, i: nat)
    requires i < 32
    ensures DigitPosition(i) < 36 && UuidText(id)[DigitPosition(i)] == HexDigits(id, 32)[i]
  {
    var h := HexDigits(id, 32);
    var t := UuidText(id);
    if i < 8 {
      assert t[i] == h[..8][i];
    } else if i < 12 {
      assert t[i + 1] == h[8..12][i - 8];
    } else if i < 16 {
      assert t[i + 2] == h[12..16][i - 12];
    } else if i < 20 {
      assert t[i + 3] == h[16..20][i - 16];
    } else {
      assert t[i + 4] == h[20..][i - 20];
    }
  }

  /** The i-th hex digit of the id as it sits in the object key. */
  lemma ObjectKeyDigit(id: Id, i: nat)
    requires i < 32
    ensures 9 + DigitPosition(i) < |ObjectKey(id)| && ObjectKey(id)[9 + DigitPosition(i)] == HexDigits(id, 32)[i]
  {
    UuidTextDigits(id, i);
    var u := UuidText(id);
    assert ObjectKey(id) == "products/" + u + "/image.bin";
    assert ObjectKey(id)[9 + DigitPosition(i)] == u[DigitPosition(i)];
  }

  lemma DifferAt(a: string, b: string)
    requires |a| == |b| && a != b
    ensures exists k :: 0 <= k < |a| && a[k] != b[k]
  {
  }

  /** Products with different UUIDs get different object keys. */
  lemma ObjectKeyInjective(a: Id, b: Id)
    requires a < Pow16(32) && b < Pow16(32) && a != b
    ensures ObjectKey(a) != ObjectKey(b)
  {
    HexDigitsInjective(a, b, 32);
    var ha, hb := HexDigits(a, 32), HexDigits(b, 32);
    DifferAt(ha, hb);
    var k :| 0 <= k < 32 && ha[k] != hb[k];
    ObjectKeyDigit(a, k);
    ObjectKeyDigit(b, k);
  }

  /** The endpoint with one trailing '/' removed. */
  function TrimTrailingSlash(endpoint: string): (r: string)
    ensures |endpoint| > 0 && endpoint[|endpoint| - 1] == '/' ==> r + "/" == endpoint
    ensures (|endpoint| == 0 || endpoint[|endpoint| - 1] != '/') ==> r == endpoint
  {
    if |endpoint| > 0 && endpoint[|endpoint| - 1] == '/' then endpoint[..|endpoint| - 1] else endpoint
  }

  function UrlPrefix(config: StorageConfig): string
  {
    TrimTrailingSlash(config.endpoint) + "/" + config.bucket + "/"
  }

  /** The public URL of a stored image; none for a null or blank reference. */
  function ImageUrl(config: StorageConfig, reference: Option<string>): (url: Option<string>)
    ensures url.None? <==> Text.NullOrBlank(reference)
    ensures url.Some? ==> url.value == UrlPrefix(config) + Encoded(reference.value)
  {
    if Text.NullOrBlank(reference) then None
    else Some(TrimTrailingSlash(config.endpoint) + "/" + config.bucket + "/" + Encoded(reference.value))
  }

  /** The URL ends in the encoded reference, from which the reference can be read back. */
  lemma ImageUrlNamesReference(config: StorageConfig, reference: string)
    requires !Text.IsBlank(reference) && InBasicPlane(reference)
    ensures var url := ImageUrl(config, Some(reference)).value;
      |UrlPrefix(config)| <= |url| && url[..|UrlPrefix(config)|] == UrlPrefix(config)
      && Decoded(url[|UrlPrefix(config)|..]) == Some(reference)
  {
    var url := ImageUrl(config, Some(reference)).value;
    assert url[|UrlPrefix(config)|..] == Encoded(reference);
    DecodeEncoded(reference);
  }

  /** The URL of an uploaded image is the prefix followed by its key, unescaped. */
  lemma ImageUrlOfObjectKey(config: StorageConfig, id: Id)
    ensures ImageUrl(config, Some(ObjectKey(id))) == Some(UrlPrefix(config) + ObjectKey(id))
  {
    var k := ObjectKey(id);
    assert k[0] == 'p' && !Text.IsWhitespace(k[0]);
    ObjectKeyIsFixedPoint(id);
  }

  lemma DefaultUrlPrefix()
    ensures UrlPrefix(DefaultConfig) == "http://localhost:9000/plm-files/"
  {
    assert TrimTrailingSlash(DefaultConfig.endpoint) == DefaultConfig.endpoint;
  }

  /** With the default configuration the URL is exactly http://localhost:9000/plm-files/ + key. */
  lemma DefaultImageUrl(id: Id)
    ensures ImageUrl(DefaultConfig, Some(ObjectKey(id)))
         == Some("http://localhost:9000/plm-files/" + ObjectKey(id))
  {
    ImageUrlOfObjectKey(DefaultConfig, id);
    DefaultUrlPrefix();
  }
}
