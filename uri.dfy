/**
 * ECMAScript's `encodeURIComponent`: every character outside the unescaped set
 * becomes the percent-encoded UTF-8 bytes of its code point, with upper-case
 * hexadecimal digits (section 2.1 of RFC 3986, UTF-8 as in section 3 of
 * RFC 3629). Its partner is the matching decoder, `decodeURIComponent`.
 */
module Uri {
  import opened Wrappers
  import opened Text

  /** A–Z, a–z, 0–9 and the marks - _ . ! ~ * ' ( ): left as they are. */
  predicate IsUnescaped(c: char)
  {
    ('A' <= c <= 'Z') || ('a' <= c <= 'z') || ('0' <= c <= '9') ||
    c == '-' || c == '_' || c == '.' || c == '!' || c == '~' || c == '*' ||
    c == '\'' || c == '(' || c == ')'
  }

  predicate IsByte(b: int) { 0 <= b < 256 }

  /** The UTF-8 bytes of one code point. */
  function Utf8(c: char): (bs: seq<int>)
    ensures 1 <= |bs| <= 4 && forall i :: 0 <= i < |bs| ==> IsByte(bs[i])
  {
    var n := c as int;
    if n < 0x80 then [n]
    else if n < 0x800 then [0xC0 + n / 64, 0x80 + n % 64]
    else if n < 0x10000 then [0xE0 + n / 4096, 0x80 + (n / 64) % 64, 0x80 + n % 64]
    else [0xF0 + n / 262144, 0x80 + (n / 4096) % 64, 0x80 + (n / 64) % 64, 0x80 + n % 64]
  }

  function HexDigit(d: int): (c: char)
    requires 0 <= d < 16
    ensures IsUnescaped(c)
  {
    if d < 10 then ('0' as int + d) as char else ('A' as int + d - 10) as char
  }

  /** `%XY` for one byte. */
  function PercentByte(b: int): string
    requires IsByte(b)
  {
    ['%', HexDigit(b / 16), HexDigit(b % 16)]
  }

  function PercentBytes(bs: seq<int>): (r: string)
    requires forall i :: 0 <= i < |bs| ==> IsByte(bs[i])
    ensures |r| == 3 * |bs|
    ensures forall i :: 0 <= i < |r| ==> IsUnescaped(r[i]) || r[i] == '%'
  {
    if bs == [] then "" else PercentByte(bs[0]) + PercentBytes(bs[1..])
  }

  function EncodeChar(c: char): (r: string)
    ensures |r| >= 1
    ensures forall i :: 0 <= i < |r| ==> IsUnescaped(r[i]) || r[i] == '%'
  {
    if IsUnescaped(c) then [c] else PercentBytes(Utf8(c))
  }

  /** Only unescaped characters and `%` remain, so no `&`, `=`, `#`, space or comma is left. */
  function EncodeURIComponent(s: string): (r: string)
    ensures forall i :: 0 <= i < |r| ==> IsUnescaped(r[i]) || r[i] == '%'
  {
    if s == [] then "" else EncodeChar(s[0]) + EncodeURIComponent(s[1..])
  }

  lemma {:induction false} EncodeAppend(a: string, b: string)
    ensures EncodeURIComponent(a + b) == EncodeURIComponent(a) + EncodeURIComponent(b)
  {
    if a == [] {
      assert a + b == b;
    } else {
      assert (a + b)[1..] == a[1..] + b;
      EncodeAppend(a[1..], b);
    }
  }

  // ---- the decoder ----

  /** A piece of encoded text: a literal character or one percent-encoded byte. */
  datatype Unit = Literal(c: char) | Byte(b: int)

  function HexValue(c: char): Option<int>
  {
    if '0' <= c <= '9' then Some(c as int - '0' as int)
    else if 'A' <= c <= 'F' then Some(c as int - 'A' as int + 10)
    else if 'a' <= c <= 'f' then Some(c as int - 'a' as int + 10)
    else None
  }

  /** Splits encoded text into units; a `%` not followed by two hex digits is an error. */
  function Units(s: string): Option<seq<Unit>>
    decreases |s|
  {
    if s == [] then Some([])
    else if s[0] != '%' then
      match Units(s[1..])
      case None => None
      case Some(us) => Some([Literal(s[0])] + us)
    else if |s| >= 3 && HexValue(s[1]).Some? && HexValue(s[2]).Some? then
      match Units(s[3..])
      case None => None
      case Some(us) => Some([Byte(HexValue(s[1]).value * 16 + HexValue(s[2]).value)] + us)
    else None
  }

  predicate IsScalar(n: int) { 0 <= n < 0xD800 || 0xE000 <= n < 0x110000 }

  /** How many continuation bytes follow a lead byte, and the bits the lead byte carries. */
  function LeadByte(b: int): Option<(nat, int)>
  {
    if 0 <= b < 0x80 then Some((0, b))
    else if 0xC0 <= b < 0xE0 then Some((1, b - 0xC0))
    else if 0xE0 <= b < 0xF0 then Some((2, b - 0xE0))
    else if 0xF0 <= b < 0xF8 then Some((3, b - 0xF0))
    else None
  }

  /** The least code point that needs `count` continuation bytes; a smaller one is an overlong form. */
  function MinCodePoint(count: nat): int
  {
    if count == 0 then 0 else if count == 1 then 0x80 else if count == 2 then 0x800 else 0x10000
  }

  /** Reads `count` continuation bytes (10xxxxxx), appending their six bits each to `acc`. */
  function ReadContinuations(us: seq<Unit>, count: nat, acc: int): (r: Option<(int, seq<Unit>)>)
    ensures r.Some? ==> |r.value.1| <= |us|
  {
    if count == 0 then Some((acc, us))
    else if us != [] && us[0].Byte? && 0x80 <= us[0].b < 0xC0 then
      ReadContinuations(us[1..], count - 1, acc * 64 + (us[0].b - 0x80))
    else None
  }

  /** Turns units back into characters, assembling each UTF-8 sequence into one code point. */
  function DecodeUnits(us: seq<Unit>): Option<string>
    decreases |us|
  {
    if us == [] then Some("")
    else
      match us[0]
      case Literal(c) =>
        (match DecodeUnits(us[1..])
         case None => None
         case Some(t) => Some([c] + t))
      case Byte(b0) =>
        match LeadByte(b0)
        case None => None
        case Some((count, bits)) =>
          match ReadContinuations(us[1..], count, bits)
          case None => None
          case Some((n, more)) =>
            if !IsScalar(n) || n < MinCodePoint(count) then None
            else
              match DecodeUnits(more)
              case None => None
              case Some(t) => Some([n as char] + t)
  }

  /**
   * `decodeURIComponent`: `None` where ECMAScript throws a URIError: a bad
   * escape, a byte that cannot start or continue a UTF-8 sequence, a
   * surrogate or out-of-range code point, or an overlong form.
   */
  function DecodeURIComponent(s: string): Option<string>
  {
    match Units(s)
    case None => None
    case Some(us) => DecodeUnits(us)
  }

  // ---- the round trip ----

  function ByteUnits(bs: seq<int>): (us: seq<Unit>)
    ensures |us| == |bs|
  {
    if bs == [] then [] else [Byte(bs[0])] + ByteUnits(bs[1..])
  }

  /** The units an encoder writes for one character. */
  function CharUnits(c: char): seq<Unit>
  {
    if IsUnescaped(c) then [Literal(c)] else ByteUnits(Utf8(c))
  }

  function EncodedUnits(s: string): seq<Unit>
  {
    if s == [] then [] else CharUnits(s[0]) + EncodedUnits(s[1..])
  }

  lemma HexRoundTrip(d: int)
    requires 0 <= d < 16
    ensures HexValue(HexDigit(d)) == Some(d)
  {
  }

  lemma UnitsOfPercentByte(b: int, tail: string)
    requires IsByte(b) && Units(tail).Some?
    ensures Units(PercentByte(b) + tail) == Some([Byte(b)] + Units(tail).value)
  {
    var s := PercentByte(b) + tail;
    HexRoundTrip(b / 16);
    HexRoundTrip(b % 16);
    assert s[0] == '%' && s[1] == HexDigit(b / 16) && s[2] == HexDigit(b % 16);
    assert HexValue(s[1]).value * 16 + HexValue(s[2]).value == b;
    assert s[3..] == tail;
  }

  lemma {:induction false} UnitsOfPercentBytes(bs: seq<int>, rest: string)
    requires forall i :: 0 <= i < |bs| ==> IsByte(bs[i])
    requires Units(rest).Some?
    ensures Units(PercentBytes(bs) + rest) == Some(ByteUnits(bs) + Units(rest).value)
  {
    if bs == [] {
      assert PercentBytes(bs) + rest == rest;
      assert ByteUnits(bs) + Units(rest).value == Units(rest).value;
    } else {
      UnitsOfPercentBytes(bs[1..], rest);
      PercentBytesStep(bs, rest, ByteUnits(bs[1..]) + Units(rest).value);
      assert ByteUnits(bs) + Units(rest).value == [Byte(bs[0])] + (ByteUnits(bs[1..]) + Units(rest).value);
    }
  }

  lemma PercentBytesStep(bs: seq<int>, rest: string, us: seq<Unit>)
    requires |bs| > 0 && forall i :: 0 <= i < |bs| ==> IsByte(bs[i])
    requires Units(PercentBytes(bs[1..]) + rest) == Some(us)
    ensures Units(PercentBytes(bs) + rest) == Some([Byte(bs[0])] + us)
  {
    var tail := PercentBytes(bs[1..]) + rest;
    assert PercentBytes(bs) + rest == PercentByte(bs[0]) + tail;
    UnitsOfPercentByte(bs[0], tail);
  }

  /** Splitting encoder output into units gives the units the encoder meant. */
  lemma {:induction false} UnitsOfEncoding(s: string)
    ensures Units(EncodeURIComponent(s)) == Some(EncodedUnits(s))
  {
    if s != [] {
      UnitsOfEncoding(s[1..]);
      var rest := EncodeURIComponent(s[1..]);
      if IsUnescaped(s[0]) {
        assert (EncodeChar(s[0]) + rest)[1..] == rest;
      } else {
        UnitsOfPercentBytes(Utf8(s[0]), rest);
      }
    }
  }

  /** The code point whose high bits are `acc`, completed by six more bits per element of `vs`. */
  function Horner(acc: int, vs: seq<int>): int
    decreases |vs|
  {
    if vs == [] then acc else Horner(acc * 64 + vs[0], vs[1..])
  }

  predicate AllSixBit(vs: seq<int>) { forall i :: 0 <= i < |vs| ==> 0 <= vs[i] < 64 }

  /** Continuation bytes carrying the six-bit groups `vs`. */
  function Continuations(vs: seq<int>): (bs: seq<int>)
    requires AllSixBit(vs)
    ensures |bs| == |vs|
  {
    if vs == [] then [] else [0x80 + vs[0]] + Continuations(vs[1..])
  }

  lemma {:induction false} ReadAllContinuations(vs: seq<int>, more: seq<Unit>, acc: int)
    requires AllSixBit(vs)
    ensures ReadContinuations(ByteUnits(Continuations(vs)) + more, |vs|, acc) == Some((Horner(acc, vs), more))
  {
    if vs == [] {
      assert ByteUnits(Continuations(vs)) + more == more;
    } else {
      var us := ByteUnits(Continuations(vs)) + more;
      assert Continuations(vs)[1..] == Continuations(vs[1..]);
      assert us[0] == Byte(0x80 + vs[0]);
      assert us[1..] == ByteUnits(Continuations(vs[1..])) + more;
      ReadAllContinuations(vs[1..], more, acc * 64 + vs[0]);
    }
  }

  lemma DivMod64(x: int)
    requires 0 <= x
    ensures (x / 64) * 64 + x % 64 == x
  {
  }

  /** A multi-byte sequence is a lead byte (count and high bits) followed by continuations. */
  lemma Utf8Shape(c: char) returns (lead: int, bits: int, vs: seq<int>)
    requires 0x80 <= c as int
    ensures AllSixBit(vs)
    ensures Utf8(c) == [lead] + Continuations(vs)
    ensures LeadByte(lead) == Some((|vs|, bits))
    ensures Horner(bits, vs) == c as int
    ensures MinCodePoint(|vs|) <= c as int
  {
    var n := c as int;
    if n < 0x800 {
      lead, bits, vs := 0xC0 + n / 64, n / 64, [n % 64];
      TwoByteShape(n);
    } else if n < 0x10000 {
      lead, bits, vs := 0xE0 + n / 4096, n / 4096, [(n / 64) % 64, n % 64];
      ThreeByteShape(n);
    } else {
      lead, bits, vs := 0xF0 + n / 262144, n / 262144, [(n / 4096) % 64, (n / 64) % 64, n % 64];
      FourByteShape(n);
    }
  }

  lemma TwoByteShape(n: int)
    requires 0x80 <= n < 0x800
    ensures Continuations([n % 64]) == [0x80 + n % 64]
    ensures Horner(n / 64, [n % 64]) == n
  {
    DivMod64(n);
    assert [n % 64][1..] == [];
  }

  lemma ThreeByteShape(n: int)
    requires 0x800 <= n < 0x10000
    ensures AllSixBit([(n / 64) % 64, n % 64])
    ensures Continuations([(n / 64) % 64, n % 64]) == [0x80 + (n / 64) % 64, 0x80 + n % 64]
    ensures Horner(n / 4096, [(n / 64) % 64, n % 64]) == n
  {
    DivMod64(n);
    DivMod64(n / 64);
    assert n / 4096 == (n / 64) / 64;
    var vs := [(n / 64) % 64, n % 64];
    assert vs[1..] == [n % 64] && vs[1..][1..] == [];
    assert Horner(n / 4096, vs) == Horner(n / 64, [n % 64]);
    assert [n % 64][1..] == [];
    assert Horner(n / 64, [n % 64]) == Horner(n, []);
  }

  lemma FourByteShape(n: int)
    requires 0x10000 <= n < 0x110000
    ensures AllSixBit([(n / 4096) % 64, (n / 64) % 64, n % 64])
    ensures Continuations([(n / 4096) % 64, (n / 64) % 64, n % 64])
         == [0x80 + (n / 4096) % 64, 0x80 + (n / 64) % 64, 0x80 + n % 64]
    ensures Horner(n / 262144, [(n / 4096) % 64, (n / 64) % 64, n % 64]) == n
  {
    DivMod64(n);
    DivMod64(n / 64);
    DivMod64(n / 4096);
    assert n / 4096 == (n / 64) / 64;
    assert n / 262144 == (n / 4096) / 64;
    var vs := [(n / 4096) % 64, (n / 64) % 64, n % 64];
    assert vs[1..] == [(n / 64) % 64, n % 64] && vs[1..][1..] == [n % 64] && vs[1..][1..][1..] == [];
    assert Horner(n / 262144, vs) == Horner(n / 4096, vs[1..]);
    assert Horner(n / 4096, vs[1..]) == Horner(n / 64, [n % 64]);
    assert Horner(n / 64, [n % 64]) == Horner(n, []);
    assert Continuations(vs[1..][1..]) == [0x80 + n % 64];
    assert Continuations(vs[1..]) == [0x80 + (n / 64) % 64, 0x80 + n % 64];
  }

  lemma ByteUnitsAppend(a: seq<int>, b: seq<int>)
    ensures ByteUnits(a + b) == ByteUnits(a) + ByteUnits(b)
  {
    if a == [] {
      assert a + b == b;
    } else {
      assert (a + b)[1..] == a[1..] + b;
      ByteUnitsAppend(a[1..], b);
    }
  }

  /** The units of one character decode back to that character. */
  lemma DecodeCharUnits(c: char, more: seq<Unit>)
    requires DecodeUnits(more).Some?
    ensures DecodeUnits(CharUnits(c) + more) == Some([c] + DecodeUnits(more).value)
  {
    var us := CharUnits(c) + more;
    if IsUnescaped(c) {
      assert us[1..] == more;
    } else if c as int < 0x80 {
      assert us[0] == Byte(c as int) && us[1..] == more;
    } else {
      DecodeMultiByte(c, more);
    }
  }

  /** One multi-byte sequence, read from abstract units. */
  lemma DecodeLeadStep(lead: int, count: nat, bits: int, rest: seq<Unit>, n: int, more: seq<Unit>)
    requires LeadByte(lead) == Some((count, bits))
    requires ReadContinuations(rest, count, bits) == Some((n, more))
    requires IsScalar(n) && MinCodePoint(count) <= n && DecodeUnits(more).Some?
    ensures DecodeUnits([Byte(lead)] + rest) == Some([n as char] + DecodeUnits(more).value)
  {
    var us := [Byte(lead)] + rest;
    assert us[0] == Byte(lead) && us[1..] == rest;
  }

  lemma DecodeMultiByte(c: char, more: seq<Unit>)
    requires !IsUnescaped(c) && 0x80 <= c as int
    requires DecodeUnits(more).Some?
    ensures DecodeUnits(CharUnits(c) + more) == Some([c] + DecodeUnits(more).value)
  {
    var lead, bits, vs := Utf8Shape(c);
    var rest := ByteUnits(Continuations(vs)) + more;
    assert CharUnits(c) == ByteUnits([lead] + Continuations(vs));
    ByteUnitsAppend([lead], Continuations(vs));
    assert CharUnits(c) + more == [Byte(lead)] + rest;
    ReadAllContinuations(vs, more, bits);
    DecodeLeadStep(lead, |vs|, bits, rest, c as int, more);
  }

  lemma {:induction false} DecodeEncodedUnits(s: string)
    ensures DecodeUnits(EncodedUnits(s)) == Some(s)
  {
    if s != [] {
      DecodeEncodedUnits(s[1..]);
      DecodeCharUnits(s[0], EncodedUnits(s[1..]));
      assert [s[0]] + s[1..] == s;
    }
  }

  /** A two-byte sequence led by 0xC0 or 0xC1 is an overlong form of an ASCII character and is refused. */
  lemma OverlongRejected(lead: int, b: int, more: seq<Unit>)
    requires lead == 0xC0 || lead == 0xC1
    requires 0x80 <= b < 0xC0
    ensures DecodeUnits([Byte(lead), Byte(b)] + more) == None
  {
    var us := [Byte(lead), Byte(b)] + more;
    assert us[0] == Byte(lead) && us[1..] == [Byte(b)] + more;
    assert ([Byte(b)] + more)[1..] == more;
    assert LeadByte(lead) == Some((1, lead - 0xC0));
    var n := (lead - 0xC0) * 64 + (b - 0x80);
    assert ReadContinuations(more, 0, n) == Some((n, more));
    assert ReadContinuations([Byte(b)] + more, 1, lead - 0xC0) == Some((n, more));
    assert n < MinCodePoint(1);
  }

  /** Decoding undoes `encodeURIComponent`: the text is encoded exactly once. */
  lemma DecodeEncode(s: string)
    ensures DecodeURIComponent(EncodeURIComponent(s)) == Some(s)
  {
    UnitsOfEncoding(s);
    DecodeEncodedUnits(s);
  }
}
