/** PHP's `urlencode`: the `application/x-www-form-urlencoded` encoding of
    section 17.13.4.1 of HTML 4.01, applied to the UTF-8 bytes of a string.
    Letters, digits and `.`, `_`, `-` stay as they are, a space becomes `+`
    and every other byte becomes `%` and two upper-case hex digits. */
module UrlEncoding {

  type Byte = b: int | 0 <= b < 256

  /** The characters `urlencode` leaves alone. */
  predicate Unreserved(c: char)
  {
    ('A' <= c <= 'Z') || ('a' <= c <= 'z') || ('0' <= c <= '9') || c == '.' || c == '_' || c == '-'
  }

  /** The characters that can appear in `urlencode`'s output. */
  predicate FormSafe(c: char)
  {
    Unreserved(c) || c == '+' || c == '%'
  }

  /** The UTF-8 bytes of one character (section 3 of RFC 3629). */
  function Utf8(c: char): (r: seq<Byte>)
    ensures 1 <= |r| <= 4
    ensures (c as int < 0x80) <==> |r| == 1
    ensures c as int < 0x80 ==> r[0] == c as int
  {
    var cp := c as int;
    if cp < 0x80 then [cp]
    else if cp < 0x800 then [0xC0 + cp / 64, 0x80 + cp % 64]
    else if cp < 0x1_0000 then [0xE0 + cp / 4096, 0x80 + (cp / 64) % 64, 0x80 + cp % 64]
    else [0xF0 + cp / 262144, 0x80 + (cp / 4096) % 64, 0x80 + (cp / 64) % 64, 0x80 + cp % 64]
  }

  /** The bytes PHP holds for a string: the UTF-8 bytes of its characters. */
  function Bytes(s: string): seq<Byte>
  {
    if s == [] then [] else Utf8(s[0]) + Bytes(s[1..])
  }

  /** The upper-case hex digit of a value below 16. */
  function HexDigit(d: nat): (c: char)
    requires d < 16
    ensures Unreserved(c)
  {
    if d < 10 then ('0' as int + d) as char else ('A' as int + d - 10) as char
  }

  /** `%HH` for every byte, with upper-case hex digits. */
  function Percent(bytes: seq<Byte>): string
  {
    if bytes == [] then ""
    else ['%', HexDigit(bytes[0] / 16), HexDigit(bytes[0] % 16)] + Percent(bytes[1..])
  }

  function EncodeChar(c: char): string
  {
    if Unreserved(c) then [c]
    else if c == ' ' then "+"
    else Percent(Utf8(c))
  }

  /** `urlencode(s)`. */
  function UrlEncode(s: string): string
  {
    if s == [] then "" else EncodeChar(s[0]) + UrlEncode(s[1..])
  }

  lemma {:induction false} PercentFormSafe(bytes: seq<Byte>)
    ensures forall i :: 0 <= i < |Percent(bytes)| ==> FormSafe(Percent(bytes)[i])
  {
    if bytes != [] {
      PercentFormSafe(bytes[1..]);
    }
  }

  /** The output of `urlencode` only holds letters, digits, `.`, `_`, `-`,
      `+` and `%`: never the `&` and `=` of a query string, nor `|`. */
  lemma {:induction false} UrlEncodeFormSafe(s: string)
    ensures forall i :: 0 <= i < |UrlEncode(s)| ==> FormSafe(UrlEncode(s)[i])
  {
    if s != [] {
      UrlEncodeFormSafe(s[1..]);
      if !Unreserved(s[0]) && s[0] != ' ' {
        PercentFormSafe(Utf8(s[0]));
      }
    }
  }

  predicate IsHexDigit(c: char)
  {
    ('0' <= c <= '9') || ('A' <= c <= 'F') || ('a' <= c <= 'f')
  }

  function HexValue(c: char): (v: nat)
    requires IsHexDigit(c)
    ensures v < 16
  {
    if '0' <= c <= '9' then c as int - '0' as int
    else if 'A' <= c <= 'F' then c as int - 'A' as int + 10
    else c as int - 'a' as int + 10
  }

  /** `urldecode(s)`, as the bytes it produces: `+` is a space, `%HH` the
      byte with that value, and any other character its own UTF-8 bytes. */
  function UrlDecode(s: string): seq<Byte>
  {
    if s == [] then []
    else if s[0] == '+' then [32] + UrlDecode(s[1..])
    else if s[0] == '%' && |s| >= 3 && IsHexDigit(s[1]) && IsHexDigit(s[2]) then
      [HexValue(s[1]) * 16 + HexValue(s[2])] + UrlDecode(s[3..])
    else Utf8(s[0]) + UrlDecode(s[1..])
  }

  lemma HexDigitRoundTrip(d: nat)
    requires d < 16
    ensures IsHexDigit(HexDigit(d)) && HexValue(HexDigit(d)) == d
  {
  }

  /** One `%HH` group decodes to the byte it was made from. */
  lemma DecodeByte(b: Byte, tail: string)
    ensures UrlDecode(['%', HexDigit(b / 16), HexDigit(b % 16)] + tail) == [b] + UrlDecode(tail)
  {
    var hi, lo := HexDigit(b / 16), HexDigit(b % 16);
    HexDigitRoundTrip(b / 16);
    HexDigitRoundTrip(b % 16);
    var s := ['%', hi, lo] + tail;
    assert s[0] == '%' && s[1] == hi && s[2] == lo && s[3..] == tail;
    assert HexValue(hi) * 16 + HexValue(lo) == b;
  }

  /** The first byte's group comes off the front of the encoding. */
  lemma DecodePercentStep(bytes: seq<Byte>, rest: string)
    requires bytes != []
    ensures UrlDecode(Percent(bytes) + rest) == [bytes[0]] + UrlDecode(Percent(bytes[1..]) + rest)
  {
    var b := bytes[0];
    var group := ['%', HexDigit(b / 16), HexDigit(b % 16)];
    var tail := Percent(bytes[1..]) + rest;
    assert Percent(bytes) == group + Percent(bytes[1..]);
    assert Percent(bytes) + rest == group + tail;
    DecodeByte(b, tail);
  }

  lemma {:induction false} DecodePercent(bytes: seq<Byte>, rest: string)
    ensures UrlDecode(Percent(bytes) + rest) == bytes + UrlDecode(rest)
  {
    if bytes == [] {
      assert Percent(bytes) + rest == rest;
    } else {
      var later := bytes[1..];
      DecodePercentStep(bytes, rest);
      DecodePercent(later, rest);
      assert [bytes[0]] + (later + UrlDecode(rest)) == ([bytes[0]] + later) + UrlDecode(rest);
      assert [bytes[0]] + later == bytes;
    }
  }

  lemma DecodeEncodedChar(c: char, rest: string)
    ensures UrlDecode(EncodeChar(c) + rest) == Utf8(c) + UrlDecode(rest)
  {
    if Unreserved(c) {
      assert ([c] + rest)[1..] == rest;
    } else if c == ' ' {
      assert ("+" + rest)[1..] == rest;
    } else {
      DecodePercent(Utf8(c), rest);
    }
  }

  /** `urldecode` undoes `urlencode`: decoding the encoding of any string
      gives back exactly the bytes of that string. */
  lemma {:induction false} UrlDecodeEncode(s: string)
    ensures UrlDecode(UrlEncode(s)) == Bytes(s)
  {
    if s != [] {
      DecodeEncodedChar(s[0], UrlEncode(s[1..]));
      UrlDecodeEncode(s[1..]);
    }
  }

  /** Encoding works character by character. */
  lemma {:induction false} UrlEncodeAppend(a: string, b: string)
    ensures UrlEncode(a + b) == UrlEncode(a) + UrlEncode(b)
  {
    if a == [] {
      assert a + b == b;
    } else {
      assert (a + b)[1..] == a[1..] + b;
      UrlEncodeAppend(a[1..], b);
    }
  }

  /** A string of letters, digits, `.`, `_` and `-` is sent unchanged. */
  lemma {:induction false} UrlEncodeUnreserved(s: string)
    requires forall i :: 0 <= i < |s| ==> Unreserved(s[i])
    ensures UrlEncode(s) == s
  {
    if s != [] {
      UrlEncodeUnreserved(s[1..]);
      assert [s[0]] + s[1..] == s;
    }
  }

  /** The escape `Parameter` puts in place of its list delimiter. */
  lemma EncodePipe()
    ensures UrlEncode("|") == "%7C"
  {
    assert Utf8('|') == [0x7C];
    assert Percent([0x7C]) == "%7C" by {
      assert HexDigit(7) == '7' && HexDigit(12) == 'C';
    }
    assert UrlEncode("|") == EncodeChar('|') + UrlEncode("");
  }

  /** Two runs of unreserved characters around a space: the space
      becomes `+` and the rest is kept. */
  lemma EncodeAroundSpace(a: string, b: string)
    requires forall i :: 0 <= i < |a| ==> Unreserved(a[i])
    requires forall i :: 0 <= i < |b| ==> Unreserved(b[i])
    ensures UrlEncode(a + " " + b) == a + "+" + b
  {
    var space := UrlEncode(" ");
    assert space == "+" by {
      assert space == EncodeChar(' ') + UrlEncode("");
    }
    var left := UrlEncode(a + " ");
    assert left == a + "+" by {
      UrlEncodeAppend(a, " ");
      UrlEncodeUnreserved(a);
    }
    UrlEncodeAppend(a + " ", b);
    UrlEncodeUnreserved(b);
  }

  /** A space becomes `+`: `"with space"` is sent as `"with+space"`. */
  lemma EncodeSpace(s: string)
    requires s == "with space"
    ensures UrlEncode(s) == "with+space"
  {
    var a, b := s[..4], s[5..];
    assert s == a + " " + b;
    assert forall i :: 0 <= i < |a| ==> Unreserved(a[i]);
    assert forall i :: 0 <= i < |b| ==> Unreserved(b[i]);
    EncodeAroundSpace(a, b);
  }
}
