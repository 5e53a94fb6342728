/** `encodeURIComponent`: characters outside the unreserved set become `%XY` escapes of their
    UTF-8 bytes, with upper-case hex digits. */
module Uri {

  /** The characters `encodeURIComponent` leaves as they are. */
  predicate Unreserved(c: char) {
    ('A' <= c <= 'Z') || ('a' <= c <= 'z') || ('0' <= c <= '9')
    || c == '-' || c == '_' || c == '.' || c == '!' || c == '~' || c == '*' || c == '\'' || c == '(' || c == ')'
  }

  /** The characters an encoded component can contain. */
  predicate UriSafe(c: char) {
    Unreserved(c) || c == '%'
  }

  predicate AllUriSafe(s: string) {
    forall i :: 0 <= i < |s| ==> UriSafe(s[i])
  }

  /** UTF-8 encoding of one Unicode scalar value. */
  function Utf8(c: char): (bytes: seq<nat>)
    ensures 1 <= |bytes| <= 4
    ensures forall i :: 0 <= i < |bytes| ==> bytes[i] < 256
  {
    var u := c as int;
    if u < 0x80 then [u]
    else if u < 0x800 then [0xC0 + u / 0x40, 0x80 + u % 0x40]
    else if u < 0x10000 then [0xE0 + u / 0x1000, 0x80 + (u / 0x40) % 0x40, 0x80 + u % 0x40]
    else [0xF0 + u / 0x40000, 0x80 + (u / 0x1000) % 0x40, 0x80 + (u / 0x40) % 0x40, 0x80 + u % 0x40]
  }

  /** The UTF-8 bytes of a string. */
  function Utf8String(s: string): seq<nat> {
    if |s| == 0 then [] else Utf8(s[0]) + Utf8String(s[1..])
  }

  function HexDigit(d: nat): (c: char)
    requires d < 16
    ensures UriSafe(c)
  {
    if d < 10 then ('0' as int + d) as char else ('A' as int + d - 10) as char
  }

  predicate IsHex(c: char) {
    ('0' <= c <= '9') || ('A' <= c <= 'F')
  }

  function HexValue(c: char): (d: nat)
    requires IsHex(c)
    ensures d < 16
  {
    if c <= '9' then c as int - '0' as int else c as int - 'A' as int + 10
  }

  /** `%XY` for each byte. */
  function Escape(bytes: seq<nat>): (r: string)
    requires forall i :: 0 <= i < |bytes| ==> bytes[i] < 256
    ensures AllUriSafe(r)
  {
    if |bytes| == 0 then ""
    else "%" + [HexDigit(bytes[0] / 16), HexDigit(bytes[0] % 16)] + Escape(bytes[1..])
  }

  function EncodeChar(c: char): (r: string)
    ensures AllUriSafe(r)
  {
    if Unreserved(c) then [c] else Escape(Utf8(c))
  }

  /** `encodeURIComponent(s)`. The result contains only unreserved characters and '%', so never
      a '&', '=', '?', '#', '/' or space that could end or split a query parameter. */
  function Encode(s: string): (r: string)
    ensures AllUriSafe(r)
  {
    if |s| == 0 then "" else EncodeChar(s[0]) + Encode(s[1..])
  }

  /** Percent-decoding to bytes: `%XY` is the byte XY, any other character its own code. */
  function DecodeBytes(t: string): seq<int> {
    if |t| == 0 then []
    else if t[0] == '%' && |t| >= 3 && IsHex(t[1]) && IsHex(t[2]) then [HexValue(t[1]) * 16 + HexValue(t[2])] + DecodeBytes(t[3..])
    else [t[0] as int] + DecodeBytes(t[1..])
  }

  lemma HexRoundTrip(d: nat)
    requires d < 16
    ensures IsHex(HexDigit(d)) && HexValue(HexDigit(d)) == d
  {
  }

  lemma {:induction false} DecodeEscape(bytes: seq<nat>, rest: string)
    requires forall i :: 0 <= i < |bytes| ==> bytes[i] < 256
    ensures DecodeBytes(Escape(bytes) + rest) == bytes + DecodeBytes(rest)
  {
    if |bytes| > 0 {
      var b := bytes[0];
      HexRoundTrip(b / 16);
      HexRoundTrip(b % 16);
      var t := Escape(bytes) + rest;
      assert t == "%" + [HexDigit(b / 16), HexDigit(b % 16)] + (Escape(bytes[1..]) + rest);
      assert t[3..] == Escape(bytes[1..]) + rest;
      DecodeEscape(bytes[1..], rest);
    } else {
      assert Escape(bytes) + rest == rest;
    }
  }

  /** Decoding an encoded string yields the string's UTF-8 bytes: the encoding loses nothing. */
  lemma {:induction false} DecodeEncode(s: string)
    ensures DecodeBytes(Encode(s)) == Utf8String(s)
  {
    if |s| > 0 {
      DecodeEncode(s[1..]);
      var c := s[0];
      if Unreserved(c) {
        assert Encode(s) == [c] + Encode(s[1..]);
        assert Utf8(c) == [c as int];
      } else {
        DecodeEscape(Utf8(c), Encode(s[1..]));
      }
    }
  }
}
