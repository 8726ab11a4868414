/** Percent-encoding of URL path segments, as the `urlencoding` crate's `encode`
    does it: the unreserved characters `A-Z a-z 0-9 - . _ ~` are kept, every other
    character is written as the `%XX` escapes (upper-case hex) of its UTF-8 bytes.
    Decoding is not modelled concretely: callers receive the decoder as a
    parameter together with the promise that it inverts `Encode`. */
module Percent {
  import opened Wrappers
  import opened Strings

  predicate IsAsciiAlphanumeric(c: char) {
    ('A' <= c <= 'Z') || ('a' <= c <= 'z') || ('0' <= c <= '9')
  }

  predicate IsUnreserved(c: char) {
    IsAsciiAlphanumeric(c) || c == '-' || c == '.' || c == '_' || c == '~'
  }

  /** The UTF-8 encoding of one Unicode scalar value, as byte values. */
  function Utf8(c: char): (bytes: seq<nat>)
    ensures 1 <= |bytes| <= 4
    ensures forall i :: 0 <= i < |bytes| ==> bytes[i] < 256
  {
    var n := c as int;
    if n < 0x80 then [n]
    else if n < 0x800 then [0xC0 + n / 64, 0x80 + n % 64]
    else if n < 0x1_0000 then [0xE0 + n / 4096, 0x80 + (n / 64) % 64, 0x80 + n % 64]
    else [0xF0 + n / 262144, 0x80 + (n / 4096) % 64, 0x80 + (n / 64) % 64, 0x80 + n % 64]
  }

  /** The length in bytes of the UTF-8 text, which Rust's `str::len` counts. */
  function ByteLen(s: string): (r: nat)
    ensures r >= |s|
  {
    if s == [] then 0 else |Utf8(s[0])| + ByteLen(s[1..])
  }

  lemma {:induction false} ByteLenConcat(a: string, b: string)
    ensures ByteLen(a + b) == ByteLen(a) + ByteLen(b)
    decreases |a|
  {
    if a != [] {
      assert (a + b)[1..] == a[1..] + b;
      ByteLenConcat(a[1..], b);
    } else {
      assert a + b == b;
    }
  }

  function HexDigit(d: nat): (c: char)
    requires d < 16
    ensures ('0' <= c <= '9') || ('A' <= c <= 'F')
  {
    if d < 10 then ('0' as int + d) as char else ('A' as int + d - 10) as char
  }

  /** `%XX` for one byte. */
  function EscapeByte(b: nat): (r: string)
    requires b < 256
    ensures |r| == 3 && r[0] == '%' && IsUnreserved(r[1]) && IsUnreserved(r[2])
  {
    ['%', HexDigit(b / 16), HexDigit(b % 16)]
  }

  function EscapeBytes(bytes: seq<nat>): (r: string)
    requires forall i :: 0 <= i < |bytes| ==> bytes[i] < 256
    ensures |r| == 3 * |bytes|
    ensures forall i :: 0 <= i < |r| ==> IsUnreserved(r[i]) || r[i] == '%'
  {
    if |bytes| == 0 then "" else EscapeByte(bytes[0]) + EscapeBytes(bytes[1..])
  }

  function EncodeChar(c: char): (r: string)
    ensures IsUnreserved(c) ==> r == [c]
    ensures !IsUnreserved(c) ==> |r| >= 3 && r[0] == '%'
    ensures forall i :: 0 <= i < |r| ==> IsUnreserved(r[i]) || r[i] == '%'
  {
    if IsUnreserved(c) then [c] else EscapeBytes(Utf8(c))
  }

  /** `urlencoding::encode`. */
  function Encode(s: string): (r: string)
    ensures |r| >= |s|
    ensures forall i :: 0 <= i < |r| ==> IsUnreserved(r[i]) || r[i] == '%'
    ensures (forall i :: 0 <= i < |s| ==> IsUnreserved(s[i])) ==> r == s
  {
    if |s| == 0 then "" else EncodeChar(s[0]) + Encode(s[1..])
  }

  /** Encoding works character by character. */
  lemma {:induction false} EncodeConcat(a: string, b: string)
    ensures Encode(a + b) == Encode(a) + Encode(b)
    decreases |a|
  {
    if |a| > 0 {
      var c, t := a[0], a[1..];
      calc {
        Encode(a + b);
        { assert a + b == [c] + (t + b); }
        Encode([c] + (t + b));
        { EncodeCons(c, t + b); }
        EncodeChar(c) + Encode(t + b);
        { EncodeConcat(t, b); }
        EncodeChar(c) + (Encode(t) + Encode(b));
        (EncodeChar(c) + Encode(t)) + Encode(b);
        { EncodeCons(c, t); }
        Encode([c] + t) + Encode(b);
        { assert a == [c] + t; }
        Encode(a) + Encode(b);
      }
    } else {
      assert a + b == b;
    }
  }

  lemma EncodeCons(c: char, s: string)
    ensures Encode([c] + s) == EncodeChar(c) + Encode(s)
  {
    assert ([c] + s)[1..] == s;
  }

  /** An encoded string carries no path, query or whitespace separator. */
  lemma EncodeHasNoSeparators(s: string)
    ensures '/' !in Encode(s) && '?' !in Encode(s) && '&' !in Encode(s)
    ensures NoWhitespace(Encode(s))
  {
    var r := Encode(s);
    forall i | 0 <= i < |r| ensures r[i] != '/' && r[i] != '?' && r[i] != '&' && !IsWhitespace(r[i]) {
      assert IsUnreserved(r[i]) || r[i] == '%';
    }
  }

  /** `decode` undoes `Encode` on every string: the property `urlencoding::decode`
      has on the strings `urlencoding::encode` produces. */
  ghost predicate InvertsEncode(decode: string -> Option<string>) {
    forall s :: decode(Encode(s)) == Some(s)
  }
}
