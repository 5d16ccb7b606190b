/** `urlencoding::encode`, the percent-encoding of path parameter values: the value's
    UTF-8 bytes, unreserved characters of section 2.3 of RFC 3986 kept, every other byte
    written as `%` and two upper-case hex digits (section 2.1 of RFC 3986). */
module PercentEncoding {
  import opened Wrappers

  type Byte = b: int | 0 <= b < 256

  /** The UTF-8 encoding of one Unicode scalar value. */
  function Utf8(c: char): (bs: seq<Byte>)
    ensures 1 <= |bs| <= 4
    ensures (|bs| == 1) <==> c as int < 0x80
    ensures |bs| == 1 ==> bs[0] == c as int
    ensures |bs| > 1 ==> forall i :: 0 <= i < |bs| ==> bs[i] >= 0x80
  {
    var n := c as int;
    if n < 0x80 then [n]
    else if n < 0x800 then [0xC0 + n / 0x40, 0x80 + n % 0x40]
    else if n < 0x1_0000 then [0xE0 + n / 0x1000, 0x80 + (n / 0x40) % 0x40, 0x80 + n % 0x40]
    else [0xF0 + n / 0x4_0000, 0x80 + (n / 0x1000) % 0x40, 0x80 + (n / 0x40) % 0x40, 0x80 + n % 0x40]
  }

  /** `str::as_bytes` */
  function Utf8Str(s: string): seq<Byte> {
    if s == [] then [] else Utf8(s[0]) + Utf8Str(s[1..])
  }

  /** The unreserved characters of section 2.3 of RFC 3986. */
  predicate IsUnreserved(c: char) {
    ('0' <= c <= '9') || ('A' <= c <= 'Z') || ('a' <= c <= 'z') || c == '-' || c == '.' || c == '_' || c == '~'
  }

  predicate IsUpperHex(c: char) {
    ('0' <= c <= '9') || ('A' <= c <= 'F')
  }

  function HexDigit(d: int): (c: char)
    requires 0 <= d < 16
    ensures IsUpperHex(c)
  {
    if d < 10 then (d + '0' as int) as char else (d - 10 + 'A' as int) as char
  }

  function EncodeByte(b: Byte): string {
    if IsUnreserved(b as char) then [b as char] else ['%', HexDigit(b / 16), HexDigit(b % 16)]
  }

  function EncodeBytes(bs: seq<Byte>): string {
    if bs == [] then "" else EncodeByte(bs[0]) + EncodeBytes(bs[1..])
  }

  /** `urlencoding::encode` */
  function Encode(s: string): string {
    EncodeBytes(Utf8Str(s))
  }

  /** A character that may appear in an encoded value. */
  predicate IsEncodedChar(c: char) {
    IsUnreserved(c) || c == '%'
  }

  // The decoder that undoes the encoding.

  function HexValue(c: char): Option<int> {
    if '0' <= c <= '9' then Some(c as int - '0' as int)
    else if 'A' <= c <= 'F' then Some(c as int - 'A' as int + 10)
    else if 'a' <= c <= 'f' then Some(c as int - 'a' as int + 10)
    else None
  }

  function DecodeBytes(s: string): Option<seq<Byte>> {
    if s == [] then Some([])
    else if s[0] == '%' then
      if |s| < 3 then None
      else match (HexValue(s[1]), HexValue(s[2]), DecodeBytes(s[3..]))
        case (Some(hi), Some(lo), Some(rest)) =>
          if 0 <= hi < 16 && 0 <= lo < 16 then Some([hi * 16 + lo] + rest) else None
        case _ => None
    else if IsUnreserved(s[0]) then
      match DecodeBytes(s[1..])
      case Some(rest) => Some([s[0] as int] + rest)
      case None => None
    else None
  }

  /** Decoding an encoded byte string gives the bytes back: the encoding loses nothing. */
  lemma {:induction false} DecodeEncodeBytes(bs: seq<Byte>)
    ensures DecodeBytes(EncodeBytes(bs)) == Some(bs)
  {
    if bs != [] {
      DecodeEncodeBytes(bs[1..]);
      var b := bs[0];
      var e := EncodeByte(b);
      var tail := EncodeBytes(bs[1..]);
      assert EncodeBytes(bs) == e + tail;
      if IsUnreserved(b as char) {
        var s := e + tail;
        assert s[0] == b as char && s[1..] == tail;
        assert DecodeBytes(s) == Some([b] + bs[1..]);
        assert [b] + bs[1..] == bs;
      } else {
        var s := e + tail;
        assert s[3..] == tail;
        HexValueOfDigit(b / 16);
        HexValueOfDigit(b % 16);
        assert s[1] == HexDigit(b / 16) && s[2] == HexDigit(b % 16);
        assert (b / 16) * 16 + b % 16 == b;
        assert DecodeBytes(s) == Some([b] + bs[1..]);
        assert [b] + bs[1..] == bs;
      }
    }
  }

  lemma HexValueOfDigit(d: int)
    requires 0 <= d < 16
    ensures HexValue(HexDigit(d)) == Some(d)
  {
  }

  /** The encoding of a path value is made of unreserved characters and `%`. */
  lemma {:induction false} EncodeBytesChars(bs: seq<Byte>)
    ensures forall i :: 0 <= i < |EncodeBytes(bs)| ==> IsEncodedChar(EncodeBytes(bs)[i])
  {
    if bs != [] {
      EncodeBytesChars(bs[1..]);
    }
  }

  /** Hence an encoded value contains no brace and no `/`. */
  lemma EncodeHasNoBrace(s: string)
    ensures '{' !in Encode(s) && '}' !in Encode(s) && '/' !in Encode(s)
  {
    EncodeBytesChars(Utf8Str(s));
  }

  /** Values made only of unreserved characters are left as they are. */
  lemma {:induction false} EncodeUnreserved(s: string)
    requires forall i :: 0 <= i < |s| ==> IsUnreserved(s[i])
    ensures Encode(s) == s
  {
    if s != [] {
      EncodeUnreserved(s[1..]);
      assert Utf8Str(s) == [s[0] as int] + Utf8Str(s[1..]);
      assert [s[0]] + s[1..] == s;
    }
  }

  /** Decoding the encoded value gives back the value's UTF-8 bytes. */
  lemma DecodeEncode(s: string)
    ensures DecodeBytes(Encode(s)) == Some(Utf8Str(s))
  {
    DecodeEncodeBytes(Utf8Str(s));
  }

  lemma SpaceExample()
    ensures Encode("a b") == "a%20b"
  {
    assert Utf8Str("a b") == [97, 32, 98] by {
      assert "a b"[1..] == " b" && " b"[1..] == "b" && "b"[1..] == "";
    }
    assert EncodeBytes([97, 32, 98]) == "a" + "%20" + "b" by {
      assert [97, 32, 98][1..] == [32, 98] && [32, 98][1..] == [98];
    }
  }
}
