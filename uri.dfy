/**
 * `encodeURIComponent` and `decodeURIComponent` (section 19.2.6 of ECMA-262,
 * with its Encode and Decode abstract operations): characters outside the unreserved set are written as the
 * `%XY` groups of their UTF-8 bytes, with upper-case hexadecimal digits.
 */
module Uri {
  import opened Options

  type Byte = b: int | 0 <= b < 256

  /** The characters `encodeURIComponent` leaves as they are. */
  predicate IsUnreserved(c: char)
  {
    ('A' <= c <= 'Z') || ('a' <= c <= 'z') || ('0' <= c <= '9')
    || c == '-' || c == '_' || c == '.' || c == '!' || c == '~'
    || c == '*' || c == '\'' || c == '(' || c == ')'
  }

  /** The value of a hexadecimal digit of either case. */
  function HexValue(c: char): (r: Option<nat>)
    ensures r.Some? ==> r.value < 16
  {
    if '0' <= c <= '9' then Some(c as int - '0' as int)
    else if 'A' <= c <= 'F' then Some(c as int - 'A' as int + 10)
    else if 'a' <= c <= 'f' then Some(c as int - 'a' as int + 10)
    else None
  }

  /** The upper-case hexadecimal digit of `d`. */
  function HexDigit(d: nat): (c: char)
    requires d < 16
    ensures HexValue(c) == Some(d)
    ensures IsUnreserved(c)
  {
    if d < 10 then ('0' as int + d) as char else ('A' as int + d - 10) as char
  }

  /** The `%XY` groups of a byte sequence. */
  function Percent(bytes: seq<Byte>): (s: string)
    ensures |s| == 3 * |bytes|
    ensures forall i :: 0 <= i < |s| ==> IsUnreserved(s[i]) || s[i] == '%'
  {
    if bytes == [] then []
    else
      var s := ['%', HexDigit(bytes[0] / 16), HexDigit(bytes[0] % 16)] + Percent(bytes[1..]);
      assert forall i :: 3 <= i < |s| ==> s[i] == Percent(bytes[1..])[i - 3];
      s
  }

  /** The UTF-8 encoding of a code point: one to four bytes. */
  function Utf8(c: char): (bytes: seq<Byte>)
    ensures 1 <= |bytes| <= 4
  {
    var n := c as int;
    if n < 0x80 then [n]
    else if n < 0x800 then [0xC0 + n / 64, 0x80 + n % 64]
    else if n < 0x10000 then [0xE0 + n / 64 / 64, 0x80 + n / 64 % 64, 0x80 + n % 64]
    else [0xF0 + n / 64 / 64 / 64, 0x80 + n / 64 / 64 % 64, 0x80 + n / 64 % 64, 0x80 + n % 64]
  }

  function EncodeChar(c: char): (s: string)
  {
    if IsUnreserved(c) then [c] else Percent(Utf8(c))
  }

  /** `encodeURIComponent(s)`. */
  function Encode(s: string): (r: string)
    ensures |r| >= |s|
  {
    if s == [] then [] else EncodeChar(s[0]) + Encode(s[1..])
  }

  /** Text made of unreserved characters and `%` only. */
  predicate IsSafe(s: string)
  {
    forall i :: 0 <= i < |s| ==> IsUnreserved(s[i]) || s[i] == '%'
  }

  lemma SafeConcat(a: string, b: string)
    requires IsSafe(a) && IsSafe(b)
    ensures IsSafe(a + b)
  {
    forall i | 0 <= i < |a + b|
      ensures IsUnreserved((a + b)[i]) || (a + b)[i] == '%'
    {
      if i < |a| {
        assert (a + b)[i] == a[i];
      } else {
        assert (a + b)[i] == b[i - |a|];
      }
    }
  }

  /**
   * The result holds only unreserved characters and `%`: no `&`, `=` or `#`
   * that could end a query parameter's value.
   */
  lemma {:induction false} EncodeAlphabet(s: string)
    ensures IsSafe(Encode(s))
  {
    if s != [] {
      EncodeAlphabet(s[1..]);
      assert IsSafe(EncodeChar(s[0]));
      SafeConcat(EncodeChar(s[0]), Encode(s[1..]));
    }
  }

  /** Text made only of unreserved characters is encoded as itself. */
  lemma {:induction false} EncodeUnreserved(s: string)
    requires forall i :: 0 <= i < |s| ==> IsUnreserved(s[i])
    ensures Encode(s) == s
  {
    if s != [] {
      EncodeUnreserved(s[1..]);
      assert [s[0]] + s[1..] == s;
    }
  }

  /** Reads `n` groups `%XY` from the front of `s`. */
  function ReadBytes(s: string, n: nat): (r: Option<seq<Byte>>)
    ensures r.Some? ==> |r.value| == n && 3 * n <= |s|
  {
    if n == 0 then Some([])
    else if |s| < 3 || s[0] != '%' || HexValue(s[1]).None? || HexValue(s[2]).None? then None
    else
      var rest := ReadBytes(s[3..], n - 1);
      if rest.None? then None
      else Some([HexValue(s[1]).value * 16 + HexValue(s[2]).value] + rest.value)
  }

  /** Reading several groups starts with the byte that reading one group gives. */
  lemma ReadFirstByte(s: string, n: nat)
    requires n > 0 && ReadBytes(s, n).Some?
    ensures ReadBytes(s, 1) == Some([ReadBytes(s, n).value[0]])
  {
    var b: Byte := ReadBytes(s, n).value[0];
    assert ReadBytes(s[3..], 0) == Some([]);
    assert [b] + [] == [b];
  }

  /** How many bytes the UTF-8 sequence a lead byte starts has; 0 when it cannot start one. */
  function LeadLength(b: Byte): (n: nat)
    ensures n <= 4
  {
    if b < 0x80 then 1
    else if 0xC0 <= b < 0xE0 then 2
    else if 0xE0 <= b < 0xF0 then 3
    else if 0xF0 <= b < 0xF8 then 4
    else 0
  }

  predicate IsContinuation(b: Byte) { 0x80 <= b < 0xC0 }

  predicate IsScalarValue(v: int) { 0 <= v < 0xD800 || 0xE000 <= v < 0x110000 }

  /**
   * The code point a complete UTF-8 sequence encodes, or `None` when the
   * sequence is not the shortest encoding of a Unicode scalar value.
   */
  function CodePoint(bytes: seq<Byte>): (r: Option<int>)
    requires 1 <= |bytes| <= 4 && LeadLength(bytes[0]) == |bytes|
    ensures r.Some? ==> IsScalarValue(r.value)
  {
    if |bytes| == 1 then Some(bytes[0])
    else if exists i :: 1 <= i < |bytes| && !IsContinuation(bytes[i]) then None
    else if |bytes| == 2 then
      var v := (bytes[0] as int - 0xC0) * 64 + (bytes[1] as int - 0x80);
      if v < 0x80 then None else Some(v)
    else if |bytes| == 3 then
      var v := ((bytes[0] as int - 0xE0) * 64 + (bytes[1] as int - 0x80)) * 64 + (bytes[2] as int - 0x80);
      if v < 0x800 || 0xD800 <= v < 0xE000 then None else Some(v)
    else
      var v := (((bytes[0] as int - 0xF0) * 64 + (bytes[1] as int - 0x80)) * 64 + (bytes[2] as int - 0x80)) * 64
        + (bytes[3] as int - 0x80);
      if v < 0x10000 || v >= 0x110000 then None else Some(v)
  }

  function Prepend(c: char, r: Option<string>): Option<string>
  {
    match r
    case None => None
    case Some(t) => Some([c] + t)
  }

  /** `decodeURIComponent(s)`; `None` stands for the `URIError` it throws on a malformed escape. */
  function Decode(s: string): (r: Option<string>)
    decreases |s|
  {
    if s == [] then Some([])
    else if s[0] != '%' then Prepend(s[0], Decode(s[1..]))
    else match ReadBytes(s, 1)
      case None => None
      case Some(lead) =>
        var n := LeadLength(lead[0]);
        if n == 0 then None
        else match ReadBytes(s, n)
          case None => None
          case Some(bytes) =>
            ReadFirstByte(s, n);
            match CodePoint(bytes)
            case None => None
            case Some(v) => Prepend(v as char, Decode(s[3 * n..]))
  }

  /** Reading `%XY` groups gives back the bytes they were written from. */
  lemma {:induction false} ReadPercent(bytes: seq<Byte>, rest: string, k: nat)
    requires k <= |bytes|
    ensures ReadBytes(Percent(bytes) + rest, k) == Some(bytes[..k])
  {
    if k > 0 {
      var s := Percent(bytes) + rest;
      var b := bytes[0];
      assert s[0] == '%' && s[1] == HexDigit(b / 16) && s[2] == HexDigit(b % 16);
      assert s[3..] == Percent(bytes[1..]) + rest;
      ReadPercent(bytes[1..], rest, k - 1);
      assert bytes[..k] == [b] + bytes[1..][..k - 1];
    }
  }

  /** The lead byte of a UTF-8 encoding announces its length. */
  lemma Utf8Lead(c: char)
    ensures LeadLength(Utf8(c)[0]) == |Utf8(c)|
  {
  }

  /** Decoding the UTF-8 encoding of a code point gives back the code point. */
  lemma Utf8CodePoint(c: char)
    ensures CodePoint(Utf8(c)) == Some(c as int)
  {
    var n := c as int;
    var bytes := Utf8(c);
    Utf8Lead(c);
    if n >= 0x80 {
      assert forall i :: 1 <= i < |bytes| ==> IsContinuation(bytes[i]);
    }
  }

  lemma DecodeEncodeChar(c: char, rest: string)
    ensures Decode(EncodeChar(c) + rest) == Prepend(c, Decode(rest))
  {
    var s := EncodeChar(c) + rest;
    if IsUnreserved(c) {
      assert s[0] == c && s[1..] == rest;
    } else {
      var bytes := Utf8(c);
      var n := |bytes|;
      ReadPercent(bytes, rest, 1);
      ReadPercent(bytes, rest, n);
      assert bytes[..n] == bytes;
      Utf8Lead(c);
      Utf8CodePoint(c);
      assert s[3 * n..] == rest;
    }
  }

  /** `decodeURIComponent` undoes `encodeURIComponent`. */
  lemma {:induction false} DecodeEncode(s: string)
    ensures Decode(Encode(s)) == Some(s)
  {
    if s != [] {
      DecodeEncodeChar(s[0], Encode(s[1..]));
      DecodeEncode(s[1..]);
      assert [s[0]] + s[1..] == s;
    }
  }
}
