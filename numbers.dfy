/**
 * `Number.parseInt(s, 10)` as section 19.2.5 of ECMA-262 defines it, and the
 * decimal `Number.prototype.toString` of a whole number. `None` stands for
 * `NaN`; the value is exact (no rounding past 20 digits), and `-0` is `0`.
 */
module Numbers {
  import opened Options

  /** The WhiteSpace and LineTerminator code points that `parseInt` trims from the front. */
  predicate IsStrWhiteSpace(c: char)
  {
    c == '\U{0009}' || c == '\U{000B}' || c == '\U{000C}' || c == '\U{FEFF}'
    || c == '\U{0020}' || c == '\U{00A0}' || c == '\U{1680}' || ('\U{2000}' <= c <= '\U{200A}')
    || c == '\U{202F}' || c == '\U{205F}' || c == '\U{3000}'
    || c == '\U{000A}' || c == '\U{000D}' || c == '\U{2028}' || c == '\U{2029}'
  }

  predicate IsDigit(c: char) { '0' <= c <= '9' }

  function DigitValue(c: char): (d: nat)
    ensures d < 10
    ensures IsDigit(c) ==> d == c as int - '0' as int
  {
    if IsDigit(c) then c as int - '0' as int else 0
  }

  function DigitChar(d: nat): (c: char)
    requires d < 10
    ensures IsDigit(c) && DigitValue(c) == d
  {
    ('0' as int + d) as char
  }

  /** `s` without its leading white space. */
  function TrimStart(s: string): (r: string)
    ensures r == [] || !IsStrWhiteSpace(r[0])
    ensures |r| <= |s|
  {
    if s == [] || !IsStrWhiteSpace(s[0]) then s else TrimStart(s[1..])
  }

  /** The length of the run of decimal digits `s` starts with. */
  function DigitRun(s: string): (n: nat)
    ensures n <= |s|
  {
    if s == [] || !IsDigit(s[0]) then 0 else 1 + DigitRun(s[1..])
  }

  /** The number a string of decimal digits denotes, most significant digit first. */
  function DigitsValue(z: string): (v: nat)
  {
    if z == [] then 0 else DigitsValue(z[..|z| - 1]) * 10 + DigitValue(z[|z| - 1])
  }

  /**
   * `Number.parseInt(s, 10)`: skip leading white space, take one optional sign,
   * then the longest run of decimal digits; `NaN` when that run is empty.
   */
  function ParseInt(s: string): (r: Option<int>)
    ensures s == [] ==> r == None
  {
    var t := TrimStart(s);
    var u := Unsigned(t);
    var n := DigitRun(u);
    if n == 0 then None
    else if |t| > 0 && t[0] == '-' then Some(-(DigitsValue(u[..n]) as int))
    else Some(DigitsValue(u[..n]))
  }

  /** The text after one leading `+` or `-`. */
  function Unsigned(t: string): (u: string)
    ensures |t| > 0 && (t[0] == '+' || t[0] == '-') ==> u == t[1..]
    ensures !(|t| > 0 && (t[0] == '+' || t[0] == '-')) ==> u == t
  {
    if |t| > 0 && (t[0] == '+' || t[0] == '-') then t[1..] else t
  }

  /** The decimal numeral of `n`, without leading zeros. */
  function Decimal(n: nat): (s: string)
    ensures |s| > 0
    ensures forall i :: 0 <= i < |s| ==> IsDigit(s[i])
    ensures |s| > 1 ==> s[0] != '0'
  {
    if n < 10 then [DigitChar(n)]
    else
      var s := Decimal(n / 10) + [DigitChar(n % 10)];
      assert s[0] == Decimal(n / 10)[0];
      s
  }

  /** Reading a decimal numeral gives back the number. */
  lemma {:induction false} DecimalValue(n: nat)
    ensures DigitsValue(Decimal(n)) == n
  {
    if n >= 10 {
      DecimalValue(n / 10);
      var s := Decimal(n);
      assert s[..|s| - 1] == Decimal(n / 10);
    }
  }

  /**
   * `parseInt` reads back what `toString` writes, and stops at the first
   * character that is not a digit: `"3abc"` and `"3.5"` read as 3.
   */
  lemma ParseDecimal(n: nat, rest: string)
    requires rest == [] || !IsDigit(rest[0])
    ensures ParseInt(Decimal(n) + rest) == Some(n)
  {
    var s := Decimal(n) + rest;
    assert TrimStart(s) == s;
    assert Unsigned(s) == s;
    DigitRunOfPrefix(Decimal(n), rest);
    assert s[..|Decimal(n)|] == Decimal(n);
    DecimalValue(n);
  }

  lemma {:induction false} DigitRunOfPrefix(z: string, rest: string)
    requires forall i :: 0 <= i < |z| ==> IsDigit(z[i])
    requires rest == [] || !IsDigit(rest[0])
    ensures DigitRun(z + rest) == |z|
  {
    if z != [] {
      assert (z + rest)[1..] == z[1..] + rest;
      DigitRunOfPrefix(z[1..], rest);
    } else {
      assert z + rest == rest;
    }
  }

  /** Leading white space does not change the result. */
  lemma ParseSkipsWhiteSpace(ws: string, s: string)
    requires forall i :: 0 <= i < |ws| ==> IsStrWhiteSpace(ws[i])
    ensures ParseInt(ws + s) == ParseInt(s)
  {
    TrimStartOfWhiteSpace(ws, s);
  }

  lemma {:induction false} TrimStartOfWhiteSpace(ws: string, s: string)
    requires forall i :: 0 <= i < |ws| ==> IsStrWhiteSpace(ws[i])
    ensures TrimStart(ws + s) == TrimStart(s)
  {
    if ws != [] {
      assert (ws + s)[1..] == ws[1..] + s;
      TrimStartOfWhiteSpace(ws[1..], s);
    } else {
      assert ws + s == s;
    }
  }

  /** A leading minus sign negates. */
  lemma ParseNegative(n: nat, rest: string)
    requires rest == [] || !IsDigit(rest[0])
    ensures ParseInt(['-'] + (Decimal(n) + rest)) == Some(-(n as int))
  {
    var u := Decimal(n) + rest;
    assert u != [] && IsDigit(u[0]) by {
      assert u[0] == Decimal(n)[0];
    }
    MinusNegates(u);
    ParseDecimal(n, rest);
  }

  lemma MinusNegates(u: string)
    requires u != [] && IsDigit(u[0])
    ensures ParseInt(u).Some?
    ensures ParseInt(['-'] + u) == Some(-ParseInt(u).value)
  {
    assert TrimStart(u) == u && Unsigned(u) == u;
    var s := ['-'] + u;
    assert TrimStart(s) == s;
    assert Unsigned(s) == u;
  }

  /** Trimming only removes characters from the front. */
  lemma {:induction false} TrimStartSuffix(s: string)
    ensures TrimStart(s) == s[|s| - |TrimStart(s)|..]
  {
    if s != [] && IsStrWhiteSpace(s[0]) {
      TrimStartSuffix(s[1..]);
    }
  }

  /** Text without a single decimal digit is `NaN`. */
  lemma ParseNaN(s: string)
    requires forall i :: 0 <= i < |s| ==> !IsDigit(s[i])
    ensures ParseInt(s) == None
  {
    var t := TrimStart(s);
    TrimStartSuffix(s);
    if Unsigned(t) != [] {
      assert Unsigned(t)[0] == s[|s| - |Unsigned(t)|];
    }
  }
}
