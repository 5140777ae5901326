/** The JavaScript number operations the source applies to indices and to the
    stored streak: addition, the `%` operator and `parseInt(s, 10)`. Only the
    integer values and NaN are represented. */
module JsNumber {
  import opened Text

  datatype Num = Int(v: int) | NaN

  function Add(a: Num, b: Num): (r: Num)
    ensures r.Int? <==> a.Int? && b.Int?
    ensures r.Int? ==> r.v == a.v + b.v
  {
    if a.Int? && b.Int? then Int(a.v + b.v) else NaN
  }

  function Abs(x: int): nat { if x < 0 then -x else x }

  /** `a % b`: the remainder truncates toward zero, so it takes the sign of the
      dividend; a zero divisor or a NaN operand gives NaN. */
  function Rem(a: Num, b: Num): (r: Num)
    ensures r.Int? <==> a.Int? && b.Int? && b.v != 0
    ensures r.Int? ==> Abs(r.v) < Abs(b.v)
    ensures r.Int? && a.v >= 0 ==> r.v >= 0 && r.v == a.v % Abs(b.v)
    ensures r.Int? && a.v <= 0 ==> r.v <= 0
  {
    if a.NaN? || b.NaN? || b.v == 0 then NaN
    else if a.v >= 0 then Int(a.v % Abs(b.v))
    else Int(-((-a.v) % Abs(b.v)))
  }

  /** The longest prefix of decimal digits. */
  function LeadingDigits(s: string): (r: string)
    ensures |r| <= |s| && r == s[..|r|]
    ensures forall k :: 0 <= k < |r| ==> IsDigit(r[k])
    ensures |r| == |s| || !IsDigit(s[|r|])
  {
    if s != [] && IsDigit(s[0]) then [s[0]] + LeadingDigits(s[1..]) else []
  }

  /** `parseInt(s, 10)`: skips leading white space, reads an optional sign and
      then the longest run of digits; NaN when there are no digits. */
  function ParseInt(s: string): (r: Num)
    ensures r.Int? <==> (var t := TrimStart(JsBlanks, s);
                         var u := if t != [] && (t[0] == '+' || t[0] == '-') then t[1..] else t;
                         u != [] && IsDigit(u[0]))
  {
    var t := TrimStart(JsBlanks, s);
    var negative := t != [] && t[0] == '-';
    var unsigned := if t != [] && (t[0] == '+' || t[0] == '-') then t[1..] else t;
    var ds := LeadingDigits(unsigned);
    if ds == [] then NaN
    else if negative then Int(-(DigitsValue(ds) as int))
    else Int(DigitsValue(ds))
  }

  lemma {:induction false} AllDigitsLead(s: string)
    requires forall k :: 0 <= k < |s| ==> IsDigit(s[k])
    ensures LeadingDigits(s) == s
  {
    if s != [] {
      AllDigitsLead(s[1..]);
    }
  }

  /** `parseInt` reads back what `${n}` wrote, and digits followed by anything
      that is not a digit are read up to that point. */
  lemma ParseDecimal(n: nat, junk: string)
    requires junk == [] || !IsDigit(junk[0])
    ensures ParseInt(Decimal(n) + junk) == Int(n)
  {
    var d := Decimal(n);
    var s := d + junk;
    assert TrimStart(JsBlanks, s) == s by {
      assert s[0] == d[0];
      assert IsDigit(s[0]);
    }
    LeadingDigitsStop(d, junk);
    DecimalValue(n);
  }

  /** `parseInt` of white space, an optional sign, a run of digits and text
      that does not start with a digit is the signed base-10 value of the
      digits. */
  lemma ParseIntReads(ws: string, sign: string, ds: string, rest: string)
    requires forall k :: 0 <= k < |ws| ==> IsBlank(JsBlanks, ws[k])
    requires sign == "" || sign == "+" || sign == "-"
    requires ds != [] && forall k :: 0 <= k < |ds| ==> IsDigit(ds[k])
    requires rest == [] || !IsDigit(rest[0])
    ensures ParseInt(ws + sign + ds + rest)
      == Int(if sign == "-" then -(DigitsValue(ds) as int) else DigitsValue(ds))
  {
    var t := sign + ds + rest;
    Regroup(ws, sign, ds, rest);
    SignedStart(sign, ds, rest);
    TrimStartBlankPrefix(JsBlanks, ws, t);
    ParseSignedDigits(ws + t, sign, ds, rest);
  }

  lemma Regroup(a: string, b: string, c: string, d: string)
    ensures a + b + c + d == a + (b + c + d)
  {
  }

  /** A sign or a digit is not white space, so trimming stops there. */
  lemma SignedStart(sign: string, ds: string, rest: string)
    requires sign == "" || sign == "+" || sign == "-"
    requires ds != [] && IsDigit(ds[0])
    ensures TrimStart(JsBlanks, sign + ds + rest) == sign + ds + rest
  {
    var t := sign + ds + rest;
    assert t[0] == if sign == "" then ds[0] else sign[0];
  }

  /** What `parseInt` reads once the white space is gone. */
  lemma ParseSignedDigits(s: string, sign: string, ds: string, rest: string)
    requires sign == "" || sign == "+" || sign == "-"
    requires ds != [] && forall k :: 0 <= k < |ds| ==> IsDigit(ds[k])
    requires rest == [] || !IsDigit(rest[0])
    requires TrimStart(JsBlanks, s) == sign + ds + rest
    ensures ParseInt(s) == Int(if sign == "-" then -(DigitsValue(ds) as int) else DigitsValue(ds))
  {
    LeadingDigitsStop(ds, rest);
    if sign == "" {
      assert sign + ds + rest == ds + rest;
      ParseUnsigned(s, ds, rest);
    } else if sign == "+" {
      ParseWithSign(s, '+', ds, rest);
    } else {
      ParseWithSign(s, '-', ds, rest);
    }
  }

  lemma ParseUnsigned(s: string, ds: string, rest: string)
    requires ds != [] && forall k :: 0 <= k < |ds| ==> IsDigit(ds[k])
    requires LeadingDigits(ds + rest) == ds
    requires TrimStart(JsBlanks, s) == ds + rest
    ensures ParseInt(s) == Int(DigitsValue(ds))
  {
    assert (ds + rest)[0] == ds[0];
  }

  lemma ParseWithSign(s: string, c: char, ds: string, rest: string)
    requires c == '+' || c == '-'
    requires ds != [] && forall k :: 0 <= k < |ds| ==> IsDigit(ds[k])
    requires LeadingDigits(ds + rest) == ds
    requires TrimStart(JsBlanks, s) == [c] + ds + rest
    ensures ParseInt(s) == Int(if c == '-' then -(DigitsValue(ds) as int) else DigitsValue(ds))
  {
    var t := [c] + ds + rest;
    assert t[0] == c && t[1..] == ds + rest;
  }

  lemma {:induction false} LeadingDigitsStop(d: string, junk: string)
    requires forall k :: 0 <= k < |d| ==> IsDigit(d[k])
    requires junk == [] || !IsDigit(junk[0])
    ensures LeadingDigits(d + junk) == d
  {
    if d == [] {
      assert d + junk == junk;
    } else {
      assert (d + junk)[1..] == d[1..] + junk;
      LeadingDigitsStop(d[1..], junk);
    }
  }
}
