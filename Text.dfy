/** String primitives the source borrows from JavaScript and Python:
    `trim`/`strip`, `startsWith`, `split`, `join`, ASCII lower-casing and the
    decimal rendering used in template literals. */
module Text {
  import opened Wrappers

  /** The two whitespace sets in play. JavaScript's `trim`, the regex class `\s`
      and `parseInt` use ECMAScript WhiteSpace plus LineTerminator; Python's
      `str.strip()` uses `str.isspace`. They differ on U+001C..U+001F and U+0085
      (Python only) and U+FEFF (JavaScript only). */
  datatype Blanks = JsBlanks | PyBlanks

  predicate SharedBlank(c: char)
  {
    c == '\t' || c == '\n' || c == '\U{0B}' || c == '\U{0C}' || c == '\r' || c == ' '
    || c == '\U{A0}' || c == '\U{1680}' || ('\U{2000}' <= c <= '\U{200A}')
    || c == '\U{2028}' || c == '\U{2029}' || c == '\U{202F}' || c == '\U{205F}'
    || c == '\U{3000}'
  }

  predicate IsBlank(w: Blanks, c: char)
  {
    match w
    case JsBlanks => SharedBlank(c) || c == '\U{FEFF}'
    case PyBlanks => SharedBlank(c) || ('\U{1C}' <= c <= '\U{1F}') || c == '\U{85}'
  }

  /** Removes the leading run of blanks. */
  function TrimStart(w: Blanks, s: string): (r: string)
    ensures |r| <= |s|
    ensures r == [] || !IsBlank(w, r[0])
    ensures s != [] && IsBlank(w, s[0]) ==> |r| < |s|
  {
    if s != [] && IsBlank(w, s[0]) then TrimStart(w, s[1..]) else s
  }

  /** `TrimStart` removes a prefix made of blanks only. */
  lemma {:induction false} TrimStartShape(w: Blanks, s: string)
    ensures var r := TrimStart(w, s);
      r == s[|s| - |r|..] && forall k :: 0 <= k < |s| - |r| ==> IsBlank(w, s[k])
    decreases |s|
  {
    if s != [] && IsBlank(w, s[0]) {
      TrimStartShape(w, s[1..]);
    }
  }

  /** Removes the trailing run of blanks. */
  function TrimEnd(w: Blanks, s: string): (r: string)
    ensures |r| <= |s|
    ensures r == [] || !IsBlank(w, r[|r| - 1])
  {
    if s != [] && IsBlank(w, s[|s| - 1]) then TrimEnd(w, s[..|s| - 1]) else s
  }

  /** `TrimEnd` removes a suffix made of blanks only. */
  lemma {:induction false} TrimEndShape(w: Blanks, s: string)
    ensures var r := TrimEnd(w, s);
      r == s[..|r|] && forall k :: |r| <= k < |s| ==> IsBlank(w, s[k])
    decreases |s|
  {
    if s != [] && IsBlank(w, s[|s| - 1]) {
      TrimEndShape(w, s[..|s| - 1]);
    }
  }

  function Trim(w: Blanks, s: string): string
  {
    TrimStart(w, TrimEnd(w, s))
  }

  /** JavaScript `String.prototype.trim`. */
  function JsTrim(s: string): string { Trim(JsBlanks, s) }

  /** Python `str.strip()` with no argument. */
  function PyStrip(s: string): string { Trim(PyBlanks, s) }

  /** A trimmed string has no blank at either end. */
  lemma TrimmedEnds(w: Blanks, s: string)
    ensures var r := Trim(w, s); r == [] || (!IsBlank(w, r[0]) && !IsBlank(w, r[|r| - 1]))
  {
    var e := TrimEnd(w, s);
    var r := TrimStart(w, e);
    TrimStartShape(w, e);
    if r != [] {
      assert r[|r| - 1] == e[|e| - 1];
    }
  }

  /** Trimming the end of `p + y` only reaches into `p` when `y` is all blank. */
  lemma {:induction false} TrimEndAppend(w: Blanks, p: string, y: string)
    ensures TrimEnd(w, p + y) == if TrimEnd(w, y) == [] then TrimEnd(w, p) else p + TrimEnd(w, y)
    decreases |y|
  {
    if y == [] {
      assert p + y == p;
    } else if IsBlank(w, y[|y| - 1]) {
      assert (p + y)[..|p + y| - 1] == p + y[..|y| - 1];
      TrimEndAppend(w, p, y[..|y| - 1]);
    }
  }

  /** A blank prefix disappears under `TrimStart`. */
  lemma {:induction false} TrimStartBlankPrefix(w: Blanks, p: string, y: string)
    requires forall k :: 0 <= k < |p| ==> IsBlank(w, p[k])
    ensures TrimStart(w, p + y) == TrimStart(w, y)
  {
    if p != [] {
      assert (p + y)[1..] == p[1..] + y;
      TrimStartBlankPrefix(w, p[1..], y);
    } else {
      assert p + y == y;
    }
  }

  /** A string without blanks at its ends is its own trim. */
  lemma TrimNoop(w: Blanks, s: string)
    requires s == [] || (!IsBlank(w, s[0]) && !IsBlank(w, s[|s| - 1]))
    ensures Trim(w, s) == s
  {
  }

  /** A line `tag + " " + q` whose two-character tag is not blank: JavaScript's
      trim keeps the tag at the front, and trimming what follows the tag gives
      back the trim of `q`. This is what both line scanners do with a
      `T:`/`D:` line. */
  lemma TaggedLine(tag: string, q: string)
    requires |tag| == 2 && !IsBlank(JsBlanks, tag[0]) && !IsBlank(JsBlanks, tag[1])
    ensures var t := JsTrim(tag + " " + q);
      StartsWith(t, tag) && t != [] && JsTrim(t[2..]) == JsTrim(q)
  {
    var w := JsBlanks;
    var y := " " + q;
    assert tag + " " + q == tag + y;
    TrimEndAppend(w, tag, y);
    assert TrimEnd(w, tag) == tag;
    var e := TrimEnd(w, tag + y);
    assert e == tag + TrimEnd(w, y);
    assert TrimStart(w, e) == e;
    var rest := e[2..];
    assert rest == TrimEnd(w, y);
    assert TrimEnd(w, rest) == rest;
    TrimEndAppend(w, " ", q);
    if TrimEnd(w, q) == [] {
      assert TrimEnd(w, " ") == [];
    } else {
      TrimStartBlankPrefix(w, " ", TrimEnd(w, q));
    }
  }

  /** JavaScript `s.startsWith(p)`. */
  predicate StartsWith(s: string, p: string)
  {
    |p| <= |s| && s[..|p|] == p
  }

  /** `sep` occurs in `s` starting at position `j`. */
  predicate OccursAt(s: string, sep: string, j: nat)
  {
    j + |sep| <= |s| && s[j..j + |sep|] == sep
  }

  lemma OccursShift(s: string, sep: string, j: nat)
    requires s != []
    ensures OccursAt(s, sep, j + 1) <==> OccursAt(s[1..], sep, j)
  {
    if j + 1 + |sep| <= |s| {
      assert s[j + 1..j + 1 + |sep|] == s[1..][j..j + |sep|];
    }
  }

  /** The first position at which `sep` occurs in `s`, scanning left to right. */
  function IndexOf(s: string, sep: string): (r: Option<nat>)
    requires |sep| > 0
    ensures r.Some? ==> OccursAt(s, sep, r.value)
    decreases |s|
  {
    if |s| < |sep| then None
    else if s[..|sep|] == sep then Some(0)
    else match IndexOf(s[1..], sep)
      case None => None
      case Some(i) => OccursShift(s, sep, i); Some(i + 1)
  }

  /** `IndexOf` finds the leftmost occurrence, and reports `None` only when
      there is none at all. */
  lemma {:induction false} IndexOfLeftmost(s: string, sep: string)
    requires |sep| > 0
    ensures IndexOf(s, sep).None? ==> forall j: nat :: !OccursAt(s, sep, j)
    ensures IndexOf(s, sep).Some? ==> forall j: nat :: j < IndexOf(s, sep).value ==> !OccursAt(s, sep, j)
    decreases |s|
  {
    if |s| < |sep| {
    } else if s[..|sep|] == sep {
    } else {
      IndexOfLeftmost(s[1..], sep);
      forall j: nat ensures OccursAt(s, sep, j) ==> j > 0 && OccursAt(s[1..], sep, j - 1) {
        if j > 0 { OccursShift(s, sep, j - 1); }
      }
    }
  }

  /** JavaScript `s.split(sep)` for a non-empty separator: the pieces between
      non-overlapping occurrences found left to right. */
  function Split(s: string, sep: string): (r: seq<string>)
    requires |sep| > 0
    ensures |r| >= 1
    decreases |s|
  {
    match IndexOf(s, sep)
    case None => [s]
    case Some(i) => [s[..i]] + Split(s[i + |sep|..], sep)
  }

  /** Python `sep.join(parts)` (and JavaScript `parts.join(sep)`). */
  function Join(parts: seq<string>, sep: string): string
  {
    if parts == [] then ""
    else if |parts| == 1 then parts[0]
    else parts[0] + sep + Join(parts[1..], sep)
  }

  lemma JoinCons(x: string, tail: seq<string>, sep: string)
    requires tail != []
    ensures Join([x] + tail, sep) == x + sep + Join(tail, sep)
  {
    assert ([x] + tail)[1..] == tail;
  }

  /** Splitting and re-joining on the same separator gives the string back. */
  lemma {:induction false} JoinSplit(s: string, sep: string)
    requires |sep| > 0
    ensures Join(Split(s, sep), sep) == s
    decreases |s|
  {
    var r := IndexOf(s, sep);
    if r.Some? {
      var i := r.value;
      var rest := s[i + |sep|..];
      var tail := Split(rest, sep);
      assert Split(s, sep) == [s[..i]] + tail;
      JoinSplit(rest, sep);
      JoinCons(s[..i], tail, sep);
      PieceSepRest(s, sep, i);
    }
  }

  lemma PieceSepRest(s: string, sep: string, i: nat)
    requires OccursAt(s, sep, i)
    ensures s == s[..i] + sep + s[i + |sep|..]
  {
    assert s[i..i + |sep|] == sep;
    assert s == s[..i] + s[i..i + |sep|] + s[i + |sep|..];
  }

  lemma OccursInPrefix(s: string, sep: string, i: nat, j: nat)
    requires i <= |s|
    ensures OccursAt(s[..i], sep, j) ==> OccursAt(s, sep, j)
  {
    if OccursAt(s[..i], sep, j) {
      assert s[..i][j..j + |sep|] == s[j..j + |sep|];
    }
  }

  /** No piece of a split contains the separator. */
  lemma {:induction false} SplitPiecesFree(s: string, sep: string, k: nat, j: nat)
    requires |sep| > 0 && k < |Split(s, sep)|
    ensures !OccursAt(Split(s, sep)[k], sep, j)
    decreases |s|
  {
    IndexOfLeftmost(s, sep);
    var r := IndexOf(s, sep);
    if r.Some? {
      var i := r.value;
      var rest := s[i + |sep|..];
      assert Split(s, sep) == [s[..i]] + Split(rest, sep);
      if k == 0 {
        OccursInPrefix(s, sep, i, j);
      } else {
        assert Split(s, sep)[k] == Split(rest, sep)[k - 1];
        SplitPiecesFree(rest, sep, k - 1, j);
      }
    }
  }

  /** If `sep` does not start anywhere inside `a` in `a + sep + b`, the split
      cuts exactly after `a`. */
  lemma SplitAt(a: string, sep: string, b: string)
    requires |sep| > 0
    requires forall j: nat :: j < |a| ==> !OccursAt(a + sep + b, sep, j)
    ensures Split(a + sep + b, sep) == [a] + Split(b, sep)
  {
    var s := a + sep + b;
    IndexOfAt(a, sep, b);
    assert s[..|a|] == a && s[|a| + |sep|..] == b;
  }

  lemma {:induction false} IndexOfAt(a: string, sep: string, b: string)
    requires |sep| > 0
    requires forall j: nat :: j < |a| ==> !OccursAt(a + sep + b, sep, j)
    ensures IndexOf(a + sep + b, sep) == Some(|a|)
  {
    var s := a + sep + b;
    if a == [] {
      assert s[..|sep|] == sep;
    } else {
      assert !OccursAt(s, sep, 0);
      assert s[..|sep|] == s[0..0 + |sep|];
      assert s[1..] == a[1..] + sep + b;
      forall j: nat | j < |a[1..]| ensures !OccursAt(a[1..] + sep + b, sep, j) {
        OccursShift(s, sep, j);
      }
      IndexOfAt(a[1..], sep, b);
    }
  }

  /** A string without any occurrence of the separator splits into itself. */
  lemma SplitWhole(s: string, sep: string)
    requires |sep| > 0
    requires forall j: nat :: !OccursAt(s, sep, j)
    ensures Split(s, sep) == [s]
  {
  }

  /** ASCII lower-casing of one character. */
  function LowerChar(c: char): char
  {
    if 'A' <= c <= 'Z' then (c as int - 'A' as int + 'a' as int) as char else c
  }

  /** `s.toLowerCase()`, restricted to the ASCII letters. */
  function Lower(s: string): (r: string)
    ensures |r| == |s| && forall k :: 0 <= k < |s| ==> r[k] == LowerChar(s[k])
  {
    seq(|s|, k requires 0 <= k < |s| => LowerChar(s[k]))
  }

  function DigitChar(d: nat): char
    requires d < 10
  {
    ('0' as int + d) as char
  }

  predicate IsDigit(c: char)
  {
    '0' <= c <= '9'
  }

  /** The decimal rendering of a natural number, as `${n}` produces it. */
  function Decimal(n: nat): (r: string)
    ensures |r| >= 1 && forall k :: 0 <= k < |r| ==> IsDigit(r[k])
  {
    if n < 10 then [DigitChar(n)] else Decimal(n / 10) + [DigitChar(n % 10)]
  }

  function DigitValue(c: char): nat
    requires IsDigit(c)
  {
    c as int - '0' as int
  }

  /** The value of a string of decimal digits. */
  function DigitsValue(ds: string): nat
    requires forall k :: 0 <= k < |ds| ==> IsDigit(ds[k])
  {
    if ds == [] then 0
    else DigitsValue(ds[..|ds| - 1]) * 10 + DigitValue(ds[|ds| - 1])
  }

  /** Reading a rendered number back gives the number. */
  lemma {:induction false} DecimalValue(n: nat)
    ensures DigitsValue(Decimal(n)) == n
  {
    if n >= 10 {
      DecimalValue(n / 10);
      var d := Decimal(n);
      assert d[..|d| - 1] == Decimal(n / 10);
    }
  }

  /** Different numbers render differently. */
  lemma DecimalInjective(m: nat, n: nat)
    requires Decimal(m) == Decimal(n)
    ensures m == n
  {
    DecimalValue(m);
    DecimalValue(n);
  }
}
