/** Python's built-in `int(text)` on base-10 text, and the decimal rendering
    that `str(n)` and `"{}".format(n)` produce. Only ASCII whitespace and ASCII
    digits are modelled. */
module PyInt {
  import opened Wrappers

  /** ASCII characters that Python's `str.isspace()` accepts, which `int()`
      strips from both ends. */
  predicate IsSpace(c: char)
  {
    c == ' ' || c == '\t' || c == '\n' || c == '\r' || c == '\U{B}' || c == '\U{C}'
    || ('\U{1C}' <= c <= '\U{1F}')
  }

  predicate IsDigit(c: char)
  {
    '0' <= c <= '9'
  }

  /** Drop leading whitespace. */
  function TrimStart(s: string): (r: string)
    ensures |r| <= |s| && r == s[|s| - |r|..]
    ensures forall i :: 0 <= i < |s| - |r| ==> IsSpace(s[i])
    ensures r == [] || !IsSpace(r[0])
    decreases |s|
  {
    if s != [] && IsSpace(s[0]) then TrimStart(s[1..]) else s
  }

  /** Drop trailing whitespace. */
  function TrimEnd(s: string): (r: string)
    ensures |r| <= |s| && r == s[..|r|]
    ensures forall i :: |r| <= i < |s| ==> IsSpace(s[i])
    ensures r == [] || !IsSpace(r[|r| - 1])
    decreases |s|
  {
    if s != [] && IsSpace(s[|s| - 1]) then TrimEnd(s[..|s| - 1]) else s
  }

  /** `s.strip()`: the whitespace `int()` ignores, and the whitespace a
      stripping form or serializer field removes. */
  function Strip(s: string): string
  {
    TrimEnd(TrimStart(s))
  }

  /** Text made only of whitespace. */
  predicate AllSpace(s: string)
  {
    forall i :: 0 <= i < |s| ==> IsSpace(s[i])
  }

  /** Helper: leading whitespace is dropped whatever follows it. */
  lemma {:induction false} TrimStartPad(p: string, x: string)
    requires AllSpace(p)
    ensures TrimStart(p + x) == TrimStart(x)
    decreases |p|
  {
    if p == [] {
      assert p + x == x;
    } else {
      assert (p + x)[0] == p[0];
      assert (p + x)[1..] == p[1..] + x;
      TrimStartPad(p[1..], x);
    }
  }

  /** Helper: trailing whitespace is dropped whatever precedes it. */
  lemma {:induction false} TrimEndPad(x: string, q: string)
    requires AllSpace(q)
    ensures TrimEnd(x + q) == TrimEnd(x)
    decreases |q|
  {
    if q == [] {
      assert x + q == x;
    } else {
      assert (x + q)[|x + q| - 1] == q[|q| - 1];
      assert (x + q)[..|x + q| - 1] == x + q[..|q| - 1];
      TrimEndPad(x, q[..|q| - 1]);
    }
  }

  /** Helper: trailing whitespace does not survive a strip from both ends. */
  lemma {:induction false} StripTail(s: string, q: string)
    requires AllSpace(q)
    ensures TrimEnd(TrimStart(s + q)) == TrimEnd(TrimStart(s))
    decreases |s|
  {
    if s == [] {
      assert s + q == q + [];
      TrimStartPad(q, []);
    } else if IsSpace(s[0]) {
      assert (s + q)[0] == s[0];
      assert (s + q)[1..] == s[1..] + q;
      StripTail(s[1..], q);
    } else {
      assert (s + q)[0] == s[0];
      TrimEndPad(s, q);
    }
  }

  /** Surrounding whitespace does not change what `strip` keeps. */
  lemma StripPadding(p: string, s: string, q: string)
    requires AllSpace(p) && AllSpace(q)
    ensures Strip(p + s + q) == Strip(s)
  {
    assert p + s + q == p + (s + q);
    TrimStartPad(p, s + q);
    StripTail(s, q);
  }

  /** `strip` leaves nothing exactly of blank text. */
  lemma StripBlank(s: string)
    ensures Strip(s) == [] <==> AllSpace(s)
  {
    if AllSpace(s) {
      assert [] + s + [] == s;
      StripPadding(s, [], []);
    } else {
      var i :| 0 <= i < |s| && !IsSpace(s[i]);
      StripKeeps(s, i);
    }
  }

  /** Stripping twice is stripping once. */
  lemma StripIdempotent(s: string)
    ensures Strip(Strip(s)) == Strip(s)
  {
    var t := Strip(s);
    if t != [] {
      var u := TrimStart(s);
      assert t[0] == u[0];
      StripUntouched(t);
    }
  }

  /** Digits, optionally grouped by single underscores between digits
      (`1_000`), as `int()` accepts since Python 3.6. */
  predicate IsDigitGroup(d: string)
  {
    && |d| >= 1
    && IsDigit(d[0])
    && IsDigit(d[|d| - 1])
    && (forall i :: 0 <= i < |d| ==> IsDigit(d[i]) || d[i] == '_')
    && (forall i, j :: 0 <= i < |d| && 0 <= j < |d| && j == i + 1 ==> !(d[i] == '_' && d[j] == '_'))
  }

  /** The value of a digit group, skipping underscores. */
  function DigitsValue(d: string): nat
    decreases |d|
  {
    if d == [] then 0
    else
      var last := d[|d| - 1];
      var prefix := DigitsValue(d[..|d| - 1]);
      if IsDigit(last) then prefix * 10 + (last as int - '0' as int) else prefix
  }

  /** CPython's default limit on the digits `int()` converts from text
      (`sys.int_info.default_max_str_digits`, since CPython 3.11 and the
      security releases 3.10.7, 3.9.14, 3.8.14 and 3.7.14). */
  const MaxStrDigits: nat := 4300

  /** The digits of a digit group, not counting underscores. */
  function DigitCount(d: string): (r: nat)
    ensures r <= |d|
    decreases |d|
  {
    if d == [] then 0
    else DigitCount(d[..|d| - 1]) + (if IsDigit(d[|d| - 1]) then 1 else 0)
  }

  /** Python's `int(text)`: `None` where Python raises `ValueError`, which
      includes more than `MaxStrDigits` digits. */
  function Parse(text: string): (r: Option<int>)
    ensures text == [] ==> r == None
  {
    var t := Strip(text);
    if t == [] then None
    else
      var negative := t[0] == '-';
      var body := if t[0] == '-' || t[0] == '+' then t[1..] else t;
      if IsDigitGroup(body) && DigitCount(body) <= MaxStrDigits then
        var v: int := DigitsValue(body);
        Some(if negative then -v else v)
      else None
  }

  /** `int()` accepts only whitespace, digits, signs and underscores, and
      needs at least one digit. */
  lemma ParseAlphabet(text: string)
    ensures Parse(text).Some? ==>
      forall i :: 0 <= i < |text| ==> IsSpace(text[i]) || IsDigit(text[i]) || text[i] in "+-_"
    ensures Parse(text).Some? ==> exists i :: 0 <= i < |text| && IsDigit(text[i])
  {
    if Parse(text).Some? {
      var u := TrimStart(text);
      var t := TrimEnd(u);
      var a := |text| - |u|;
      var body := if t[0] == '-' || t[0] == '+' then t[1..] else t;
      var b := |t| - |body|;
      forall i | 0 <= i < |text|
        ensures IsSpace(text[i]) || IsDigit(text[i]) || text[i] in "+-_"
      {
        if a <= i < a + |t| {
          assert text[i] == u[i - a] == t[i - a];
          if i - a >= b {
            assert t[i - a] == body[i - a - b];
          }
        }
      }
      assert text[a + b] == t[b] == body[0];
    }
  }

  /** `text` is whitespace `p`, then an optional sign, then a digit group
      `d` of at most `MaxStrDigits` digits, then whitespace `q`; `v` is the
      signed value of the digits. */
  predicate IntForm(text: string, p: string, sign: string, d: string, q: string, v: int)
  {
    && text == p + sign + d + q
    && AllSpace(p)
    && AllSpace(q)
    && (sign == "" || sign == "+" || sign == "-")
    && IsDigitGroup(d)
    && DigitCount(d) <= MaxStrDigits
    && v == SignedValue(sign, d)
  }

  /** The value of digit group `d` under sign `sign`. */
  function SignedValue(sign: string, d: string): int
  {
    var n: int := DigitsValue(d);
    if sign == "-" then -n else n
  }

  /** The grammar `int()` accepts, in both directions: the text parses to
      `v` exactly when it splits into surrounding whitespace, a sign and a
      digit group denoting `v`. */
  lemma ParseGrammar(text: string, v: int)
    ensures Parse(text) == Some(v) <==> exists p, sign, d, q :: IntForm(text, p, sign, d, q, v)
  {
    if Parse(text) == Some(v) {
      FormOfParse(text, v);
    }
    if exists p, sign, d, q :: IntForm(text, p, sign, d, q, v) {
      var p, sign, d, q :| IntForm(text, p, sign, d, q, v);
      ParseOfParts(p, sign, d, q, v);
    }
  }

  /** Helper: the left-to-right half of `ParseGrammar`. */
  lemma FormOfParse(text: string, v: int)
    requires Parse(text) == Some(v)
    ensures exists p, sign, d, q :: IntForm(text, p, sign, d, q, v)
  {
    var p, q := StripParts(text);
    var sign, d := SignParts(text, v);
    FormOfPieces(text, p, Strip(text), q, sign, d, v);
  }

  /** Helper: whitespace around a sign and a digit group is an `IntForm`. */
  lemma FormOfPieces(text: string, p: string, t: string, q: string, sign: string, d: string, v: int)
    requires text == p + t + q && t == sign + d
    requires AllSpace(p) && AllSpace(q)
    requires sign == "" || sign == "+" || sign == "-"
    requires IsDigitGroup(d) && DigitCount(d) <= MaxStrDigits && v == SignedValue(sign, d)
    ensures IntForm(text, p, sign, d, q, v)
  {
    Associative(p, sign, d);
  }

  /** Helper: `strip` removes whitespace from either end and nothing else. */
  lemma StripParts(text: string) returns (p: string, q: string)
    ensures AllSpace(p) && AllSpace(q) && text == p + Strip(text) + q
  {
    var u := TrimStart(text);
    p := TrimStartPart(text);
    q := TrimEndPart(u);
    Associative(p, TrimEnd(u), q);
  }

  /** Helper: concatenation is associative. */
  lemma Associative(a: string, b: string, c: string)
    ensures a + (b + c) == a + b + c
  {
  }

  /** Helper: what `TrimStart` drops is whitespace. */
  lemma TrimStartPart(s: string) returns (p: string)
    ensures AllSpace(p) && s == p + TrimStart(s)
  {
    p := s[..|s| - |TrimStart(s)|];
    assert s == p + s[|s| - |TrimStart(s)|..];
  }

  /** Helper: what `TrimEnd` drops is whitespace. */
  lemma TrimEndPart(s: string) returns (q: string)
    ensures AllSpace(q) && s == TrimEnd(s) + q
  {
    q := s[|TrimEnd(s)|..];
    assert s == s[..|TrimEnd(s)|] + q;
  }

  /** Helper: text `int()` accepts strips to a sign and a digit group. */
  lemma SignParts(text: string, v: int) returns (sign: string, d: string)
    requires Parse(text) == Some(v)
    ensures Strip(text) == sign + d
    ensures sign == "" || sign == "+" || sign == "-"
    ensures IsDigitGroup(d) && DigitCount(d) <= MaxStrDigits && v == SignedValue(sign, d)
  {
    sign, d := SplitSign(Strip(text));
  }

  /** Helper: a leading sign character split off, as `int()` reads it. */
  lemma SplitSign(t: string) returns (sign: string, d: string)
    requires t != []
    ensures t == sign + d
    ensures t[0] == '-' || t[0] == '+' ==> sign == [t[0]] && d == t[1..]
    ensures !(t[0] == '-' || t[0] == '+') ==> sign == [] && d == t
  {
    if t[0] == '-' || t[0] == '+' {
      sign, d := [t[0]], t[1..];
    } else {
      sign, d := [], t;
    }
  }

  /** Helper: `ParseOfForm` on the four parts taken apart. */
  lemma ParseOfParts(p: string, sign: string, d: string, q: string, v: int)
    requires AllSpace(p) && AllSpace(q)
    requires sign == "" || sign == "+" || sign == "-"
    requires IsDigitGroup(d) && DigitCount(d) <= MaxStrDigits && v == SignedValue(sign, d)
    ensures Parse(p + sign + d + q) == Some(v)
  {
    assert p + sign + d + q == p + (sign + d) + q;
    StripPadding(p, sign + d, q);
    StripSigned(sign, d);
    ParseSigned(p + sign + d + q, sign, d, v);
  }

  /** Helper: a sign and a digit group are left alone by `strip`. */
  lemma StripSigned(sign: string, d: string)
    requires sign == "" || sign == "+" || sign == "-"
    requires |d| >= 1 && IsDigit(d[0]) && IsDigit(d[|d| - 1])
    ensures Strip(sign + d) == sign + d
  {
    var m := sign + d;
    assert m[|m| - 1] == d[|d| - 1];
    if sign == "" {
      assert m == d;
    } else {
      assert m[0] == sign[0];
    }
    StripUntouched(m);
  }

  /** Helper: text that strips to a sign and a digit group reads as its
      signed value. */
  lemma ParseSigned(text: string, sign: string, d: string, v: int)
    requires Strip(text) == sign + d
    requires sign == "" || sign == "+" || sign == "-"
    requires IsDigitGroup(d) && DigitCount(d) <= MaxStrDigits && v == SignedValue(sign, d)
    ensures Parse(text) == Some(v)
  {
    var t := sign + d;
    if sign == "" {
      assert t == d;
    } else {
      assert t[0] == sign[0];
      assert t[1..] == d;
    }
  }

  /** Plain decimal text of up to `MaxStrDigits` digits reads as its value. */
  lemma ParseDigits(text: string)
    requires 1 <= |text| <= MaxStrDigits
    requires forall i :: 0 <= i < |text| ==> IsDigit(text[i])
    ensures Parse(text) == Some(DigitsValue(text))
  {
    StripUntouched(text);
    DigitsAreGroup(text);
    DigitCountAll(text);
  }

  /** Plain decimal text of more than `MaxStrDigits` digits is refused. */
  lemma ParseTooManyDigits(text: string)
    requires |text| > MaxStrDigits
    requires forall i :: 0 <= i < |text| ==> IsDigit(text[i])
    ensures Parse(text) == None
  {
    StripUntouched(text);
    DigitCountAll(text);
  }

  /** Helper: in text of digits only, every character counts. */
  lemma {:induction false} DigitCountAll(d: string)
    requires forall i :: 0 <= i < |d| ==> IsDigit(d[i])
    ensures DigitCount(d) == |d|
    decreases |d|
  {
    if d != [] {
      DigitCountAll(d[..|d| - 1]);
    }
  }

  function DigitChar(d: nat): (c: char)
    requires d < 10
    ensures IsDigit(c)
  {
    ('0' as int + d) as char
  }

  /** The decimal digits of `n`, without leading zeros. */
  function ShowNat(n: nat): (r: string)
    ensures |r| >= 1
    ensures forall i :: 0 <= i < |r| ==> IsDigit(r[i])
    decreases n
  {
    if n < 10 then [DigitChar(n)] else ShowNat(n / 10) + [DigitChar(n % 10)]
  }

  /** `str(n)` for an integer. */
  function Show(n: int): (r: string)
    ensures |r| >= 1
    ensures forall i :: 0 <= i < |r| ==> IsDigit(r[i]) || (i == 0 && r[i] == '-')
  {
    if n < 0 then "-" + ShowNat(-n) else ShowNat(n)
  }

  lemma {:induction false} ShowNatValue(n: nat)
    ensures DigitsValue(ShowNat(n)) == n
    decreases n
  {
    if n >= 10 {
      ShowNatValue(n / 10);
      var s := ShowNat(n);
      assert s[..|s| - 1] == ShowNat(n / 10);
    }
  }

  /** Text that neither starts nor ends with whitespace is left alone by
      `strip`. */
  lemma StripUntouched(s: string)
    requires s != [] && !IsSpace(s[0]) && !IsSpace(s[|s| - 1])
    ensures Strip(s) == s
  {
    assert TrimStart(s) == s;
  }

  lemma DigitsAreGroup(d: string)
    requires |d| >= 1
    requires forall i :: 0 <= i < |d| ==> IsDigit(d[i])
    ensures IsDigitGroup(d)
  {
  }

  /** `n` has at most `MaxStrDigits` decimal digits, the range in which
      CPython converts between integers and text in both directions. */
  predicate WithinStrDigits(n: int)
  {
    |ShowNat(if n < 0 then -n else n)| <= MaxStrDigits
  }

  /** `int(str(n)) == n`: parsing inverts rendering. */
  lemma ParseShow(n: int)
    requires WithinStrDigits(n)
    ensures Parse(Show(n)) == Some(n)
  {
    if n < 0 {
      ParseShowNegative(n);
    } else {
      ParseShowNat(n);
    }
  }

  /** Helper: the non-negative half of `ParseShow`. */
  lemma ParseShowNat(n: int)
    requires n >= 0 && |ShowNat(n)| <= MaxStrDigits
    ensures Parse(Show(n)) == Some(n)
  {
    var d := Show(n);
    assert d == ShowNat(n);
    StripUntouched(d);
    DigitsAreGroup(d);
    DigitCountAll(d);
    ShowNatValue(n);
    assert d[0] != '-' && d[0] != '+';
  }

  /** Helper: the negative half of `ParseShow`. */
  lemma ParseShowNegative(n: int)
    requires n < 0 && |ShowNat(-n)| <= MaxStrDigits
    ensures Parse(Show(n)) == Some(n)
  {
    var d := ShowNat(-n);
    DigitsAreGroup(d);
    DigitCountAll(d);
    ShowNatValue(-n);
    ParseMinus(Show(n), d, n);
  }

  /** Helper: a minus sign before a digit group reads as the negated value. */
  lemma ParseMinus(s: string, d: string, n: int)
    requires s == "-" + d
    requires IsDigitGroup(d) && DigitCount(d) <= MaxStrDigits && DigitsValue(d) == -n
    ensures Parse(s) == Some(n)
  {
    StripUntouched(s);
    assert s[0] == '-' && s[1..] == d;
  }

  /** A character `int()` does not strip survives stripping. */
  lemma StripKeeps(s: string, i: int)
    requires 0 <= i < |s| && !IsSpace(s[i])
    ensures s[i] in Strip(s)
  {
    var t := TrimStart(s);
    assert s[i] == t[i - (|s| - |t|)];
    var u := TrimEnd(t);
    assert t[i - (|s| - |t|)] == u[i - (|s| - |t|)];
  }

  /** No text containing a comma is a valid integer, so `int()` of a
      comma-separated list always raises. */
  lemma CommaNeverParses(s: string)
    requires ',' in s
    ensures Parse(s) == None
  {
    var i :| 0 <= i < |s| && s[i] == ',';
    StripKeeps(s, i);
    var t := Strip(s);
    var j :| 0 <= j < |t| && t[j] == ',';
    if t[0] == '-' || t[0] == '+' {
      NotGroup(t[1..], j - 1);
    } else {
      NotGroup(t, j);
    }
  }

  lemma NotGroup(d: string, j: int)
    requires 0 <= j < |d| && d[j] == ','
    ensures !IsDigitGroup(d)
  {
  }
}
