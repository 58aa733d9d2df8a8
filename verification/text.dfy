/** Python string operations the exercise code relies on, restricted to ASCII
    where Python consults Unicode tables. */
module Text {

  /** Python's `s.split(sep)` for a one-character separator: the pieces between
      separators, with an empty piece wherever two separators touch or one
      stands at an end. */
  function Split(s: string, sep: char): (r: seq<string>)
    ensures |r| >= 1
    ensures forall i :: 0 <= i < |r| ==> sep !in r[i]
    ensures |r[0]| <= |s| && r[0] == s[..|r[0]|]
    ensures |r[0]| < |s| ==> s[|r[0]|] == sep
    decreases |s|
  {
    if s == [] then [[]]
    else if s[0] == sep then [[]] + Split(s[1..], sep)
    else
      var rest := Split(s[1..], sep);
      [[s[0]] + rest[0]] + rest[1..]
  }

  /** Python's `sep.join(parts)`. */
  function Join(parts: seq<string>, sep: char): string
    decreases |parts|
  {
    if |parts| == 0 then []
    else if |parts| == 1 then parts[0]
    else parts[0] + [sep] + Join(parts[1..], sep)
  }

  /** Splitting and re-joining gives back the original string. */
  lemma {:induction false} JoinSplit(s: string, sep: char)
    ensures Join(Split(s, sep), sep) == s
    decreases |s|
  {
    if s != [] {
      JoinSplit(s[1..], sep);
      var rest := Split(s[1..], sep);
      if s[0] == sep {
        assert Split(s, sep) == [[]] + rest;
        assert Join(Split(s, sep), sep) == [] + [sep] + Join(rest, sep);
      } else {
        var r := Split(s, sep);
        assert r == [[s[0]] + rest[0]] + rest[1..];
        if |rest| == 1 {
          assert Join(r, sep) == [s[0]] + rest[0];
        } else {
          assert Join(rest, sep) == rest[0] + [sep] + Join(rest[1..], sep);
          assert r[1..] == rest[1..];
          assert Join(r, sep) == [s[0]] + rest[0] + [sep] + Join(rest[1..], sep);
        }
      }
    }
  }

  /** Joining pieces free of the separator and splitting again gives back the
      pieces: the other direction of the round trip. */
  lemma {:induction false} SplitJoin(parts: seq<string>, sep: char)
    requires |parts| >= 1
    requires forall i :: 0 <= i < |parts| ==> sep !in parts[i]
    ensures Split(Join(parts, sep), sep) == parts
    decreases |parts|
  {
    if |parts| == 1 {
      SplitNoSep(parts[0], sep);
    } else {
      SplitJoin(parts[1..], sep);
      SplitAfterPiece(parts[0], Join(parts[1..], sep), sep);
      assert [parts[0]] + parts[1..] == parts;
    }
  }

  /** Two separator-free pieces joined by one separator split back into
      them. */
  lemma SplitTwo(a: string, b: string, sep: char)
    requires sep !in a && sep !in b
    ensures Split(a + [sep] + b, sep) == [a, b]
  {
    SplitJoin([a, b], sep);
    JoinCons(a, [b], sep);
  }

  /** Helper: a string without the separator splits into itself. */
  lemma {:induction false} SplitNoSep(a: string, sep: char)
    requires sep !in a
    ensures Split(a, sep) == [a]
    decreases |a|
  {
    if a != [] {
      SplitNoSep(a[1..], sep);
      assert [a[0]] + a[1..] == a;
    }
  }

  /** Helper: a separator-free piece followed by the separator contributes
      exactly that piece. */
  lemma {:induction false} SplitAfterPiece(a: string, t: string, sep: char)
    requires sep !in a
    ensures Split(a + [sep] + t, sep) == [a] + Split(t, sep)
    decreases |a|
  {
    if a == [] {
      assert [] + [sep] + t == [sep] + t;
      assert ([sep] + t)[1..] == t;
    } else {
      SplitAfterPiece(a[1..], t, sep);
      assert (a + [sep] + t)[1..] == a[1..] + [sep] + t;
      assert [a[0]] + a[1..] == a;
    }
  }

  /** Helper: joining a head onto a non-empty rest puts one separator
      between them. */
  lemma JoinCons(x: string, ys: seq<string>, sep: char)
    requires |ys| >= 1
    ensures Join([x] + ys, sep) == x + [sep] + Join(ys, sep)
  {
    assert ([x] + ys)[1..] == ys;
  }

  /** The lines of two texts written one after the other: the last line of
      the first and the first line of the second run together. */
  function Glue(xs: seq<string>, ys: seq<string>): (r: seq<string>)
    ensures |xs| >= 1 ==> |r| >= 1
    ensures |xs| >= 1 && |ys| >= 1 ==> |r| == |xs| + |ys| - 1
  {
    if xs == [] then ys
    else if ys == [] then xs
    else xs[..|xs| - 1] + [xs[|xs| - 1] + ys[0]] + ys[1..]
  }

  /** Helper: gluing, spelled out on the two lines that meet. */
  lemma GlueLast(xs: seq<string>, a: string, b: string, ys: seq<string>)
    ensures Glue(xs + [a], [b] + ys) == xs + [a + b] + ys
  {
    var l := xs + [a];
    assert l[..|l| - 1] == xs;
    assert ([b] + ys)[1..] == ys;
  }

  /** Helper: text that ends in a line break takes the next text's lines
      unchanged. */
  lemma GlueAfterBreak(xs: seq<string>, ys: seq<string>)
    requires |ys| >= 1
    ensures Glue(xs + [[]], ys) == xs + ys
  {
    GlueLast(xs, [], ys[0], ys[1..]);
    assert [ys[0]] + ys[1..] == ys;
    assert [] + ys[0] == ys[0];
    assert xs + [ys[0]] + ys[1..] == xs + ys;
  }

  /** Helper: text that starts with a line break leaves the previous text's
      lines unchanged. */
  lemma GlueBeforeBreak(xs: seq<string>, ys: seq<string>)
    requires |xs| >= 1
    ensures Glue(xs, [[]] + ys) == xs + ys
  {
    var init := xs[..|xs| - 1];
    GlueLast(init, xs[|xs| - 1], [], ys);
    assert init + [xs[|xs| - 1]] == xs;
    assert xs[|xs| - 1] + [] == xs[|xs| - 1];
    assert init + [xs[|xs| - 1]] + ys == xs + ys;
  }

  /** Helper: three joined lines. */
  lemma JoinThree(a: string, b: string, c: string, sep: char)
    ensures Join([a, b, c], sep) == a + [sep] + b + [sep] + c
  {
    JoinCons(b, [c], sep);
    JoinCons(a, [b, c], sep);
  }

  /** Helper: four joined lines. */
  lemma JoinFour(a: string, b: string, c: string, d: string, sep: char)
    ensures Join([a, b, c, d], sep) == a + [sep] + b + [sep] + c + [sep] + d
  {
    JoinThree(b, c, d, sep);
    JoinCons(a, [b, c, d], sep);
  }

  /** Concatenating two joined texts is joining their glued lines. */
  lemma {:induction false} JoinConcat(xs: seq<string>, ys: seq<string>, sep: char)
    requires |xs| >= 1 && |ys| >= 1
    ensures Join(xs, sep) + Join(ys, sep) == Join(Glue(xs, ys), sep)
    decreases |xs|
  {
    var g := Glue(xs, ys);
    if |xs| == 1 {
      assert g == [xs[0] + ys[0]] + ys[1..];
      if |ys| > 1 {
        JoinCons(ys[0], ys[1..], sep);
        JoinCons(xs[0] + ys[0], ys[1..], sep);
        assert [ys[0]] + ys[1..] == ys;
      }
    } else {
      JoinConcat(xs[1..], ys, sep);
      assert g == [xs[0]] + Glue(xs[1..], ys);
      JoinCons(xs[0], xs[1..], sep);
      JoinCons(xs[0], Glue(xs[1..], ys), sep);
      assert [xs[0]] + xs[1..] == xs;
    }
  }

  /** ASCII-only `str.lower()` / `str.casefold()` on one character. */
  function LowerChar(c: char): (r: char)
    ensures !('A' <= r <= 'Z')
    ensures 'A' <= c <= 'Z' ==> r as int == c as int + 32
    ensures !('A' <= c <= 'Z') ==> r == c
  {
    if 'A' <= c <= 'Z' then (c as int + 32) as char else c
  }

  /** ASCII-only `str.lower()` / `str.casefold()`. */
  function Lower(s: string): (r: string)
    ensures |r| == |s|
    ensures forall i :: 0 <= i < |s| ==> r[i] == LowerChar(s[i])
  {
    seq(|s|, i requires 0 <= i < |s| => LowerChar(s[i]))
  }

  /** Lowering twice is lowering once. */
  lemma LowerIdempotent(s: string)
    ensures Lower(Lower(s)) == Lower(s)
  {
  }

  /** `needle` occurs at position 0 of `hay`. */
  predicate IsPrefix(needle: string, hay: string)
  {
    |needle| <= |hay| && hay[..|needle|] == needle
  }

  /** Python's `needle in hay`: `needle` occurs at some position of `hay`. */
  predicate Contains(hay: string, needle: string)
    decreases |hay|
  {
    IsPrefix(needle, hay) || (hay != [] && Contains(hay[1..], needle))
  }

  /** Django's `icontains` lookup, with ASCII case folding. */
  predicate IContains(hay: string, needle: string)
  {
    Contains(Lower(hay), Lower(needle))
  }

  /** `needle` occurs in `hay` starting at position `k`. */
  predicate OccursAt(hay: string, needle: string, k: int)
  {
    0 <= k && k + |needle| <= |hay| && hay[k..k + |needle|] == needle
  }

  /** `Contains` agrees with the positional definition of a substring. */
  lemma {:induction false} ContainsAt(hay: string, needle: string)
    ensures Contains(hay, needle) <==> exists k :: OccursAt(hay, needle, k)
    decreases |hay|
  {
    if IsPrefix(needle, hay) {
      assert OccursAt(hay, needle, 0);
    } else if hay != [] {
      ContainsAt(hay[1..], needle);
      if Contains(hay[1..], needle) {
        var k :| OccursAt(hay[1..], needle, k);
        assert hay[k + 1..k + 1 + |needle|] == hay[1..][k..k + |needle|];
        assert OccursAt(hay, needle, k + 1);
      }
      if exists k :: OccursAt(hay, needle, k) {
        var k :| OccursAt(hay, needle, k);
        assert k != 0;
        assert hay[1..][k - 1..k - 1 + |needle|] == hay[k..k + |needle|];
        assert OccursAt(hay[1..], needle, k - 1);
      }
    }
  }

  /** Code-point lexicographic order, the model of a database `ORDER BY` on a
      text column. */
  predicate StrLe(a: string, b: string)
    decreases |a|
  {
    a == [] || (b != [] && (a[0] < b[0] || (a[0] == b[0] && StrLe(a[1..], b[1..]))))
  }

  lemma {:induction false} StrLeTotal(a: string, b: string)
    ensures StrLe(a, b) || StrLe(b, a)
    decreases |a|
  {
    if a != [] && b != [] && a[0] == b[0] {
      StrLeTotal(a[1..], b[1..]);
    }
  }

  lemma {:induction false} StrLeTransitive(a: string, b: string, c: string)
    requires StrLe(a, b) && StrLe(b, c)
    ensures StrLe(a, c)
    decreases |a|
  {
    if a != [] && a[0] == b[0] && b[0] == c[0] {
      StrLeTransitive(a[1..], b[1..], c[1..]);
    }
  }

  lemma {:induction false} StrLeAntisymmetric(a: string, b: string)
    requires StrLe(a, b) && StrLe(b, a)
    ensures a == b
    decreases |a|
  {
    if a != [] {
      StrLeAntisymmetric(a[1..], b[1..]);
      assert a == [a[0]] + a[1..] && b == [b[0]] + b[1..];
    }
  }
}
