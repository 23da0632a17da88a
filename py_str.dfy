/** The Python `str` operations that the service's configuration code relies on:
    `str.isspace`, `str.strip()` without arguments, `str.rstrip(c)` (inside
    `posixpath.dirname`) and `str.split(sep)` for a one-character separator.
    `str.count(c)` and `sep.join(pieces)` are not called by the service; they are
    here to state what `split` returns. A Python `str` is a sequence of Unicode code
    points; here it is a `string`. */
module PyStr {

  /** The characters for which CPython's `str.isspace()` holds; `str.strip()` with no
      argument removes exactly these from both ends. */
  predicate IsSpace(c: char) {
    || ('\U{9}' <= c <= '\U{d}')
    || ('\U{1c}' <= c <= '\U{20}')
    || c == '\U{85}' || c == '\U{a0}' || c == '\U{1680}'
    || ('\U{2000}' <= c <= '\U{200a}')
    || c == '\U{2028}' || c == '\U{2029}' || c == '\U{202f}' || c == '\U{205f}' || c == '\U{3000}'
  }

  /** Every character of `s` is whitespace (vacuously true of the empty string). */
  predicate AllSpace(s: string) {
    forall i | 0 <= i < |s| :: IsSpace(s[i])
  }

  /** `s.lstrip()`: the suffix of `s` that starts at its first non-whitespace character
      (empty when there is none). */
  function LStrip(s: string): (r: string)
    ensures |r| <= |s| && r == s[|s| - |r|..]
    ensures r == [] || !IsSpace(r[0])
  {
    if |s| > 0 && IsSpace(s[0]) then LStrip(s[1..]) else s
  }

  /** What `lstrip()` drops is whitespace. */
  lemma {:induction false} LStripDropsSpace(s: string)
    ensures AllSpace(s[..|s| - |LStrip(s)|])
  {
    if |s| > 0 && IsSpace(s[0]) {
      var r := LStrip(s[1..]);
      LStripDropsSpace(s[1..]);
      assert s[..|s| - |r|] == [s[0]] + s[1..][..|s| - 1 - |r|];
      AllSpaceConcat([s[0]], s[1..][..|s| - 1 - |r|]);
    }
  }

  /** `s.rstrip()`: the prefix of `s` that ends at its last non-whitespace character
      (empty when there is none). */
  function RStrip(s: string): (r: string)
    ensures |r| <= |s| && r == s[..|r|]
    ensures r == [] || !IsSpace(r[|r| - 1])
  {
    if |s| > 0 && IsSpace(s[|s| - 1]) then RStrip(s[..|s| - 1]) else s
  }

  /** What `rstrip()` drops is whitespace. */
  lemma {:induction false} RStripDropsSpace(s: string)
    ensures AllSpace(s[|RStrip(s)|..])
  {
    if |s| > 0 && IsSpace(s[|s| - 1]) {
      var r := RStrip(s[..|s| - 1]);
      RStripDropsSpace(s[..|s| - 1]);
      assert s[|r|..] == s[..|s| - 1][|r|..] + [s[|s| - 1]];
      AllSpaceConcat(s[..|s| - 1][|r|..], [s[|s| - 1]]);
    }
  }

  lemma AllSpaceConcat(a: string, b: string)
    ensures AllSpace(a + b) <==> AllSpace(a) && AllSpace(b)
  {
    if AllSpace(a) && AllSpace(b) {
      forall i | 0 <= i < |a + b| ensures IsSpace((a + b)[i]) {
        if i < |a| { assert (a + b)[i] == a[i]; } else { assert (a + b)[i] == b[i - |a|]; }
      }
    }
    if AllSpace(a + b) {
      forall i | 0 <= i < |a| ensures IsSpace(a[i]) { assert (a + b)[i] == a[i]; }
      forall i | 0 <= i < |b| ensures IsSpace(b[i]) { assert (a + b)[|a| + i] == b[i]; }
    }
  }

  /** `s.strip()`: `lstrip()` followed by `rstrip()`; neither end of the result is
      whitespace. */
  function Strip(s: string): (r: string)
    ensures |r| <= |s|
    ensures r == [] || (!IsSpace(r[0]) && !IsSpace(r[|r| - 1]))
  {
    var l := LStrip(s);
    var r := RStrip(l);
    assert r != [] ==> r[0] == l[0];
    r
  }

  /** `strip()` yields the empty string exactly when the whole text is whitespace. */
  lemma StripEmptyIff(s: string)
    ensures Strip(s) == [] <==> AllSpace(s)
  {
    var l := LStrip(s);
    var r := RStrip(l);
    var k := |s| - |l|;
    if r == [] {
      LStripDropsSpace(s);
      RStripDropsSpace(l);
      assert l[|r|..] == l;
      assert s == s[..k] + l;
      AllSpaceConcat(s[..k], l);
      assert AllSpace(s);
    } else {
      assert s[k] == l[0];
      assert !IsSpace(s[k]);
    }
  }

  /** `Strip(s)` is the infix of `s` that remains once a run of whitespace is removed
      from each end. */
  lemma StripIsInfix(s: string) returns (i: nat)
    ensures i + |Strip(s)| <= |s|
    ensures Strip(s) == s[i..i + |Strip(s)|]
    ensures AllSpace(s[..i]) && AllSpace(s[i + |Strip(s)|..])
  {
    var l := LStrip(s);
    var r := RStrip(l);
    i := |s| - |l|;
    assert Strip(s) == r;
    assert AllSpace(s[..i]) by { LStripDropsSpace(s); }
    assert l == s[i..];
    assert r == s[i..i + |r|];
    assert AllSpace(s[i + |r|..]) by {
      RStripDropsSpace(l);
      assert s[i + |r|..] == l[|r|..];
    }
  }

  /** `strip()` introduces no character that was not in its argument. */
  lemma StripAvoids(s: string, c: char)
    requires c !in s
    ensures c !in Strip(s)
  {
  }

  /** A text whose ends are not whitespace is left as it is. */
  lemma StripTrimmed(x: string)
    requires x == [] || (!IsSpace(x[0]) && !IsSpace(x[|x| - 1]))
    ensures Strip(x) == x
  {
  }

  /** Whitespace padding on both sides of a text whose ends are not whitespace is
      exactly what `strip()` removes. */
  lemma {:induction false} StripPadded(w1: string, x: string, w2: string)
    requires AllSpace(w1) && AllSpace(w2)
    requires x == [] || (!IsSpace(x[0]) && !IsSpace(x[|x| - 1]))
    ensures Strip(w1 + x + w2) == x
  {
    var s := w1 + x + w2;
    var l := LStrip(s);
    if x == [] {
      assert AllSpace(s) by {
        forall i | 0 <= i < |s| ensures IsSpace(s[i]) {
          if i < |w1| { assert s[i] == w1[i]; } else { assert s[i] == w2[i - |w1|]; }
        }
      }
    } else {
      assert s == w1 + (x + w2);
      LStripPadded(w1, x + w2);
      assert l == x + w2;
      RStripPadded(x, w2);
    }
  }

  lemma {:induction false} LStripPadded(w: string, y: string)
    requires AllSpace(w)
    requires y == [] || !IsSpace(y[0])
    ensures LStrip(w + y) == y
  {
    if w != [] {
      assert (w + y)[1..] == w[1..] + y;
      LStripPadded(w[1..], y);
    } else {
      assert w + y == y;
    }
  }

  lemma {:induction false} RStripPadded(y: string, w: string)
    requires AllSpace(w)
    requires y == [] || !IsSpace(y[|y| - 1])
    ensures RStrip(y + w) == y
  {
    if w != [] {
      assert (y + w)[..|y + w| - 1] == y + w[..|w| - 1];
      RStripPadded(y, w[..|w| - 1]);
    } else {
      assert y + w == y;
    }
  }

  /** `s.rstrip(c)`: the prefix of `s` left after dropping every trailing `c`. */
  function RStripChar(s: string, c: char): (r: string)
    ensures |r| <= |s| && r == s[..|r|]
    ensures forall i | |r| <= i < |s| :: s[i] == c
    ensures r == [] || r[|r| - 1] != c
  {
    if |s| > 0 && s[|s| - 1] == c then RStripChar(s[..|s| - 1], c) else s
  }

  /** `s.count(c)` for a single character `c`. */
  function Count(s: string, c: char): (n: nat)
    ensures n <= |s|
  {
    if s == [] then 0 else (if s[0] == c then 1 else 0) + Count(s[1..], c)
  }

  /** A character occurs nowhere exactly when its count is zero. */
  lemma {:induction false} CountZero(s: string, c: char)
    ensures Count(s, c) == 0 <==> c !in s
  {
    if s != [] {
      CountZero(s[1..], c);
      assert s == [s[0]] + s[1..];
    }
  }

  /** `sep.join(pieces)`: the pieces with one `sep` between each neighbouring pair. */
  function JoinWith(pieces: seq<string>, sep: char): string
  {
    if |pieces| == 0 then ""
    else if |pieces| == 1 then pieces[0]
    else pieces[0] + [sep] + JoinWith(pieces[1..], sep)
  }

  /** `s.split(sep)` for a one-character separator: the pieces between consecutive
      occurrences of `sep`, empty pieces included: there is at least one piece, no
      piece contains `sep`. */
  function Split(s: string, sep: char): (r: seq<string>)
    ensures |r| >= 1
    ensures forall i | 0 <= i < |r| :: sep !in r[i]
  {
    if s == [] then [""]
    else if s[0] == sep then [""] + Split(s[1..], sep)
    else
      var rest := Split(s[1..], sep);
      [[s[0]] + rest[0]] + rest[1..]
  }

  /** Joining the pieces of `s.split(sep)` with `sep` gives back `s`. */
  lemma {:induction false} JoinSplit(s: string, sep: char)
    ensures JoinWith(Split(s, sep), sep) == s
  {
    if s != [] {
      var rest := Split(s[1..], sep);
      JoinSplit(s[1..], sep);
      assert s == [s[0]] + s[1..];
      SplitCons(s[0], s[1..], sep);
      if s[0] != sep {
        var r := Split(s, sep);
        assert r[0] == [s[0]] + rest[0] && r[1..] == rest[1..];
        if |rest| > 1 {
          assert JoinWith(rest, sep) == rest[0] + [sep] + JoinWith(rest[1..], sep);
        }
      }
    }
  }

  /** `split` yields one piece more than there are separators. */
  lemma {:induction false} SplitCount(s: string, sep: char)
    ensures |Split(s, sep)| == Count(s, sep) + 1
  {
    if s != [] {
      SplitCount(s[1..], sep);
    }
  }

  /** A text without the separator is a single piece. */
  lemma SplitNoSep(s: string, sep: char)
    requires sep !in s
    ensures Split(s, sep) == [s]
  {
    CountZero(s, sep);
    SplitCount(s, sep);
    JoinSplit(s, sep);
  }

  /** One step of `split` read from the left: a separator closes an empty piece in
      front of `r`, any other character joins the first piece of `r`. */
  function Prepend(c: char, sep: char, r: seq<string>): seq<string>
    requires |r| >= 1
  {
    if c == sep then [""] + r else [[c] + r[0]] + r[1..]
  }

  lemma SplitCons(c: char, t: string, sep: char)
    ensures Split([c] + t, sep) == Prepend(c, sep, Split(t, sep))
  {
  }

  lemma PrependAppend(c: char, sep: char, ra: seq<string>, rb: seq<string>)
    requires |ra| >= 1
    ensures Prepend(c, sep, ra + rb) == Prepend(c, sep, ra) + rb
  {
  }

  /** Splitting at a separator that sits between `a` and `b` splits `a` and `b`
      independently. */
  lemma {:induction false} SplitAppend(a: string, b: string, sep: char)
    ensures Split(a + [sep] + b, sep) == Split(a, sep) + Split(b, sep)
  {
    if a == [] {
      assert a + [sep] + b == [sep] + b;
      SplitCons(sep, b, sep);
    } else {
      var c, a' := a[0], a[1..];
      var ra, rb := Split(a', sep), Split(b, sep);
      assert Split(a + [sep] + b, sep) == Prepend(c, sep, ra + rb) by {
        assert a + [sep] + b == [c] + (a' + [sep] + b);
        SplitCons(c, a' + [sep] + b, sep);
        SplitAppend(a', b, sep);
      }
      assert Split(a, sep) == Prepend(c, sep, ra) by {
        assert a == [c] + a';
        SplitCons(c, a', sep);
      }
      PrependAppend(c, sep, ra, rb);
    }
  }

  /** The inverse direction of `Split`'s round trip: pieces that do not contain the
      separator are recovered by splitting their join. */
  lemma {:induction false} SplitJoin(pieces: seq<string>, sep: char)
    requires |pieces| >= 1
    requires forall i | 0 <= i < |pieces| :: sep !in pieces[i]
    ensures Split(JoinWith(pieces, sep), sep) == pieces
  {
    var p := pieces[0];
    SplitNoSep(p, sep);
    if |pieces| > 1 {
      SplitJoin(pieces[1..], sep);
      SplitAppend(p, JoinWith(pieces[1..], sep), sep);
      assert pieces == [p] + pieces[1..];
    }
  }
}
