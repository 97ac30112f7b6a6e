/**
 * Character classes and the small string operations the scripts rely on:
 * Python's `str.strip()`, the `tx` helper of the group-stage parser
 * (strip, then every `\s+` run becomes one space), ASCII lower-casing,
 * substring search and decimal rendering of counts.
 */
module Text {

  /** Python's `str.isspace()`, which is also the class `\s` of `re` for text patterns. */
  predicate IsSpace(c: char)
  {
    || '\t' <= c <= '\r'
    || '\U{1C}' <= c <= '\U{1F}'
    || c == ' '
    || c == '\U{85}'
    || c == '\U{A0}'
    || c == '\U{1680}'
    || '\U{2000}' <= c <= '\U{200A}'
    || c == '\U{2028}'
    || c == '\U{2029}'
    || c == '\U{202F}'
    || c == '\U{205F}'
    || c == '\U{3000}'
  }

  /** A decimal digit, as `\d` matches it on ASCII text. */
  predicate IsDigit(c: char)
  {
    '0' <= c <= '9'
  }

  predicate AllSpace(s: string)
  {
    forall i :: 0 <= i < |s| ==> IsSpace(s[i])
  }

  predicate AllDigits(s: string)
  {
    forall i :: 0 <= i < |s| ==> IsDigit(s[i])
  }

  /** Neither the first nor the last character is whitespace. */
  predicate NoEdgeSpace(s: string)
  {
    s == [] || (!IsSpace(s[0]) && !IsSpace(s[|s| - 1]))
  }

  /** The only whitespace is a plain space, and never two in a row. */
  predicate SingleSpaced(s: string)
  {
    && (forall i :: 0 <= i < |s| && IsSpace(s[i]) ==> s[i] == ' ')
    && (forall i :: 0 <= i < |s| - 1 && IsSpace(s[i]) ==> !IsSpace(s[i + 1]))
  }

  /** Length of the leading whitespace run. */
  function LeadingSpace(s: string): (n: nat)
    ensures n <= |s|
    ensures AllSpace(s[..n])
    ensures n == |s| || !IsSpace(s[n])
  {
    if s == [] || !IsSpace(s[0]) then 0
    else
      var k := LeadingSpace(s[1..]);
      assert s[1..][..k] == s[1..k + 1];
      k + 1
  }

  /** Length of the trailing whitespace run. */
  function TrailingSpace(s: string): (n: nat)
    ensures n <= |s|
    ensures AllSpace(s[|s| - n..])
    ensures n == |s| || !IsSpace(s[|s| - n - 1])
  {
    if s == [] || !IsSpace(s[|s| - 1]) then 0
    else
      var k := TrailingSpace(s[..|s| - 1]);
      assert s[..|s| - 1][|s| - 1 - k..] + [s[|s| - 1]] == s[|s| - k - 1..];
      k + 1
  }

  /** Python's `s.strip()`. */
  function Strip(s: string): (r: string)
    ensures NoEdgeSpace(r)
    ensures |r| <= |s|
  {
    var t := s[LeadingSpace(s)..];
    var u := t[..|t| - TrailingSpace(t)];
    assert u != [] ==> u[0] == t[0];
    u
  }

  /** Stripping a text padded only by whitespace gives the text back. */
  lemma {:induction false} StripPadded(w1: string, t: string, w2: string)
    requires AllSpace(w1) && AllSpace(w2) && NoEdgeSpace(t)
    ensures Strip(w1 + t + w2) == t
  {
    var s := w1 + t + w2;
    if t == [] {
      assert AllSpace(s);
      LeadingAllSpace(s);
    } else {
      LeadingUpTo(s, |w1|);
      var rest := s[|w1|..];
      assert rest == t + w2;
      TrailingDownTo(rest, |w2|);
      assert rest[..|rest| - |w2|] == t;
    }
  }

  lemma LeadingAllSpace(s: string)
    requires AllSpace(s)
    ensures LeadingSpace(s) == |s|
  {
  }

  /** If `s[..k]` is whitespace and `s[k]` is not, the leading run has length `k`. */
  lemma {:induction false} LeadingUpTo(s: string, k: nat)
    requires k < |s| && AllSpace(s[..k]) && !IsSpace(s[k])
    ensures LeadingSpace(s) == k
  {
    if k > 0 {
      assert IsSpace(s[..k][0]);
      assert s[1..][..k - 1] == s[1..k];
      LeadingUpTo(s[1..], k - 1);
    }
  }

  /** A text that ends in a non-whitespace character is not all leading whitespace. */
  lemma {:induction false} LeadingBeforeLast(s: string)
    requires s != [] && !IsSpace(s[|s| - 1])
    ensures LeadingSpace(s) < |s|
  {
    if IsSpace(s[0]) {
      LeadingBeforeLast(s[1..]);
    }
  }

  /** If the last `k` characters are whitespace and the one before is not, the trailing run has length `k`. */
  lemma {:induction false} TrailingDownTo(s: string, k: nat)
    requires k < |s| && AllSpace(s[|s| - k..]) && !IsSpace(s[|s| - k - 1])
    ensures TrailingSpace(s) == k
  {
    if k > 0 {
      assert IsSpace(s[|s| - k..][k - 1]);
      var p := s[..|s| - 1];
      assert p[|p| - (k - 1)..] == s[|s| - k..|s| - 1];
      TrailingDownTo(p, k - 1);
    }
  }

  /** Text without edge whitespace is left alone by `str.strip()`. */
  lemma StripTrimmed(s: string)
    requires NoEdgeSpace(s)
    ensures Strip(s) == s
  {
    StripPadded([], s, []);
    assert [] + s + [] == s;
  }

  /** `str.strip()` is idempotent. */
  lemma StripIdempotent(s: string)
    ensures Strip(Strip(s)) == Strip(s)
  {
    StripPadded([], Strip(s), []);
    assert [] + Strip(s) + [] == Strip(s);
  }

  /** `re.sub(r"\s+", " ", s)`: every maximal whitespace run becomes one space. */
  function CollapseSpace(s: string): (r: string)
    ensures SingleSpaced(r)
    ensures |r| <= |s|
    ensures r == [] <==> s == []
    ensures s != [] ==> (IsSpace(r[0]) <==> IsSpace(s[0]))
    ensures s != [] ==> (IsSpace(r[|r| - 1]) <==> IsSpace(s[|s| - 1]))
    decreases |s|
  {
    if s == [] then []
    else if IsSpace(s[0]) then
      var n := LeadingSpace(s);
      var rest := CollapseSpace(s[n..]);
      assert IsSpace(s[|s| - 1]) <==> (if n == |s| then true else IsSpace(s[n..][|s| - n - 1])) by {
        if n == |s| { assert s[..n][n - 1] == s[|s| - 1]; }
      }
      SingleSpacedCons(' ', rest);
      [' '] + rest
    else
      var rest := CollapseSpace(s[1..]);
      assert s[1..] != [] ==> s[1..][|s| - 2] == s[|s| - 1];
      SingleSpacedCons(s[0], rest);
      [s[0]] + rest
  }

  /** A character put in front of single-spaced text keeps it single-spaced, unless it doubles a space. */
  lemma SingleSpacedCons(c: char, rest: string)
    requires SingleSpaced(rest) && (IsSpace(c) ==> c == ' ' && (rest == [] || !IsSpace(rest[0])))
    ensures SingleSpaced([c] + rest)
    ensures ([c] + rest)[0] == c
    ensures ([c] + rest)[|rest|] == if rest == [] then c else rest[|rest| - 1]
  {
    var t := [c] + rest;
    forall i | 1 <= i < |t|
      ensures t[i] == rest[i - 1]
    {
    }
  }

  /** Text that is already single-spaced is left alone by the collapse. */
  lemma {:induction false} CollapseFixed(s: string)
    requires SingleSpaced(s)
    ensures CollapseSpace(s) == s
    decreases |s|
  {
    if s != [] {
      if IsSpace(s[0]) {
        if |s| == 1 {
          LeadingAllSpace(s);
        } else {
          LeadingUpTo(s, 1);
        }
      }
      CollapseFixed(s[1..]);
    }
  }

  /**
   * Two parts joined by a whitespace run collapse separately, and the run
   * between them becomes exactly one space.
   */
  lemma {:induction false} CollapseJoin(p: string, w: string, q: string)
    requires w != [] && AllSpace(w)
    requires p == [] || !IsSpace(p[|p| - 1])
    requires q == [] || !IsSpace(q[0])
    ensures CollapseSpace(p + w + q) == CollapseSpace(p) + " " + CollapseSpace(q)
    decreases |p|, 1
  {
    if p == [] {
      assert p + w + q == w + q;
      CollapseRun(w, q);
    } else if IsSpace(p[0]) {
      var n := LeadingSpace(p);
      LeadingBeforeLast(p);
      SplitAt(p, n);
      CollapseJoinStep(p[..n], p[n..], w, q);
    } else {
      SplitAt(p, 1);
      assert p[..1] == [p[0]];
      CollapseJoinStep(p[..1], p[1..], w, q);
    }
  }

  lemma SplitAt<T>(p: seq<T>, n: nat)
    requires n <= |p|
    ensures p[..n] + p[n..] == p
  {
  }

  /** One step of CollapseJoin: a head that collapses on its own, then the rest. */
  lemma {:induction false} CollapseJoinStep(h: string, u: string, w: string, q: string)
    requires h != [] && (u == [] || !IsSpace(u[|u| - 1]))
    requires (AllSpace(h) && u != [] && !IsSpace(u[0])) || (|h| == 1 && !IsSpace(h[0]))
    requires w != [] && AllSpace(w)
    requires q == [] || !IsSpace(q[0])
    ensures CollapseSpace(h + u + w + q) == CollapseSpace(h + u) + " " + CollapseSpace(q)
    decreases |h| + |u|, 0
  {
    var hc := if |h| == 1 && !IsSpace(h[0]) then h else " ";
    assert CollapseSpace(h + (u + w + q)) == hc + CollapseSpace(u + w + q) by {
      if |h| == 1 && !IsSpace(h[0]) {
        assert h == [h[0]];
        CollapseHead(h[0], u + w + q);
      } else {
        CollapseRun(h, u + w + q);
      }
    }
    assert CollapseSpace(h + u) == hc + CollapseSpace(u) by {
      if |h| == 1 && !IsSpace(h[0]) {
        assert h == [h[0]];
        CollapseHead(h[0], u);
      } else {
        CollapseRun(h, u);
      }
    }
    CollapseJoin(u, w, q);
    Regroup(hc, CollapseSpace(u), " ", CollapseSpace(q));
    Regroup(h, u, w, q);
  }

  lemma Regroup<T>(h: seq<T>, u: seq<T>, w: seq<T>, q: seq<T>)
    ensures h + (u + w + q) == (h + u) + w + q
  {
  }

  /** A character that is not whitespace is kept in front of the collapsed rest. */
  lemma CollapseHead(c: char, x: string)
    requires !IsSpace(c)
    ensures CollapseSpace([c] + x) == [c] + CollapseSpace(x)
  {
    assert ([c] + x)[1..] == x;
  }

  /** A leading whitespace run becomes one space in front of the collapsed rest. */
  lemma CollapseRun(w: string, q: string)
    requires w != [] && AllSpace(w)
    requires q == [] || !IsSpace(q[0])
    ensures CollapseSpace(w + q) == " " + CollapseSpace(q)
  {
    var s := w + q;
    if q == [] {
      assert s == w;
      LeadingAllSpace(s);
    } else {
      assert s[..|w|] == w;
      LeadingUpTo(s, |w|);
      assert s[|w|..] == q;
    }
  }

  /** The group-stage helper `tx`: strip, then collapse whitespace runs. */
  function Tx(s: string): (r: string)
    ensures NoEdgeSpace(r) && SingleSpaced(r)
    ensures |r| <= |s|
  {
    CollapseSpace(Strip(s))
  }

  /**
   * `tx` of two trimmed parts separated by a whitespace run, with any
   * whitespace padding, is the two parts tidied and joined by one space.
   */
  lemma TxJoin(w1: string, x: string, w: string, y: string, w2: string)
    requires AllSpace(w1) && AllSpace(w2) && w != [] && AllSpace(w)
    requires x != [] && NoEdgeSpace(x) && y != [] && NoEdgeSpace(y)
    ensures Tx(w1 + x + w + y + w2) == Tx(x) + " " + Tx(y)
  {
    var t := x + w + y;
    assert t[0] == x[0] && t[|t| - 1] == y[|y| - 1];
    assert w1 + x + w + y + w2 == w1 + t + w2;
    StripPadded(w1, t, w2);
    StripPadded([], x, []);
    assert [] + x + [] == x;
    StripPadded([], y, []);
    assert [] + y + [] == y;
    CollapseJoin(x, w, y);
  }

  /** Text without any whitespace is left alone by `tx`. */
  lemma TxNoSpace(s: string)
    requires forall i :: 0 <= i < |s| ==> !IsSpace(s[i])
    ensures Tx(s) == s
  {
    StripPadded([], s, []);
    assert [] + s + [] == s;
    CollapseFixed(s);
  }

  /** Two words joined by one space are left alone by `tx`. */
  lemma TxTwoWords(x: string, y: string)
    requires x != [] && forall i :: 0 <= i < |x| ==> !IsSpace(x[i])
    requires y != [] && forall i :: 0 <= i < |y| ==> !IsSpace(y[i])
    ensures Tx(x + " " + y) == x + " " + y
  {
    TxNoSpace(x);
    TxNoSpace(y);
    TxJoin([], x, " ", y, []);
    Unpadded(x, " ", y);
  }

  lemma Unpadded<T>(x: seq<T>, w: seq<T>, y: seq<T>)
    ensures [] + x + w + y + [] == x + w + y
  {
  }

  /** Text that is already tidy comes back from `tx` unchanged. */
  lemma TxTidy(s: string)
    requires NoEdgeSpace(s) && SingleSpaced(s)
    ensures Tx(s) == s
  {
    StripPadded([], s, []);
    assert [] + s + [] == s;
    CollapseFixed(s);
  }

  /** `tx` is idempotent. */
  lemma TxIdempotent(s: string)
    ensures Tx(Tx(s)) == Tx(s)
  {
    var t := Tx(s);
    StripPadded([], t, []);
    assert [] + t + [] == t;
    CollapseFixed(t);
  }

  /** ASCII lower-casing; other characters are kept. */
  function LowerChar(c: char): (d: char)
    ensures 'A' <= c <= 'Z' ==> 'a' <= d <= 'z'
    ensures !('A' <= c <= 'Z') ==> d == c
  {
    if 'A' <= c <= 'Z' then (c as int + 32) as char else c
  }

  /**
   * Lower-cases the ASCII letters. Python's `str.lower()` also lowers other
   * letters, but no non-ASCII character lowers to a letter of "fecha" or
   * "local", so searching for those words gives the same answer either way.
   */
  function AsciiLower(s: string): (r: string)
    ensures |r| == |s|
    ensures forall i :: 0 <= i < |s| ==> r[i] == LowerChar(s[i])
  {
    seq(|s|, i requires 0 <= i < |s| => LowerChar(s[i]))
  }

  /** `p in s` for strings: `p` occurs at some position of `s`. */
  predicate Contains(s: string, p: string)
    decreases |s|
  {
    |p| <= |s| && (s[..|p|] == p || Contains(s[1..], p))
  }

  lemma {:induction false} ContainsAt(s: string, p: string, i: nat)
    requires i + |p| <= |s| && s[i..i + |p|] == p
    ensures Contains(s, p)
    decreases i
  {
    if i > 0 {
      assert s[1..][i - 1..i - 1 + |p|] == s[i..i + |p|];
      ContainsAt(s[1..], p, i - 1);
    }
  }

  lemma {:induction false} ContainsWitness(s: string, p: string) returns (i: nat)
    requires Contains(s, p)
    ensures i + |p| <= |s| && s[i..i + |p|] == p
    decreases |s|
  {
    if s[..|p|] == p {
      i := 0;
    } else {
      var j := ContainsWitness(s[1..], p);
      assert s[1..][j..j + |p|] == s[j + 1..j + 1 + |p|];
      i := j + 1;
    }
  }

  /** Either the slice at `i` is not the pattern, or the text contains it. */
  lemma ContainsAtEither(s: string, p: string, i: nat)
    requires i + |p| <= |s|
    ensures s[i..i + |p|] == p ==> Contains(s, p)
  {
    if s[i..i + |p|] == p {
      ContainsAt(s, p, i);
    }
  }

  /** A character in front that is not the pattern's first cannot create an occurrence. */
  lemma ContainsCons(c: char, x: string, p: string)
    requires p != [] && p[0] != c && !Contains(x, p)
    ensures !Contains([c] + x, p)
  {
    var s := [c] + x;
    assert |p| <= |s| ==> s[..|p|][0] == c;
    assert s[1..] == x;
  }

  /** A character appended that is not the pattern's last cannot create an occurrence. */
  lemma {:induction false} ContainsSnoc(x: string, c: char, p: string)
    requires p != [] && p[|p| - 1] != c && !Contains(x, p)
    ensures !Contains(x + [c], p)
    decreases |x|
  {
    var s := x + [c];
    if |p| <= |x| {
      assert s[..|p|] == x[..|p|];
    } else if |p| == |s| {
      assert s[..|p|][|p| - 1] == c;
    }
    if x != [] {
      assert s[1..] == x[1..] + [c];
      ContainsSnoc(x[1..], c, p);
    }
  }

  /** A text cannot contain a pattern longer than itself. */
  lemma ContainsLonger(s: string, p: string)
    requires |p| > |s|
    ensures !Contains(s, p)
  {
  }

  /** Value of a string of decimal digits. */
  function DecimalValue(s: string): nat
    requires AllDigits(s)
  {
    if s == [] then 0 else DecimalValue(s[..|s| - 1]) * 10 + (s[|s| - 1] as int - '0' as int)
  }

  /** Python's `str(n)` for a non-negative integer. */
  function NatToString(n: nat): (s: string)
    ensures s != [] && AllDigits(s)
    ensures DecimalValue(s) == n
    ensures |s| > 1 ==> s[0] != '0'
  {
    var d := ['0' + (n % 10) as char];
    if n < 10 then d
    else
      var p := NatToString(n / 10);
      assert (p + d)[..|p + d| - 1] == p;
      p + d
  }
}
