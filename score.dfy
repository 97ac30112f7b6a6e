/**
 * The score parser `clean_score` (scripts/scraper.py): drop leaked
 * `.mw-parser-output` style text up to the end of its line, drop `(...)`
 * annotations, strip, and take the two digit groups of the first
 * `(\d+)\s*[:–-]\s*(\d+)`. The two regular-expression substitutions and the
 * search are written out as scanners with Python's `re` semantics
 * (leftmost match, greedy and lazy repetition as the patterns say).
 */
module Score {
  import opened Wrappers
  import opened Text

  /** The two digit groups; Python returns both or neither, so one option covers the pair. */
  datatype ScorePair = ScorePair(home: string, away: string)

  /** One match of the score pattern: `s[start..end]` is `group(0)`. */
  datatype ScoreMatch = ScoreMatch(start: nat, end: nat, home: string, away: string)

  /** The separator class `[:–-]`. */
  predicate IsSeparator(c: char)
  {
    c == ':' || c == '\U{2013}' || c == '-'
  }

  const MwMarker: string := ".mw-parser-output"

  /** End of the run of digits that starts at `i` (greedy `\d*`). */
  function DigitsEnd(s: string, i: nat): (e: nat)
    requires i <= |s|
    ensures i <= e <= |s|
    ensures forall j :: i <= j < e ==> IsDigit(s[j])
    ensures e == |s| || !IsDigit(s[e])
    decreases |s| - i
  {
    if i < |s| && IsDigit(s[i]) then DigitsEnd(s, i + 1) else i
  }

  /** End of the run of whitespace that starts at `i` (greedy `\s*`). */
  function SpaceEnd(s: string, i: nat): (e: nat)
    requires i <= |s|
    ensures i <= e <= |s|
    ensures forall j :: i <= j < e ==> IsSpace(s[j])
    ensures e == |s| || !IsSpace(s[e])
    decreases |s| - i
  {
    if i < |s| && IsSpace(s[i]) then SpaceEnd(s, i + 1) else i
  }

  /** A digit run is determined by where the digits stop. */
  lemma DigitsEndExact(s: string, i: nat, k: nat)
    requires i <= k <= |s|
    requires forall j :: i <= j < k ==> IsDigit(s[j])
    requires k == |s| || !IsDigit(s[k])
    ensures DigitsEnd(s, i) == k
  {
  }

  /** A whitespace run is determined by where the whitespace stops. */
  lemma SpaceEndExact(s: string, i: nat, k: nat)
    requires i <= k <= |s|
    requires forall j :: i <= j < k ==> IsSpace(s[j])
    requires k == |s| || !IsSpace(s[k])
    ensures SpaceEnd(s, i) == k
  {
  }

  /** `(\d+)\s*[:–-]\s*(\d+)` tried at position `i` of `s`. */
  function MatchAt(s: string, i: nat): (m: Option<ScoreMatch>)
    requires i <= |s|
    ensures m.Some? ==> m.value.start == i < m.value.end <= |s|
    ensures m.Some? ==> m.value.home != [] && AllDigits(m.value.home)
    ensures m.Some? ==> m.value.away != [] && AllDigits(m.value.away)
  {
    var p := DigitsEnd(s, i);
    if p == i then None
    else
      var q := SpaceEnd(s, p);
      if q == |s| || !IsSeparator(s[q]) then None
      else
        var r := SpaceEnd(s, q + 1);
        var e := DigitsEnd(s, r);
        if e == r then None
        else Some(ScoreMatch(i, e, s[i..p], s[r..e]))
  }

  /** `re.search` from position `i`: the leftmost match at or after `i`. */
  function SearchFrom(s: string, i: nat): (m: Option<ScoreMatch>)
    requires i <= |s|
    ensures m.Some? ==> i <= m.value.start <= |s| && MatchAt(s, m.value.start) == m
    ensures m.Some? ==> forall j :: i <= j < m.value.start ==> MatchAt(s, j).None?
    ensures m.None? ==> forall j :: i <= j <= |s| ==> MatchAt(s, j).None?
    decreases |s| - i
  {
    var here := MatchAt(s, i);
    if here.Some? then here
    else if i == |s| then None
    else SearchFrom(s, i + 1)
  }

  /** `re.search(r"(\d+)\s*[:–-]\s*(\d+)", s)`. */
  function Search(s: string): (m: Option<ScoreMatch>)
    ensures m.Some? ==> m.value.start <= |s| && MatchAt(s, m.value.start) == m
    ensures m.Some? ==> forall j :: 0 <= j < m.value.start ==> MatchAt(s, j).None?
    ensures m.None? ==> forall j :: 0 <= j <= |s| ==> MatchAt(s, j).None?
  {
    SearchFrom(s, 0)
  }

  /** `score_re.search(s)` succeeds: the text holds a score-shaped substring. */
  predicate HasScore(s: string)
    ensures HasScore(s) <==> exists i :: 0 <= i <= |s| && MatchAt(s, i).Some?
  {
    Search(s).Some?
  }

  /** `m.group(0)` of the first score-shaped substring. */
  function FirstScoreText(s: string): (t: string)
    requires HasScore(s)
    ensures t != []
  {
    var m := Search(s).value;
    s[m.start..m.end]
  }

  /** Characters up to (not including) the first newline, or the whole text. */
  function LineLength(s: string): (n: nat)
    ensures n <= |s|
    ensures n == |s| || s[n] == '\n'
    ensures forall j :: 0 <= j < n ==> s[j] != '\n'
  {
    if s == [] || s[0] == '\n' then 0 else 1 + LineLength(s[1..])
  }

  /**
   * Length of a match of `\s*\.mw-parser-output.*?(\n|$)` (DOTALL) at the
   * start of `s`, or 0 when there is none: leading whitespace, the marker,
   * then everything up to and including the next newline, or to the end.
   */
  function MwMatchLength(s: string): (n: nat)
    ensures n <= |s|
    ensures n > 0 ==> LeadingSpace(s) < |s| && s[LeadingSpace(s)] == '.'
  {
    var k := LeadingSpace(s);
    if |s| - k < |MwMarker| || s[k..k + |MwMarker|] != MwMarker then 0
    else
      assert s[k..k + |MwMarker|][0] == s[k];
      var rest := s[k + |MwMarker|..];
      var line := LineLength(rest);
      k + |MwMarker| + (if line < |rest| then line + 1 else line)
  }

  /** `re.sub(r"\s*\.mw-parser-output.*?(\n|$)", "", s, flags=re.DOTALL)`. */
  function RemoveMarkup(s: string): (r: string)
    ensures |r| <= |s|
    decreases |s|
  {
    if s == [] then []
    else
      var n := MwMatchLength(s);
      if n > 0 then RemoveMarkup(s[n..]) else [s[0]] + RemoveMarkup(s[1..])
  }

  /** Characters before the first `)` or newline, or the whole text. */
  function GroupLength(s: string): (n: nat)
    ensures n <= |s|
    ensures n == |s| || s[n] == ')' || s[n] == '\n'
    ensures forall j :: 0 <= j < n ==> s[j] != ')' && s[j] != '\n'
  {
    if s == [] || s[0] == ')' || s[0] == '\n' then 0 else 1 + GroupLength(s[1..])
  }

  /**
   * Length of a match of `\(.*?\)` at the start of `s`, or 0: an opening
   * parenthesis closed on the same line (`.` does not match a newline).
   */
  function ParenMatchLength(s: string): (n: nat)
    ensures n <= |s|
    ensures n > 0 ==> s[0] == '('
  {
    if s == [] || s[0] != '(' then 0
    else
      var g := GroupLength(s[1..]);
      if g < |s| - 1 && s[1 + g] == ')' then g + 2 else 0
  }

  /** `re.sub(r"\(.*?\)", "", s)`. */
  function RemoveParens(s: string): (r: string)
    ensures |r| <= |s|
    decreases |s|
  {
    if s == [] then []
    else
      var n := ParenMatchLength(s);
      if n > 0 then RemoveParens(s[n..]) else [s[0]] + RemoveParens(s[1..])
  }

  /** The text `clean_score` searches: markup removed, annotations removed, stripped. */
  function CleanedScoreText(s: string): string
  {
    Strip(RemoveParens(RemoveMarkup(s)))
  }

  /** `clean_score` on a string. */
  function CleanScoreText(s: string): (r: Option<ScorePair>)
    ensures r.Some? <==> HasScore(CleanedScoreText(s))
    ensures r.Some? ==> r.value.home != [] && AllDigits(r.value.home)
    ensures r.Some? ==> r.value.away != [] && AllDigits(r.value.away)
  {
    match Search(CleanedScoreText(s))
    case None => None
    case Some(m) => Some(ScorePair(m.home, m.away))
  }

  /** `clean_score(score_text)`; `None` input gives `(None, None)`. */
  function CleanScore(text: Option<string>): (r: Option<ScorePair>)
    ensures text.None? ==> r.None?
    ensures r.Some? ==> AllDigits(r.value.home) && AllDigits(r.value.away)
    ensures r.Some? ==> r.value.home != [] && r.value.away != []
  {
    match text
    case None => None
    case Some(s) => CleanScoreText(s)
  }

  predicate NoChar(s: string, c: char)
  {
    forall i :: 0 <= i < |s| ==> s[i] != c
  }

  /** Neither a dot (which starts the markup marker) nor an opening parenthesis. */
  predicate Plain(s: string)
  {
    NoChar(s, '.') && NoChar(s, '(')
  }

  lemma PlainConcat(x: string, y: string)
    requires Plain(x) && Plain(y)
    ensures Plain(x + y)
  {
    forall i | 0 <= i < |x + y| ensures (x + y)[i] != '.' && (x + y)[i] != '(' {
      if i < |x| { assert (x + y)[i] == x[i]; } else { assert (x + y)[i] == y[i - |x|]; }
    }
  }

  /** Without a dot there is no marker, so the markup removal changes nothing. */
  lemma {:induction false} RemoveMarkupNoDot(s: string)
    requires NoChar(s, '.')
    ensures RemoveMarkup(s) == s
    decreases |s|
  {
    if s != [] {
      assert MwMatchLength(s) == 0;
      RemoveMarkupNoDot(s[1..]);
    }
  }

  /** A line without a newline runs to the end of the text, or stops at the newline after it. */
  lemma LineLengthExact(line: string, tail: string)
    requires NoChar(line, '\n')
    ensures LineLength(line) == |line|
    ensures LineLength(line + "\n" + tail) == |line|
  {
    var s := line + "\n" + tail;
    assert s[|line|] == '\n';
    assert forall j :: 0 <= j < |line| ==> s[j] == line[j];
  }

  /** After whitespace, the marker matches together with the rest of its line. */
  lemma MwMatchAfter(w: string, r: string)
    requires AllSpace(w)
    ensures MwMatchLength(w + MwMarker + r) ==
      |w| + |MwMarker| + (if LineLength(r) < |r| then LineLength(r) + 1 else LineLength(r))
  {
    var s := w + MwMarker + r;
    assert s[..|w|] == w;
    assert s[|w|] == '.';
    LeadingUpTo(s, |w|);
    assert s[|w|..|w| + |MwMarker|] == MwMarker;
    assert s[|w| + |MwMarker|..] == r;
  }

  /**
   * The markup pattern's exact extent: the leading whitespace, the marker and
   * the rest of the line including its newline, or up to the end of the text.
   */
  lemma MwMatchLine(w: string, line: string, tail: string)
    requires AllSpace(w) && NoChar(line, '\n')
    ensures MwMatchLength(w + MwMarker + line + "\n" + tail) == |w| + |MwMarker| + |line| + 1
    ensures MwMatchLength(w + MwMarker + line) == |w| + |MwMarker| + |line|
  {
    LineLengthExact(line, tail);
    MwMatchAfter(w, line + "\n" + tail);
    MwMatchAfter(w, line);
    TailGroup(w, MwMarker, line, "\n", tail);
  }

  lemma TailGroup<T>(a: seq<T>, b: seq<T>, c: seq<T>, d: seq<T>, e: seq<T>)
    ensures a + b + c + d + e == a + b + (c + d + e)
  {
  }

  /**
   * A leaked stylesheet line is deleted up to and including its newline, and
   * one at the end of the text is deleted to the end.
   */
  lemma RemoveMarkupLine(w: string, line: string, tail: string)
    requires AllSpace(w) && NoChar(line, '\n')
    ensures RemoveMarkup(w + MwMarker + line + "\n" + tail) == RemoveMarkup(tail)
    ensures RemoveMarkup(w + MwMarker + line) == []
  {
    MwMatchLine(w, line, tail);
    var s := w + MwMarker + line + "\n" + tail;
    assert s[|w| + |MwMarker| + |line| + 1..] == tail;
    var t := w + MwMarker + line;
    assert t[|t|..] == [];
  }

  /**
   * Text without a dot passes through the markup removal untouched, as long as
   * the marker cannot start right behind whitespace at its end.
   */
  lemma {:induction false} RemoveMarkupPrefix(p: string, q: string)
    requires NoChar(p, '.')
    requires p == [] || !IsSpace(p[|p| - 1]) || q == [] || (!IsSpace(q[0]) && q[0] != '.')
    ensures RemoveMarkup(p + q) == p + RemoveMarkup(q)
    decreases |p|
  {
    if p != [] {
      RemoveMarkupKeepsHead(p, q);
      RemoveMarkupPrefix(p[1..], q);
      ConsAppend(p, RemoveMarkup(q));
    } else {
      assert p + q == q;
    }
  }

  lemma TailConcat<T>(p: seq<T>, q: seq<T>)
    requires p != []
    ensures (p + q)[0] == p[0] && (p + q)[1..] == p[1..] + q
  {
  }

  lemma ConsAppend<T>(p: seq<T>, r: seq<T>)
    requires p != []
    ensures [p[0]] + (p[1..] + r) == p + r
  {
  }

  /** One step of RemoveMarkupPrefix: the first character of `p` is kept. */
  lemma RemoveMarkupKeepsHead(p: string, q: string)
    requires p != [] && NoChar(p, '.')
    requires !IsSpace(p[|p| - 1]) || q == [] || (!IsSpace(q[0]) && q[0] != '.')
    ensures RemoveMarkup(p + q) == [p[0]] + RemoveMarkup(p[1..] + q)
  {
    MwNoMatchBefore(p, q);
    RemoveMarkupCons(p + q);
    TailConcat(p, q);
  }

  /** Where the markup pattern does not match, the first character is kept. */
  lemma RemoveMarkupCons(s: string)
    requires s != [] && MwMatchLength(s) == 0
    ensures RemoveMarkup(s) == [s[0]] + RemoveMarkup(s[1..])
  {
  }

  /** The markup pattern does not match at a dot-free text, given the same condition at its end. */
  lemma MwNoMatchBefore(p: string, q: string)
    requires p != [] && NoChar(p, '.')
    requires !IsSpace(p[|p| - 1]) || q == [] || (!IsSpace(q[0]) && q[0] != '.')
    ensures MwMatchLength(p + q) == 0
  {
    var s := p + q;
    var k := LeadingSpace(s);
    if k < |p| {
      assert s[k] == p[k];
    } else if k < |s| {
      assert IsSpace(s[..k][|p| - 1]);
      assert s[|p|] == q[0];
    }
  }

  /** A text that does not contain the marker passes through the markup removal untouched. */
  lemma {:induction false} RemoveMarkupNoMarker(s: string)
    requires !Contains(s, MwMarker)
    ensures RemoveMarkup(s) == s
    decreases |s|
  {
    if s != [] {
      var k := LeadingSpace(s);
      if k + |MwMarker| <= |s| {
        ContainsAtEither(s, MwMarker, k);
      }
      assert MwMatchLength(s) == 0;
      RemoveMarkupNoMarker(s[1..]);
    }
  }

  /** Parentheses around a note cannot create the marker. */
  lemma AnnotationNoMarker(note: string)
    requires !Contains(note, MwMarker)
    ensures !Contains("(" + note + ")", MwMarker)
  {
    ContainsSnoc(note, ')', MwMarker);
    ContainsCons('(', note + [')'], MwMarker);
    assert "(" + note + ")" == ['('] + (note + [')']);
  }

  /** Text before the first `(` passes through the annotation removal untouched. */
  lemma {:induction false} RemoveParensPrefix(p: string, q: string)
    requires NoChar(p, '(')
    ensures RemoveParens(p + q) == p + RemoveParens(q)
    decreases |p|
  {
    if p != [] {
      var s := p + q;
      assert s[0] == p[0] != '(';
      assert ParenMatchLength(s) == 0;
      assert s[1..] == p[1..] + q;
      assert RemoveParens(s) == [p[0]] + RemoveParens(p[1..] + q);
      RemoveParensPrefix(p[1..], q);
      assert [p[0]] + p[1..] == p;
    } else {
      assert p + q == q;
    }
  }

  /** A parenthesised annotation closed on its line is removed entirely. */
  lemma RemoveParensGroup(inner: string)
    requires NoChar(inner, ')') && NoChar(inner, '\n')
    ensures RemoveParens("(" + inner + ")") == []
  {
    var s := "(" + inner + ")";
    var t := s[1..];
    assert t == inner + ")";
    assert t[|inner|] == ')';
    var g := GroupLength(t);
    forall j | 0 <= j < |inner| ensures t[j] == inner[j] { }
    assert g == |inner|;
    assert ParenMatchLength(s) == |s|;
    assert s[|s|..] == [];
  }

  /** Where the four runs of the pattern end determines the match. */
  lemma MatchAtRuns(t: string, i: nat, p: nat, q: nat, r: nat, e: nat)
    requires i < p <= q < r < e <= |t|
    requires DigitsEnd(t, i) == p && SpaceEnd(t, p) == q && IsSeparator(t[q])
    requires SpaceEnd(t, q + 1) == r && DigitsEnd(t, r) == e
    ensures MatchAt(t, i) == Some(ScoreMatch(i, e, t[i..p], t[r..e]))
  {
  }

  /** The pattern matches a whole text made of digits, spaces, a separator, spaces and digits. */
  lemma MatchAtWhole(t: string, p: nat, q: nat, r: nat)
    requires 0 < p <= q < r < |t|
    requires forall j :: 0 <= j < p ==> IsDigit(t[j])
    requires forall j :: p <= j < q ==> IsSpace(t[j])
    requires IsSeparator(t[q])
    requires forall j :: q < j < r ==> IsSpace(t[j])
    requires forall j :: r <= j < |t| ==> IsDigit(t[j])
    ensures MatchAt(t, 0) == Some(ScoreMatch(0, |t|, t[0..p], t[r..|t|]))
  {
    DigitsEndExact(t, 0, p);
    SpaceEndExact(t, p, q);
    SpaceEndExact(t, q + 1, r);
    DigitsEndExact(t, r, |t|);
    MatchAtRuns(t, 0, p, q, r, |t|);
  }

  /** The pattern at the start of a formatted score `a ws1 sep ws2 b` finds both digit groups whole. */
  lemma MatchFormatted(t: string, a: string, w1: string, sep: char, w2: string, b: string)
    requires a != [] && AllDigits(a) && b != [] && AllDigits(b)
    requires AllSpace(w1) && AllSpace(w2) && IsSeparator(sep)
    requires t == a + w1 + [sep] + w2 + b
    ensures MatchAt(t, 0) == Some(ScoreMatch(0, |t|, a, b))
  {
    var p := |a|;
    var q := p + |w1|;
    var r := q + 1 + |w2|;
    assert forall j :: 0 <= j < p ==> t[j] == a[j];
    assert forall j :: p <= j < q ==> t[j] == w1[j - p];
    assert t[q] == sep;
    assert forall j :: q < j < r ==> t[j] == w2[j - q - 1];
    assert forall j :: r <= j < |t| ==> t[j] == b[j - r];
    assert t[0..p] == a;
    assert t[r..|t|] == b;
    MatchAtWhole(t, p, q, r);
  }

  /** The optional parenthesised annotation after a score, as written on the page. */
  function Annotation(note: Option<string>): string
  {
    if note.Some? then "(" + note.value + ")" else []
  }

  /** Cleaning a formatted score followed by padding and an annotation leaves the bare score. */
  lemma CleanedFormatted(s: string, core: string, pad: string, note: Option<string>)
    requires Plain(core) && core != [] && !IsSpace(core[0]) && !IsSpace(core[|core| - 1])
    requires AllSpace(pad)
    requires note.Some? ==> NoChar(note.value, ')') && NoChar(note.value, '\n') && !Contains(note.value, MwMarker)
    requires s == core + pad + Annotation(note)
    ensures CleanedScoreText(s) == core
  {
    var tail := Annotation(note);
    var head := core + pad;
    assert Plain(head) by {
      assert Plain(pad);
      PlainConcat(core, pad);
    }
    assert RemoveMarkup(s) == s by {
      if note.Some? {
        AnnotationNoMarker(note.value);
      }
      RemoveMarkupNoMarker(tail);
      RemoveMarkupPrefix(head, tail);
    }
    assert RemoveParens(s) == head by {
      RemoveParensPrefix(head, tail);
      if note.Some? {
        RemoveParensGroup(note.value);
      }
      assert head + [] == head;
    }
    StripPadded([], core, pad);
    assert [] + core + pad == head;
  }

  /** A formatted score `a sep b` is dot-free, bracket-free and starts and ends with a digit. */
  lemma FormattedPlain(a: string, w1: string, sep: char, w2: string, b: string)
    requires a != [] && AllDigits(a) && b != [] && AllDigits(b)
    requires AllSpace(w1) && AllSpace(w2) && IsSeparator(sep)
    ensures var core := a + w1 + [sep] + w2 + b;
      Plain(core) && core != [] && !IsSpace(core[0]) && !IsSpace(core[|core| - 1])
  {
    var core := a + w1 + [sep] + w2 + b;
    assert Plain(a) && Plain(b) && Plain(w1) && Plain(w2) && Plain([sep]);
    PlainConcat(a, w1);
    PlainConcat(a + w1, [sep]);
    PlainConcat(a + w1 + [sep], w2);
    PlainConcat(a + w1 + [sep] + w2, b);
    assert core[0] == a[0];
    assert core[|core| - 1] == b[|b| - 1];
  }

  /** Once cleaning leaves exactly a formatted score, `clean_score` returns its two numbers. */
  lemma CleanScoreOfCleaned(s: string, a: string, w1: string, sep: char, w2: string, b: string)
    requires a != [] && AllDigits(a) && b != [] && AllDigits(b)
    requires AllSpace(w1) && AllSpace(w2) && IsSeparator(sep)
    requires CleanedScoreText(s) == a + w1 + [sep] + w2 + b
    ensures CleanScoreText(s) == Some(ScorePair(a, b))
  {
    MatchFormatted(CleanedScoreText(s), a, w1, sep, w2, b);
  }

  /**
   * Round trip of the score parser: a formatted score `a sep b` (optional
   * whitespace around the separator), optionally followed by whitespace and a
   * parenthesised annotation such as a penalty shoot-out, parses to `(a, b)`.
   */
  lemma CleanScoreFormatted(s: string, a: string, w1: string, sep: char, w2: string, b: string,
                            pad: string, note: Option<string>)
    requires a != [] && AllDigits(a) && b != [] && AllDigits(b)
    requires AllSpace(w1) && AllSpace(w2) && AllSpace(pad) && IsSeparator(sep)
    requires note.Some? ==> NoChar(note.value, ')') && NoChar(note.value, '\n') && !Contains(note.value, MwMarker)
    requires s == a + w1 + [sep] + w2 + b + pad + Annotation(note)
    ensures CleanScoreText(s) == Some(ScorePair(a, b))
  {
    FormattedPlain(a, w1, sep, w2, b);
    CleanedFormatted(s, a + w1 + [sep] + w2 + b, pad, note);
    CleanScoreOfCleaned(s, a, w1, sep, w2, b);
  }

  /** A bare formatted score is found by the search and parses to its two numbers. */
  lemma CleanScoreBare(a: string, w1: string, sep: char, w2: string, b: string)
    requires a != [] && AllDigits(a) && b != [] && AllDigits(b)
    requires AllSpace(w1) && AllSpace(w2) && IsSeparator(sep)
    ensures HasScore(a + w1 + [sep] + w2 + b)
    ensures CleanScoreText(a + w1 + [sep] + w2 + b) == Some(ScorePair(a, b))
  {
    var t := a + w1 + [sep] + w2 + b;
    MatchFormatted(t, a, w1, sep, w2, b);
    assert t == a + w1 + [sep] + w2 + b + [] + Annotation(None);
    CleanScoreFormatted(t, a, w1, sep, w2, b, [], None);
  }

  /**
   * A leaked stylesheet after a formatted score, from the marker to the end of
   * its line (and any whitespace after that newline), is deleted: the score
   * still parses to `(a, b)`.
   */
  lemma CleanScoreWithMarkup(s: string, a: string, w1: string, sep: char, w2: string, b: string,
                             w: string, line: string, end: string)
    requires a != [] && AllDigits(a) && b != [] && AllDigits(b)
    requires AllSpace(w1) && AllSpace(w2) && AllSpace(w) && IsSeparator(sep)
    requires NoChar(line, '\n') && AllSpace(end) && (end == [] || end[0] == '\n')
    requires s == a + w1 + [sep] + w2 + b + w + MwMarker + line + end
    ensures CleanScoreText(s) == Some(ScorePair(a, b))
  {
    var core := a + w1 + [sep] + w2 + b;
    FormattedPlain(a, w1, sep, w2, b);
    var leak := w + MwMarker + line + end;
    var rest := RemoveMarkupLeak(w, line, end);
    assert RemoveMarkup(s) == core + rest by {
      ScoreThenLeak(a, w1, [sep], w2, b, w, MwMarker, line, end);
      RemoveMarkupPrefix(core, leak);
    }
    assert RemoveParens(core + rest) == core + rest by {
      assert Plain(rest);
      PlainConcat(core, rest);
      RemoveParensPrefix(core + rest, []);
      assert core + rest + [] == core + rest;
    }
    StripPadded([], core, rest);
    assert [] + core + rest == core + rest;
    CleanScoreOfCleaned(s, a, w1, sep, w2, b);
  }

  lemma ScoreThenLeak<T>(a: seq<T>, w1: seq<T>, sep: seq<T>, w2: seq<T>, b: seq<T>,
                        w: seq<T>, m: seq<T>, line: seq<T>, end: seq<T>)
    ensures a + w1 + sep + w2 + b + w + m + line + end == (a + w1 + sep + w2 + b) + (w + m + line + end)
  {
  }

  /** A leaked stylesheet line followed by nothing but whitespace leaves only that whitespace. */
  lemma RemoveMarkupLeak(w: string, line: string, end: string) returns (rest: string)
    requires AllSpace(w) && NoChar(line, '\n') && AllSpace(end) && (end == [] || end[0] == '\n')
    ensures AllSpace(rest)
    ensures RemoveMarkup(w + MwMarker + line + end) == rest
  {
    if end == [] {
      rest := [];
      assert w + MwMarker + line + end == w + MwMarker + line;
    } else {
      rest := end[1..];
      assert w + MwMarker + line + end == w + MwMarker + line + "\n" + rest;
      RemoveMarkupNoDot(rest);
    }
    RemoveMarkupLine(w, line, rest);
  }

  /** `clean_score("1:1 (4:3)")` is `("1", "1")`: the shoot-out annotation is ignored. */
  lemma CleanScorePenaltyExample()
    ensures CleanScore(Some("1:1 (4:3)")) == Some(ScorePair("1", "1"))
  {
    var s := "1:1 (4:3)";
    assert s == "1" + [] + [':'] + [] + "1" + " " + Annotation(Some("4:3"));
    CleanScoreFormatted(s, "1", [], ':', [], "1", " ", Some("4:3"));
  }

  /** A score that appears only inside parentheses is removed with them: `clean_score` fails. */
  lemma CleanScoreOnlyInParens(inner: string)
    requires NoChar(inner, ')') && NoChar(inner, '\n') && !Contains(inner, MwMarker)
    ensures CleanScoreText("(" + inner + ")").None?
  {
    var s := "(" + inner + ")";
    AnnotationNoMarker(inner);
    RemoveMarkupNoMarker(s);
    RemoveParensGroup(inner);
    assert MatchAt([], 0).None?;
  }

  /** A slice is the concatenation of its two halves at any cut. */
  lemma SliceSplit(s: string, i: nat, j: nat, k: nat)
    requires i <= j <= k <= |s|
    ensures s[i..k] == s[i..j] + s[j..k]
  {
  }

  /** A one-character slice is that character. */
  lemma SliceOne(s: string, i: nat)
    requires i < |s|
    ensures s[i..i + 1] == [s[i]]
  {
  }

  /** The greedy whitespace run starting at `i` is all whitespace. */
  lemma SpaceRun(s: string, i: nat)
    requires i <= |s|
    ensures AllSpace(s[i..SpaceEnd(s, i)])
  {
  }

  /** The text of a score match is its two digit groups around a separator padded with whitespace. */
  lemma MatchedTextShape(s: string, i: nat) returns (w1: string, sep: char, w2: string)
    requires i <= |s| && MatchAt(s, i).Some?
    ensures AllSpace(w1) && AllSpace(w2) && IsSeparator(sep)
    ensures s[i..MatchAt(s, i).value.end] == MatchAt(s, i).value.home + w1 + [sep] + w2 + MatchAt(s, i).value.away
  {
    var p := DigitsEnd(s, i);
    var q := SpaceEnd(s, p);
    var r := SpaceEnd(s, q + 1);
    var e := DigitsEnd(s, r);
    assert MatchAt(s, i).value == ScoreMatch(i, e, s[i..p], s[r..e]);
    w1, sep, w2 := s[p..q], s[q], s[q + 1..r];
    SliceSplit(s, i, r, e);
    SliceSplit(s, i, q + 1, r);
    SliceSplit(s, i, q, q + 1);
    SliceSplit(s, i, p, q);
    SliceOne(s, q);
    SpaceRun(s, p);
    SpaceRun(s, q + 1);
  }

  /** The text of a score match parses back to that match's two digit groups. */
  lemma MatchedTextParses(s: string, i: nat)
    requires i <= |s| && MatchAt(s, i).Some?
    ensures CleanScoreText(s[i..MatchAt(s, i).value.end]) ==
      Some(ScorePair(MatchAt(s, i).value.home, MatchAt(s, i).value.away))
  {
    var m := MatchAt(s, i).value;
    var w1, sep, w2 := MatchedTextShape(s, i);
    CleanScoreBare(m.home, w1, sep, w2, m.away);
  }

  /**
   * The first score-shaped substring of any text parses back to its own two
   * digit groups: retrying `clean_score` on `m.group(0)` cannot fail.
   */
  lemma CleanScoreOfFirstMatch(s: string)
    requires HasScore(s)
    ensures CleanScoreText(FirstScoreText(s)) == Some(ScorePair(Search(s).value.home, Search(s).value.away))
  {
    MatchedTextParses(s, Search(s).value.start);
  }
}
