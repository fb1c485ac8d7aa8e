/** The regular expressions of the scraper and of the extractor, each written
    out as the matcher it denotes over `seq<char>`. Case-insensitive matching
    folds the ASCII letters only, which is exact for these ASCII patterns
    without the `u` flag: JavaScript then never folds a non-ASCII character
    to an ASCII one. */
module Patterns {
  import opened Text

  datatype Option<T> = None | Some(value: T)

  /** `\b` at `i`: a word character on exactly one side. */
  predicate Boundary(s: string, i: int) {
    (0 < i <= |s| && IsWordChar(s[i - 1])) != (0 <= i < |s| && IsWordChar(s[i]))
  }

  /** The lower-case `pat` occurs at `i` when the case of ASCII letters is
      ignored. */
  predicate FoldsAt(s: string, pat: string, i: int) {
    0 <= i && i + |pat| <= |s| && forall k :: 0 <= k < |pat| ==> LowerChar(s[i + k]) == pat[k]
  }

  /** The separators requisite texts are split on. */
  datatype Delim =
    | AndWord   // `/\band\b|; /` of the scraper
    | AndSpace  // `/and |; /` of the extractor
    | OrWord    // `/,|\bor\b/i` of the scraper
    | OrAny     // `/,|or/` of the extractor

  /** The length of the separator matched at `i`, or 0 when none is. */
  function DelimLen(d: Delim, s: string, i: nat): (n: nat)
    ensures n > 0 ==> i + n <= |s|
  {
    match d
    case AndWord =>
      if OccursAt(s, "and", i) && Boundary(s, i) && Boundary(s, i + 3) then 3
      else if OccursAt(s, "; ", i) then 2 else 0
    case AndSpace =>
      if OccursAt(s, "and ", i) then 4 else if OccursAt(s, "; ", i) then 2 else 0
    case OrWord =>
      if OccursAt(s, ",", i) then 1
      else if FoldsAt(s, "or", i) && Boundary(s, i) && Boundary(s, i + 2) then 2 else 0
    case OrAny =>
      if OccursAt(s, ",", i) then 1 else if OccursAt(s, "or", i) then 2 else 0
  }

  /** A separator as a matcher: the length of the match at index `i`. */
  function Sep(d: Delim): (string, nat) -> nat {
    (t: string, i: nat) => DelimLen(d, t, i)
  }

  /** The leftmost index at or after `from` where `m` matches, or -1. */
  function FirstCut(m: (string, nat) -> nat, s: string, from: nat): (k: int)
    requires from <= |s|
    ensures k == -1 || (from <= k < |s| && m(s, k) > 0)
    ensures forall i :: from <= i < |s| && (k == -1 || i < k) ==> m(s, i) == 0
    decreases |s| - from
  {
    if from == |s| then -1
    else if m(s, from) > 0 then from
    else FirstCut(m, s, from + 1)
  }

  /** Where the match at `k` ends. */
  function CutEnd(m: (string, nat) -> nat, s: string, k: nat): (e: nat)
    requires k < |s|
    ensures k < e <= |s| || m(s, k) == 0
    ensures m(s, k) > 0 ==> e == if k + m(s, k) <= |s| then k + m(s, k) else |s|
  {
    if k + m(s, k) <= |s| then k + m(s, k) else |s|
  }

  /** `s.split(re)` from index `p` on: the pieces between the matches,
      scanned left to right in the whole string, so that `\b` still sees
      the character before `p`. */
  function PiecesFrom(m: (string, nat) -> nat, s: string, p: nat): (r: seq<string>)
    requires p <= |s|
    ensures |r| >= 1
    decreases |s| - p
  {
    var k := FirstCut(m, s, p);
    if k == -1 then [s[p..]] else [s[p..k]] + PiecesFrom(m, s, CutEnd(m, s, k))
  }

  /** The separators `PiecesFrom` cuts out, in order. */
  function CutsFrom(m: (string, nat) -> nat, s: string, p: nat): (r: seq<string>)
    requires p <= |s|
    decreases |s| - p
  {
    var k := FirstCut(m, s, p);
    if k == -1 then [] else [s[k..CutEnd(m, s, k)]] + CutsFrom(m, s, CutEnd(m, s, k))
  }

  /** `s.split(re)` for one of the separators. */
  function Pieces(d: Delim, s: string): (r: seq<string>)
    ensures |r| >= 1
  {
    PiecesFrom(Sep(d), s, 0)
  }

  /** The pieces with the separators put back between them. */
  function Weave(pieces: seq<string>, cuts: seq<string>): string
    requires |pieces| == |cuts| + 1
    decreases |cuts|
  {
    if cuts == [] then pieces[0] else pieces[0] + cuts[0] + Weave(pieces[1..], cuts[1..])
  }

  /** One more piece than separators. */
  lemma {:induction false} PiecesOutnumberCuts(m: (string, nat) -> nat, s: string, p: nat)
    requires p <= |s|
    ensures |PiecesFrom(m, s, p)| == |CutsFrom(m, s, p)| + 1
    decreases |s| - p
  {
    var k := FirstCut(m, s, p);
    if k != -1 {
      PiecesOutnumberCuts(m, s, CutEnd(m, s, k));
    }
  }

  /** Putting the cut separators back between the pieces gives the string
      back: the split loses nothing but the separators. */
  lemma {:induction false} WeavePieces(m: (string, nat) -> nat, s: string, p: nat)
    requires p <= |s|
    ensures |PiecesFrom(m, s, p)| == |CutsFrom(m, s, p)| + 1
    ensures Weave(PiecesFrom(m, s, p), CutsFrom(m, s, p)) == s[p..]
    decreases |s| - p
  {
    PiecesOutnumberCuts(m, s, p);
    var k := FirstCut(m, s, p);
    if k != -1 {
      var e := CutEnd(m, s, k);
      WeavePieces(m, s, e);
      WeaveStep(s, p, k, e, PiecesFrom(m, s, e), CutsFrom(m, s, e));
    }
  }

  lemma WeaveStep(s: string, p: nat, k: nat, e: nat, ps: seq<string>, cs: seq<string>)
    requires p <= k <= e <= |s| && |ps| == |cs| + 1 && Weave(ps, cs) == s[e..]
    ensures Weave([s[p..k]] + ps, [s[k..e]] + cs) == s[p..]
  {
    var x, y := s[p..k], s[k..e];
    var pieces, cuts := [x] + ps, [y] + cs;
    assert pieces[0] == x && cuts[0] == y && pieces[1..] == ps && cuts[1..] == cs;
    assert Weave(pieces, cuts) == x + y + Weave(ps, cs);
    Rejoin(s, p, k, e);
  }

  lemma Rejoin<T>(s: seq<T>, p: nat, k: nat, e: nat)
    requires p <= k <= e <= |s|
    ensures s[p..k] + s[k..e] + s[e..] == s[p..]
  {
  }

  /** No piece holds a separator: every index the piece spans is passed
      over by the scan. */
  lemma {:induction false} PieceHasNoCut(m: (string, nat) -> nat, s: string, p: nat, j: nat)
    requires p <= |s| && j < |PiecesFrom(m, s, p)|
    ensures exists b :: PieceAt(m, s, PiecesFrom(m, s, p)[j], b)
    decreases |s| - p
  {
    var k := FirstCut(m, s, p);
    if j == 0 {
      var piece := PiecesFrom(m, s, p)[0];
      assert PieceAt(m, s, piece, p);
    } else {
      var e := CutEnd(m, s, k);
      PieceHasNoCut(m, s, e, j - 1);
      assert PiecesFrom(m, s, p)[j] == PiecesFrom(m, s, e)[j - 1];
    }
  }

  /** A split whose first match is at `k` has the text before `k` as its
      first piece. */
  lemma FirstPieceAt(m: (string, nat) -> nat, s: string, k: nat)
    requires k < |s| && m(s, k) > 0
    requires forall i :: 0 <= i < k ==> m(s, i) == 0
    ensures PiecesFrom(m, s, 0) == [s[..k]] + PiecesFrom(m, s, CutEnd(m, s, k))
  {
    assert FirstCut(m, s, 0) == k;
  }

  /** A split whose first match is a separator of length `n` right after
      the prefix `a` has `a` as its first piece. */
  lemma FirstPieceIs(m: (string, nat) -> nat, s: string, a: string, n: nat)
    requires a <= s && |a| < |s| && m(s, |a|) == n && 0 < n && |a| + n <= |s|
    requires forall i :: 0 <= i < |a| ==> m(s, i) == 0
    ensures PiecesFrom(m, s, 0) == [a] + PiecesFrom(m, s, |a| + n)
  {
    FirstPieceAt(m, s, |a|);
    assert s[..|a|] == a;
  }

  /** `piece` stands in `s` at `b` and `m` matches nowhere inside it. */
  predicate PieceAt(m: (string, nat) -> nat, s: string, piece: string, b: int) {
    0 <= b && b + |piece| <= |s| && piece == s[b..b + |piece|] &&
    forall i :: b <= i < b + |piece| ==> m(s, i) == 0
  }

  /** `s.replace(re, "")` for a pattern matched by `at`: the first match
      removed. With `/one of/i` the match ignores case; with
      `/one of|One of/` it is one of the two spellings. */
  datatype OneOf = FoldedOneOf | SpelledOneOf

  predicate OneOfAt(o: OneOf, s: string, i: int) {
    match o
    case FoldedOneOf => FoldsAt(s, "one of", i)
    case SpelledOneOf => OccursAt(s, "one of", i) || OccursAt(s, "One of", i)
  }

  function FirstOneOf(o: OneOf, s: string, from: nat): (k: int)
    requires from <= |s|
    ensures k == -1 || (from <= k && OneOfAt(o, s, k))
    ensures forall i :: from <= i && (k == -1 || i < k) ==> !OneOfAt(o, s, i)
    decreases |s| - from
  {
    if OneOfAt(o, s, from) then from
    else if from + 6 >= |s| then -1
    else FirstOneOf(o, s, from + 1)
  }

  /** The first "one of" removed, or the string itself when there is none. */
  function DropOneOf(o: OneOf, s: string): (r: string)
    ensures FirstOneOf(o, s, 0) == -1 ==> r == s
    ensures FirstOneOf(o, s, 0) != -1 ==>
      r == s[..FirstOneOf(o, s, 0)] + s[FirstOneOf(o, s, 0) + 6..] && |r| + 6 == |s|
  {
    var k := FirstOneOf(o, s, 0);
    if k == -1 then s else s[..k] + s[k + 6..]
  }

  /** The end of the line `.` may run over from `j`: the first line
      terminator at or after `j`, or the end of the string. */
  function LineEnd(s: string, j: nat): (e: nat)
    requires j <= |s|
    ensures j <= e <= |s|
    ensures e < |s| ==> IsLineTerminator(s[e])
    ensures forall i :: j <= i < e ==> !IsLineTerminator(s[i])
    decreases |s| - j
  {
    if j == |s| || IsLineTerminator(s[j]) then j else LineEnd(s, j + 1)
  }

  /** The first index at or after `j` past a run of `c`. */
  function SkipRun(s: string, c: char, j: nat): (e: nat)
    requires j <= |s|
    ensures j <= e <= |s| && (e < |s| ==> s[e] != c)
    ensures forall i :: j <= i < e ==> s[i] == c
    decreases |s| - j
  {
    if j < |s| && s[j] == c then SkipRun(s, c, j + 1) else j
  }

  /** `(.+?)(?:\.)` from `g`: the lazy group ends at the first '.' after at
      least one character, as long as no line terminator comes first. */
  function LazyToDot(s: string, g: nat): (d: Option<nat>)
    requires g <= |s|
    ensures d.Some? ==> g < d.value < |s| && s[d.value] == '.'
    ensures d.Some? ==> forall i :: g <= i < d.value ==> !IsLineTerminator(s[i])
    ensures d.Some? ==> forall i :: g < i < d.value ==> s[i] != '.'
    ensures d.None? <==> forall e :: g < e < |s| && s[e] == '.' ==> exists i :: g <= i < e && IsLineTerminator(s[i])
  {
    if g == |s| || IsLineTerminator(s[g]) then None
    else
      var e := LineEnd(s, g + 1);
      var k := DotBefore(s, g + 1, e);
      if k == -1 then None else Some(k)
  }

  /** The first '.' in `s[from..e]`, or -1. */
  function DotBefore(s: string, from: nat, e: nat): (k: int)
    requires from <= e <= |s|
    ensures k == -1 || (from <= k < e && s[k] == '.')
    ensures forall i :: from <= i < e && (k == -1 || i < k) ==> s[i] != '.'
    decreases e - from
  {
    if from == e then -1 else if s[from] == '.' then from else DotBefore(s, from + 1, e)
  }

  /** The colons after the label: any run of them (`:*`, the scraper) or
      exactly one (`:`, the extractor). */
  datatype Colon = ColonRun | OneColon

  /** `/<word>s*:* (.+?)(?:\.)/`, or `/<word>s*: (.+?)(?:\.)/` with one
      colon, tried at `i`: the bounds of the group. */
  function SentenceAt(s: string, word: string, colon: Colon, i: nat): (r: Option<(nat, nat)>)
    ensures r.Some? ==> i + |word| < r.value.0 < r.value.1 < |s|
  {
    if !OccursAt(s, word, i) then None
    else
      var a := SkipRun(s, 's', i + |word|);
      match colon
      case ColonRun => GroupAt(s, SkipRun(s, ':', a))
      case OneColon => if a < |s| && s[a] == ':' then GroupAt(s, a + 1) else None
  }

  /** ` (.+?)(?:\.)` at `b`: the bounds of the group. */
  function GroupAt(s: string, b: nat): (r: Option<(nat, nat)>)
    ensures r.Some? ==> b < r.value.0 < r.value.1 < |s|
  {
    if b < |s| && s[b] == ' ' then
      var d := LazyToDot(s, b + 1);
      if d.Some? then Some((b + 1, d.value)) else None
    else None
  }

  /** The leftmost match of the requisite sentence at or after `from`. */
  function FirstSentence(s: string, word: string, colon: Colon, from: nat): (r: Option<(nat, nat, nat)>)
    requires from <= |s|
    ensures r.Some? ==> from <= r.value.0 && SentenceAt(s, word, colon, r.value.0) == Some((r.value.1, r.value.2))
    ensures forall i :: from <= i && (r.None? || i < r.value.0) ==> SentenceAt(s, word, colon, i).None?
    decreases |s| - from
  {
    match SentenceAt(s, word, colon, from)
    case Some(g) => Some((from, g.0, g.1))
    case None =>
      if from + |word| >= |s| then
        assert forall i :: from < i ==> !OccursAt(s, word, i);
        None
      else FirstSentence(s, word, colon, from + 1)
  }

  /** `text.match(re)` for the requisite sentence: the index of the match
      and its group. */
  function Sentence(s: string, word: string, colon: Colon): (r: Option<(nat, string)>)
    ensures r.Some? ==> r.value.0 < |s| && r.value.1 != []
    ensures r.Some? ==> OccursAt(s, word, r.value.0)
  {
    var m := FirstSentence(s, word, colon, 0);
    if m.Some? then Some((m.value.0, s[m.value.1..m.value.2])) else None
  }

  /** The two generic-course patterns of the scraper. */
  datatype Generic =
    | LevelCourseIn  // `/(?:Any|a) (\d{3})-level course in (.*)/i`
    | LevelCourse    // `/(?:Any|a) (\d{3})-level (.*) course/i`

  /** `(?:Any|a) (\d{3})-level ` at `p`: the index of the three digits. The
      alternation tries "Any" first; when it matches, "a" cannot, because
      the character after it is 'n' and not a space. */
  function LevelAt(s: string, p: nat): (q: Option<nat>)
    ensures q.Some? ==> p < q.value && q.value + 10 <= |s|
    ensures q.Some? ==> forall k :: q.value <= k < q.value + 3 ==> IsDigit(s[k])
  {
    var t := if FoldsAt(s, "any", p) then p + 3 else if FoldsAt(s, "a", p) then p + 1 else p;
    if t > p && t + 11 <= |s| && s[t] == ' ' && IsDigit(s[t + 1]) && IsDigit(s[t + 2]) && IsDigit(s[t + 3])
      && FoldsAt(s, "-level ", t + 4)
    then Some(t + 1) else None
  }

  /** The last `k` in `[j, e - 7]` where " course" starts, or -1: the
      greedy `(.*)` gives characters back from the end of the line until
      " course" follows. */
  function LastCourse(s: string, j: nat, k: int): (r: int)
    requires k <= |s|
    ensures r == -1 || (j <= r <= k && FoldsAt(s, " course", r))
    ensures forall i :: j <= i <= k && r < i ==> !FoldsAt(s, " course", i)
    decreases k - j + 1
  {
    if k < j then -1 else if FoldsAt(s, " course", k) then k else LastCourse(s, j, k - 1)
  }

  /** A generic pattern tried at `p`: the level digits and the subject
      group. */
  function GenericAt(g: Generic, s: string, p: nat): (r: Option<(string, string)>)
    ensures r.Some? ==> |r.value.0| == 3 && IsDigit(r.value.0[0])
  {
    var q := LevelAt(s, p);
    if q.None? then None
    else
      var level := s[q.value..q.value + 3];
      var j := q.value + 10;
      match g
      case LevelCourseIn =>
        if FoldsAt(s, "course in ", j) then
          var b := j + 10;
          Some((level, s[b..LineEnd(s, b)]))
        else None
      case LevelCourse =>
        var k := LastCourse(s, j, LineEnd(s, j) - 7);
        if k == -1 then None else Some((level, s[j..k]))
  }

  /** The leftmost match of a generic pattern at or after `from`. */
  function FirstGeneric(g: Generic, s: string, from: nat): (r: Option<(string, string)>)
    requires from <= |s|
    ensures r.Some? ==> exists p :: from <= p && GenericAt(g, s, p) == r
    ensures r.None? ==> forall p :: from <= p ==> GenericAt(g, s, p).None?
    decreases |s| - from
  {
    if GenericAt(g, s, from).Some? then GenericAt(g, s, from)
    else if from == |s| then
      assert forall p :: from <= p ==> LevelAt(s, p).None?;
      None
    else FirstGeneric(g, s, from + 1)
  }

  /** A character of the class `[A-z]`: the range from 'A' to 'z', which
      also holds the six characters `[`, `\`, `]`, `^`, `_` and the
      backquote. */
  predicate InAz(c: char) { 'A' <= c <= 'z' }

  predicate DigitOrX(c: char) { IsDigit(c) || c == 'X' }

  /** `[A-z ]{n} [\dX]{3}` at `q`. */
  predicate DottedCodeAt(s: string, q: nat, n: nat) {
    q + n + 4 <= |s| && (forall k :: q <= k < q + n ==> InAz(s[k]) || s[k] == ' ')
    && s[q + n] == ' ' && forall k :: q + n + 1 <= k < q + n + 4 ==> DigitOrX(s[k])
  }

  /** `[A-z]{n} \d{2}` at `q`. */
  predicate ShortCodeAt(s: string, q: nat, n: nat) {
    q + n + 3 <= |s| && (forall k :: q <= k < q + n ==> InAz(s[k]))
    && s[q + n] == ' ' && IsDigit(s[q + n + 1]) && IsDigit(s[q + n + 2])
  }

  /** `/([A-z ]{3,5} [\dX]{3})|([A-z]+ \d{2})/.test(s)`: a match at some
      index for some count the quantifiers allow. */
  predicate CodeLike(s: string) {
    exists q, n :: 0 <= q < |s| && 1 <= n <= |s| &&
      ((3 <= n <= 5 && DottedCodeAt(s, q, n)) || ShortCodeAt(s, q, n))
  }

  /** The same test read through the shortest counts: seven characters
      `[A-z ]{3} [\dX]{3}` or four characters `[A-z] \d{2}`. A longer run
      before the space always ends in a shorter one. */
  predicate CodeWindow(s: string) {
    exists q :: 0 <= q < |s| && (DottedCodeAt(s, q, 3) || ShortCodeAt(s, q, 1))
  }

  lemma CodeLikeWindow(s: string)
    ensures CodeLike(s) <==> CodeWindow(s)
  {
    if CodeLike(s) {
      var q, n :| 0 <= q < |s| && 1 <= n <= |s| &&
        ((3 <= n <= 5 && DottedCodeAt(s, q, n)) || ShortCodeAt(s, q, n));
      if 3 <= n <= 5 && DottedCodeAt(s, q, n) {
        assert DottedCodeAt(s, q + n - 3, 3);
      } else {
        assert ShortCodeAt(s, q + n - 1, 1);
      }
    }
    if CodeWindow(s) {
      var q :| 0 <= q < |s| && (DottedCodeAt(s, q, 3) || ShortCodeAt(s, q, 1));
      if DottedCodeAt(s, q, 3) {
        assert 3 <= |s|;
      }
    }
  }
}
