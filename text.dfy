/** The JavaScript string primitives the program relies on, over `seq<char>`.
    Indices follow JavaScript: a search that finds nothing answers -1, and
    `substring` and `slice` clamp their arguments instead of failing. */
module Text {

  /** The characters `String.prototype.trim` removes (the Unicode space
      separators other than U+00A0 are not modelled). */
  predicate IsSpace(c: char) {
    c == ' ' || c == '\t' || c == '\n' || c == '\r' || c == '\U{000B}' || c == '\U{000C}'
    || c == '\U{00A0}' || c == '\U{FEFF}' || c == '\U{2028}' || c == '\U{2029}'
  }

  /** Line terminators: the characters a regular-expression `.` does not match. */
  predicate IsLineTerminator(c: char) {
    c == '\n' || c == '\r' || c == '\U{2028}' || c == '\U{2029}'
  }

  predicate IsDigit(c: char) { '0' <= c <= '9' }

  /** `/[a-zA-Z]/` */
  predicate IsLetter(c: char) { 'a' <= c <= 'z' || 'A' <= c <= 'Z' }

  /** A character of the class `\w`, which decides where `\b` stands. */
  predicate IsWordChar(c: char) { IsLetter(c) || IsDigit(c) || c == '_' }

  function UpperChar(c: char): char {
    if 'a' <= c <= 'z' then (c as int - 32) as char else c
  }

  function LowerChar(c: char): char {
    if 'A' <= c <= 'Z' then (c as int + 32) as char else c
  }

  /** `toUpperCase`, on the ASCII letters. */
  function Upper(s: seq<char>): (r: seq<char>)
    ensures |r| == |s|
    ensures forall i :: 0 <= i < |s| ==> r[i] == UpperChar(s[i])
  {
    if s == [] then [] else [UpperChar(s[0])] + Upper(s[1..])
  }

  /** `toLowerCase`, on the ASCII letters. */
  function Lower(s: seq<char>): (r: seq<char>)
    ensures |r| == |s|
    ensures forall i :: 0 <= i < |s| ==> r[i] == LowerChar(s[i])
  {
    if s == [] then [] else [LowerChar(s[0])] + Lower(s[1..])
  }

  /** Lower-casing leaves no upper-case ASCII letter behind. */
  lemma LowerHasNoUpper(s: seq<char>)
    ensures forall i :: 0 <= i < |Lower(s)| ==> !('A' <= Lower(s)[i] <= 'Z')
  {
  }

  function TrimStart(s: seq<char>): (r: seq<char>)
    ensures |r| <= |s| && r == s[|s| - |r|..]
    ensures r == [] || !IsSpace(r[0])
    ensures forall i :: 0 <= i < |s| - |r| ==> IsSpace(s[i])
  {
    if s != [] && IsSpace(s[0]) then TrimStart(s[1..]) else s
  }

  function TrimEnd(s: seq<char>): (r: seq<char>)
    ensures |r| <= |s| && r == s[..|r|]
    ensures r == [] || !IsSpace(r[|r| - 1])
    ensures forall i :: |r| <= i < |s| ==> IsSpace(s[i])
  {
    if s != [] && IsSpace(s[|s| - 1]) then TrimEnd(s[..|s| - 1]) else s
  }

  /** `r` stands in `s` at index `i`. */
  predicate InfixAt(s: seq<char>, r: seq<char>, i: int) {
    0 <= i <= |s| - |r| && s[i..i + |r|] == r
  }

  /** `trim`: the infix left once the white space at both ends is cut
      away; it neither starts nor ends with white space. */
  function Trim(s: seq<char>): (r: seq<char>)
    ensures |r| <= |s|
    ensures r == [] || (!IsSpace(r[0]) && !IsSpace(r[|r| - 1]))
    ensures exists i :: InfixAt(s, r, i) && TrimmedAround(s, i, i + |r|)
  {
    var t := TrimStart(s);
    var r := TrimEnd(t);
    var i := |s| - |t|;
    assert InfixAt(s, r, i);
    assert forall j :: i + |r| <= j < |s| ==> s[j] == t[j - i];
    assert TrimmedAround(s, i, i + |r|);
    r
  }

  /** Everything before index `i` and from index `j` on is white space. */
  predicate TrimmedAround(s: seq<char>, i: int, j: int) {
    (forall k :: 0 <= k < i && k < |s| ==> IsSpace(s[k])) &&
    (forall k :: j <= k < |s| && 0 <= k ==> IsSpace(s[k]))
  }

  /** White space only is trimmed away entirely. */
  lemma TrimAllSpace(s: seq<char>)
    requires forall i :: 0 <= i < |s| ==> IsSpace(s[i])
    ensures Trim(s) == []
  {
  }

  /** A string that neither starts nor ends with white space is its own trim. */
  lemma TrimIdle(s: seq<char>)
    requires s == [] || (!IsSpace(s[0]) && !IsSpace(s[|s| - 1]))
    ensures Trim(s) == s
  {
  }

  predicate OccursAt(s: seq<char>, pat: seq<char>, i: int) {
    0 <= i && i + |pat| <= |s| && s[i..i + |pat|] == pat
  }

  /** `s.indexOf(pat, from)` for `from <= |s|`. */
  function IndexOf(s: seq<char>, pat: seq<char>, from: nat): (r: int)
    requires from <= |s|
    ensures r == -1 || (from <= r && OccursAt(s, pat, r))
    ensures r == -1 ==> forall i :: from <= i <= |s| ==> !OccursAt(s, pat, i)
    ensures forall i :: from <= i && (r == -1 || i < r) ==> !OccursAt(s, pat, i)
    decreases |s| - from
  {
    if OccursAt(s, pat, from) then from
    else if from + |pat| >= |s| then -1
    else IndexOf(s, pat, from + 1)
  }

  /** `s.includes(pat)` */
  predicate Contains(s: seq<char>, pat: seq<char>) {
    IndexOf(s, pat, 0) != -1
  }

  function LastIndexFrom(s: seq<char>, pat: seq<char>, i: int): (r: int)
    requires i <= |s|
    ensures r == -1 || (0 <= r <= i && OccursAt(s, pat, r))
    ensures forall j :: r < j <= i ==> !OccursAt(s, pat, j)
    decreases i + 1
  {
    if i < 0 then -1
    else if OccursAt(s, pat, i) then i
    else LastIndexFrom(s, pat, i - 1)
  }

  /** `s.lastIndexOf(pat)`: the last place `pat` occurs, or -1. */
  function LastIndexOf(s: seq<char>, pat: seq<char>): (r: int)
    ensures r == -1 || OccursAt(s, pat, r)
    ensures forall j :: r < j ==> !OccursAt(s, pat, j)
    ensures r == -1 <==> forall j :: !OccursAt(s, pat, j)
  {
    LastIndexFrom(s, pat, |s| - |pat|)
  }

  function Clamp(i: int, n: nat): (r: nat)
    ensures r <= n
    ensures 0 <= i <= n ==> r == i
  {
    if i < 0 then 0 else if i > n then n else i
  }

  /** `s.substring(start, end)`: both ends clamped into the string, swapped when reversed. */
  function Substring(s: seq<char>, start: int, end: int): (r: seq<char>)
    ensures 0 <= start <= end <= |s| ==> r == s[start..end]
    ensures start <= 0 && end <= 0 ==> r == []
  {
    var a, b := Clamp(start, |s|), Clamp(end, |s|);
    if a <= b then s[a..b] else s[b..a]
  }

  /** `s.slice(start, end)`: a negative index counts from the end. */
  function Slice(s: seq<char>, start: int, end: int): (r: seq<char>)
    ensures 0 <= start <= end <= |s| ==> r == s[start..end]
    ensures -|s| <= start < 0 && end == |s| ==> r == s[|s| + start..]
  {
    var a := if start < 0 then Clamp(|s| + start, |s|) else Clamp(start, |s|);
    var b := if end < 0 then Clamp(|s| + end, |s|) else Clamp(end, |s|);
    if a < b then s[a..b] else []
  }

  /** `s.split(sep)` for a non-empty separator. */
  function Split(s: seq<char>, sep: seq<char>): (r: seq<seq<char>>)
    requires |sep| > 0
    ensures |r| >= 1
    decreases |s|
  {
    var k := IndexOf(s, sep, 0);
    if k == -1 then [s] else [s[..k]] + Split(s[k + |sep|..], sep)
  }

  /** `parts.join(sep)` */
  function Join(parts: seq<seq<char>>, sep: seq<char>): seq<char> {
    if parts == [] then []
    else if |parts| == 1 then parts[0]
    else parts[0] + sep + Join(parts[1..], sep)
  }

  /** Splitting and joining back with the same separator gives the string
      back, and no piece contains the separator. */
  lemma {:induction false} SplitJoin(s: seq<char>, sep: seq<char>)
    requires |sep| > 0
    ensures Join(Split(s, sep), sep) == s
    decreases |s|
  {
    var k := IndexOf(s, sep, 0);
    if k != -1 {
      var rest := s[k + |sep|..];
      var tail := Split(rest, sep);
      var parts := [s[..k]] + tail;
      assert Split(s, sep) == parts;
      SplitJoin(rest, sep);
      assert parts[1..] == tail;
      assert Join(parts, sep) == s[..k] + sep + Join(tail, sep);
      assert s[k..k + |sep|] == sep;
      assert s[..k] + sep == s[..k + |sep|];
      assert s[..k + |sep|] + rest == s;
    }
  }

  /** No piece of `s.split(sep)` contains the separator. */
  lemma {:induction false} SplitPiecesFree(s: seq<char>, sep: seq<char>, i: nat)
    requires |sep| > 0 && i < |Split(s, sep)|
    ensures !Contains(Split(s, sep)[i], sep)
    decreases |s|
  {
    var k := IndexOf(s, sep, 0);
    if k != -1 {
      if i == 0 {
        NoEarlierOccurrence(s, sep, k);
      } else {
        SplitPiecesFree(s[k + |sep|..], sep, i - 1);
      }
    }
  }

  /** The prefix before the first occurrence of `sep` does not contain it. */
  lemma NoEarlierOccurrence(s: seq<char>, sep: seq<char>, k: int)
    requires |sep| > 0 && k == IndexOf(s, sep, 0) && k != -1
    ensures !Contains(s[..k], sep)
  {
    var p := s[..k];
    if Contains(p, sep) {
      var j := IndexOf(p, sep, 0);
      assert p[j..j + |sep|] == s[j..j + |sep|];
      assert OccursAt(s, sep, j);
      assert false;
    }
  }

  /** The first piece of `s.split(sep)`: everything before the first `sep`. */
  function Before(s: seq<char>, sep: seq<char>): (r: seq<char>)
    requires |sep| > 0
    ensures r == Split(s, sep)[0]
    ensures !Contains(r, sep)
    ensures r <= s
  {
    var k := IndexOf(s, sep, 0);
    if k != -1 then NoEarlierOccurrence(s, sep, k); s[..k] else s
  }

  /** Occurrences in a suffix are occurrences in the whole string, shifted. */
  lemma OccursShift(s: seq<char>, pat: seq<char>, d: nat, j: int)
    requires d <= |s| && d <= j
    ensures OccursAt(s, pat, j) <==> OccursAt(s[d..], pat, j - d)
  {
    if j + |pat| <= |s| {
      assert s[j..j + |pat|] == s[d..][j - d..j - d + |pat|];
    }
  }

  /** `pat` occurs at `k` and nowhere before it. */
  predicate FirstAt(s: seq<char>, pat: seq<char>, k: int) {
    OccursAt(s, pat, k) && forall j :: 0 <= j < k ==> !OccursAt(s, pat, j)
  }

  /** `s.replace(pat, rep)` with a string pattern: only the first occurrence. */
  function ReplaceFirst(s: seq<char>, pat: seq<char>, rep: seq<char>): (r: seq<char>)
    ensures !Contains(s, pat) ==> r == s
    ensures Contains(s, pat) ==>
      exists k :: FirstAt(s, pat, k) && r == s[..k] + rep + s[k + |pat|..]
  {
    var k := IndexOf(s, pat, 0);
    if k == -1 then s else s[..k] + rep + s[k + |pat|..]
  }

  /** The index of the first digit, or -1: `s.search(/\d/)`. */
  function FirstDigit(s: seq<char>): (r: int)
    ensures r == -1 || (0 <= r < |s| && IsDigit(s[r]))
    ensures forall i :: 0 <= i < |s| && (r == -1 || i < r) ==> !IsDigit(s[i])
  {
    if s == [] then -1
    else if IsDigit(s[0]) then 0
    else var k := FirstDigit(s[1..]); if k == -1 then -1 else k + 1
  }

  /** A one-character pattern occurs exactly where that character is. */
  lemma OccursChar(s: seq<char>, c: char, i: int)
    ensures OccursAt(s, [c], i) <==> 0 <= i < |s| && s[i] == c
  {
    if 0 <= i < |s| {
      assert s[i..i + 1] == [s[i]];
    }
  }

  /** Splitting on a character cuts at its first occurrence `k`. */
  lemma SplitCharAt(s: seq<char>, c: char, k: nat)
    requires k < |s| && s[k] == c && forall i :: 0 <= i < k ==> s[i] != c
    ensures Split(s, [c]) == [s[..k]] + Split(s[k + 1..], [c])
  {
    OccursChar(s, c, k);
    forall i | 0 <= i < k ensures !OccursAt(s, [c], i) {
      OccursChar(s, c, i);
    }
    assert IndexOf(s, [c], 0) == k;
  }

  /** A string without the character is its own only piece. */
  lemma SplitCharNone(s: seq<char>, c: char)
    requires forall i :: 0 <= i < |s| ==> s[i] != c
    ensures Split(s, [c]) == [s]
  {
    forall i | 0 <= i <= |s| ensures !OccursAt(s, [c], i) {
      OccursChar(s, c, i);
    }
  }

  /** A word without the character, then the character, then the rest. */
  lemma SplitCharPrefix(a: seq<char>, c: char, rest: seq<char>)
    requires forall i :: 0 <= i < |a| ==> a[i] != c
    ensures Split(a + [c] + rest, [c]) == [a] + Split(rest, [c])
  {
    var s := a + [c] + rest;
    assert s[..|a|] == a && s[|a| + 1..] == rest;
    SplitCharAt(s, c, |a|);
  }
}
