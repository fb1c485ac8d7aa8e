/** `rsplit` and `bound`, the two helpers every build of the program shares. */
module Util {
  import opened Text

  /** `rsplit(s, sep)`: the parts before and after the last `sep`. The index
      is advanced by one character past the match, whatever the length of
      `sep`; without a match the index is -1 and the first part is empty. */
  function RSplit(s: seq<char>, sep: seq<char> := " "): (r: (seq<char>, seq<char>))
    ensures |sep| == 1 && LastIndexOf(s, sep) != -1 ==>
      r.0 + sep + r.1 == s && !Contains(r.1, sep)
    ensures LastIndexOf(s, sep) == -1 ==> r == ([], s)
  {
    var index := LastIndexOf(s, sep);
    var r := (Substring(s, 0, index), Substring(s, index + 1, |s|));
    assert s[0..|s|] == s;
    assert |sep| == 1 && index != -1 ==> r.0 + sep + r.1 == s && !Contains(r.1, sep) by {
      if |sep| == 1 && index != -1 {
        assert s == s[..index] + s[index..index + 1] + s[index + 1..];
        SuffixFree(s, sep, index);
      }
    }
    r
  }

  /** Nothing after the last occurrence of a one-character separator contains it. */
  lemma SuffixFree(s: seq<char>, sep: seq<char>, index: int)
    requires |sep| == 1 && index == LastIndexOf(s, sep) && index != -1
    ensures !Contains(s[index + 1..], sep)
  {
    var t := s[index + 1..];
    if Contains(t, sep) {
      var j := IndexOf(t, sep, 0);
      OccursShift(s, sep, index + 1, j + index + 1);
      assert false;
    }
  }

  /** A course code built from a department and a number that has no space
      in it splits back into exactly that department and number. */
  lemma RSplitOfJoin(department: seq<char>, number: seq<char>)
    requires !Contains(number, " ")
    ensures RSplit(department + " " + number) == (department, number)
  {
    var s := department + " " + number;
    var k := |department|;
    assert OccursAt(s, " ", k);
    forall j | k < j ensures !OccursAt(s, " ", j) {
      OccursShift(s, " ", k + 1, j);
      assert s[k + 1..] == number;
    }
    assert LastIndexOf(s, " ") == k;
  }

  /** The worked example of the program's comments: the department keeps its
      inner space. */
  lemma RSplitArtHistory()
    ensures RSplit("ART HISTORY 101") == ("ART HISTORY", "101")
  {
    NoSpaceChar("101");
    RSplitOfJoin("ART HISTORY", "101");
    assert "ART HISTORY" + " " + "101" == "ART HISTORY 101";
  }

  /** A string none of whose characters is a space does not contain " ". */
  lemma NoSpaceChar(s: seq<char>)
    requires forall i :: 0 <= i < |s| ==> s[i] != ' '
    ensures !Contains(s, " ")
  {
    forall i ensures !OccursAt(s, " ", i) {
      if 0 <= i < |s| {
        assert s[i..i + 1][0] == s[i];
      }
    }
  }

  function Max(a: real, b: real): real { if a >= b then a else b }
  function Min(a: real, b: real): real { if a <= b then a else b }

  /** `bound(a, x, b) = max(a, min(x, b))`. */
  function Bound(a: real, x: real, b: real): (r: real)
    ensures a <= b ==> a <= r <= b
    ensures a <= x <= b ==> r == x
    ensures a > b ==> r == a
    ensures x < a ==> r == a
    ensures a <= b < x ==> r == b
  {
    Max(a, Min(x, b))
  }

  /** Bounding twice is bounding once. */
  lemma BoundIdempotent(a: real, x: real, b: real)
    ensures Bound(a, Bound(a, x, b), b) == Bound(a, x, b)
  {
  }
}
