/** The course dataset the explorer reads: subject → number → course, where a
    course's requisites are a list of OR-sets, all of which must be met. */
module Catalogue {
  import opened Text
  import opened Util
  import opened Sorting

  datatype Option<T> = None | Some(value: T)

  /** `Course`: `prereqs` and `coreqs` are optional keys. */
  datatype Course = Course(
    name: string,
    desc: Option<string>,
    prereqs: Option<seq<seq<string>>>,
    coreqs: Option<seq<seq<string>>>)

  type Dataset = map<string, map<string, Course>>

  /** `courses[department] && courses[department][number]`. */
  predicate Resolves(courses: Dataset, department: string, number: string) {
    department in courses && number in courses[department]
  }

  /** A requisite string resolves when its `rsplit` names a course. */
  predicate ResolvesCode(courses: Dataset, code: string) {
    Resolves(courses, RSplit(code).0, RSplit(code).1)
  }

  /** Every course code `department + " " + number` of the dataset. */
  ghost function Codes(courses: Dataset): set<string> {
    set department, number | department in courses && number in courses[department] :: department + " " + number
  }

  /** Every requisite string any course of the dataset names. */
  ghost function Requisites(courses: Dataset): set<string> {
    set department, number, kind, group, member |
      department in courses && number in courses[department] && kind in {true, false} &&
      group in Lists(courses[department][number], kind) && member in group :: member
  }

  /** The OR-sets of an optional list, none when it is absent. */
  function Listed(l: Option<seq<seq<string>>>): seq<seq<string>> {
    if l.Some? then l.value else []
  }

  /** The OR-sets of one kind (`true` for prerequisites). */
  function Lists(c: Course, prereq: bool): seq<seq<string>> {
    Listed(if prereq then c.prereqs else c.coreqs)
  }

  /** The requisite strings of one course. */
  lemma ListedIsRequisite(courses: Dataset, department: string, number: string, prereq: bool, group: seq<string>, member: string)
    requires Resolves(courses, department, number)
    requires group in Lists(courses[department][number], prereq) && member in group
    ensures member in Requisites(courses)
  {
    assert prereq in {true, false};
  }

  /** The string form of an OR-set, which the default sort compares. */
  function JoinComma(group: seq<string>): string {
    Join(group, ",")
  }

  function Id(s: string): string { s }

  /** The order in which `search` visits the OR-sets of a course and their
      members. The first pass sorts the list by the string forms of the
      unsorted sets, then sorts each set; the second pass sorts the list
      again, now by the sorted sets, and sorts each set once more (a no-op).
      The dataset keeps the arranged lists. */
  function Arrange(groups: seq<seq<string>>): seq<seq<string>> {
    SortBy(SortEach(SortBy(groups, JoinComma)), JoinComma)
  }

  /** Sort every set of the list. */
  function SortEach(groups: seq<seq<string>>): (r: seq<seq<string>>)
    ensures |r| == |groups|
    ensures forall i :: 0 <= i < |r| ==> r[i] == SortBy(groups[i], Id)
  {
    if groups == [] then [] else [SortBy(groups[0], Id)] + SortEach(groups[1..])
  }

  /** Exactly the requisite strings, as many times each, survive arranging. */
  lemma ArrangePermutes(groups: seq<seq<string>>)
    ensures |Arrange(groups)| == |groups|
    ensures forall g :: g in Arrange(groups) ==> exists h :: h in groups && multiset(g) == multiset(h)
  {
    var a := SortBy(groups, JoinComma);
    var b := SortEach(a);
    SortByPermutes(groups, JoinComma);
    SortByPermutes(b, JoinComma);
    forall g | g in Arrange(groups) ensures exists h :: h in groups && multiset(g) == multiset(h) {
      assert g in multiset(b);
      var i :| 0 <= i < |b| && b[i] == g;
      SortByPermutes(a[i], Id);
      assert a[i] in multiset(groups);
      assert a[i] in groups && multiset(g) == multiset(a[i]);
    }
  }

  /** Every set of an arranged list is sorted, and so is the list. */
  lemma ArrangeSorted(groups: seq<seq<string>>)
    ensures SortedBy(Arrange(groups), JoinComma)
    ensures forall g :: g in Arrange(groups) ==> SortedBy(g, Id)
  {
    var b := SortEach(SortBy(groups, JoinComma));
    SortBySorted(b, JoinComma);
    SortByPermutes(b, JoinComma);
    forall g | g in Arrange(groups) ensures SortedBy(g, Id) {
      assert g in multiset(b);
      var i :| 0 <= i < |b| && b[i] == g;
      SortBySorted(SortBy(groups, JoinComma)[i], Id);
    }
  }

  /** Searching the same course again visits it in the same order: the
      in-place sorts leave an arranged list as it is. */
  lemma ArrangeIdempotent(groups: seq<seq<string>>)
    ensures Arrange(Arrange(groups)) == Arrange(groups)
  {
    var a := Arrange(groups);
    ArrangeSorted(groups);
    SortByIdentity(a, JoinComma);
    forall i | 0 <= i < |a| ensures SortEach(a)[i] == a[i] {
      SortByIdentity(a[i], Id);
    }
    assert SortEach(a) == a;
  }
}
