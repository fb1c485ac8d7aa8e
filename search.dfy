/** `search` of the TypeScript build: depth-first expansion of a course's
    requisites with an explicit stack, adding a card per course found and an
    edge per requisite member. */
module Search {
  import opened Text
  import opened Util
  import opened Sorting
  import opened Catalogue
  import opened Edges
  import opened Graphs

  /** Space around a card, in pixels. */
  const Margin: real := 16.0

  /** A stack entry: the `rsplit` of a requisite string (not yet trimmed),
      the x its card gets and its depth below the searched course. */
  datatype Frame = Frame(department: string, number: string, x: real, depth: nat)

  /** The walk's state while one requisite kind of one course is expanded:
      the explored requisite strings, the stack, and `i`, the number of
      resolving members pushed so far for this kind. */
  datatype Walk = Walk(explored: set<string>, stack: seq<Frame>, i: nat)

  /** The row a new card at `depth` goes to. */
  function RowY(depth: nat): real {
    (depth as real) * (CardHeight + 2.0 * Margin) + Margin
  }

  /** The column of the `i`-th resolving child of a card at `x` when
      `reqlen` children are expected: centred under the parent. */
  function ChildX(x: real, i: nat, reqlen: nat): real {
    x + ((i - reqlen / 2) as real) * (CardWidth + Margin)
  }

  function FrameOf(requisite: string, x: real, depth: nat): Frame {
    Frame(RSplit(requisite).0, RSplit(requisite).1, x, depth)
  }

  /** The code a popped frame stands for: both parts trimmed. */
  function CodeOf(f: Frame): string {
    Trim(f.department) + " " + Trim(f.number)
  }

  predicate FrameResolves(courses: Dataset, f: Frame) {
    Resolves(courses, Trim(f.department), Trim(f.number))
  }

  /** The frame the search starts from. */
  function Root(code: string, x0: real): Frame {
    FrameOf(code, x0, 0)
  }

  /** `type.slice(0, -1)`: the edge type of a requisite kind. */
  lemma KindNames()
    ensures Slice("prereqs", 0, -1) == Prereq
    ensures Slice("coreqs", 0, -1) == Coreq
  {
    assert "prereqs"[0..6] == Prereq;
    assert "coreqs"[0..5] == Coreq;
  }

  // ---------------------------------------------------------------------
  // Counting the children to expect

  /** Occurrences in `group` of strings that resolve and are not explored. */
  function CountGroup(courses: Dataset, explored: set<string>, group: seq<string>): nat {
    if group == [] then 0
    else
      var m := group[|group| - 1];
      CountGroup(courses, explored, group[..|group| - 1]) + (if ResolvesCode(courses, m) && m !in explored then 1 else 0)
  }

  function CountAll(courses: Dataset, explored: set<string>, groups: seq<seq<string>>): nat {
    if groups == [] then 0
    else CountAll(courses, explored, groups[..|groups| - 1]) + CountGroup(courses, explored, groups[|groups| - 1])
  }

  /** Exploring more can only lower the count. */
  lemma {:induction false} CountGroupAntitone(courses: Dataset, e0: set<string>, e1: set<string>, group: seq<string>)
    requires e0 <= e1
    ensures CountGroup(courses, e1, group) <= CountGroup(courses, e0, group)
  {
    if group != [] {
      CountGroupAntitone(courses, e0, e1, group[..|group| - 1]);
    }
  }

  /** A set no member of which resolves expects no child. */
  lemma {:induction false} CountGroupUnresolved(courses: Dataset, explored: set<string>, group: seq<string>)
    requires forall m :: m in group ==> !ResolvesCode(courses, m)
    ensures CountGroup(courses, explored, group) == 0
  {
    if group != [] {
      CountGroupUnresolved(courses, explored, group[..|group| - 1]);
    }
  }

  /** The inner loop of the first pass: the members of one set, sorted. */
  method CountMembers(courses: Dataset, explored: set<string>, group: seq<string>) returns (n: nat)
    ensures n == CountGroup(courses, explored, group)
  {
    n := 0;
    for m := 0 to |group|
      invariant n == CountGroup(courses, explored, group[..m])
    {
      var requisite := group[m];
      assert group[..m + 1][..m] == group[..m];
      var department, number := RSplit(requisite).0, RSplit(requisite).1;
      if department in courses && number in courses[department] && requisite !in explored {
        n := n + 1;
      }
    }
    assert group[..|group|] == group;
  }

  /** `reqlen`: the first pass over the (sorted) sets, each sorted as it
      is reached. */
  method CountUnexplored(courses: Dataset, explored: set<string>, groups: seq<seq<string>>) returns (reqlen: nat)
    ensures reqlen == CountAll(courses, explored, SortEach(groups))
  {
    reqlen := 0;
    for j := 0 to |groups|
      invariant reqlen == CountAll(courses, explored, SortEach(groups)[..j])
    {
      assert SortEach(groups)[..j + 1][..j] == SortEach(groups)[..j];
      var n := CountMembers(courses, explored, SortBy(groups[j], Id));
      reqlen := reqlen + n;
    }
    assert SortEach(groups)[..|groups|] == SortEach(groups);
  }

  // ---------------------------------------------------------------------
  // Deepening the first frame of a department

  /** The first frame whose department is `department` gets at least
      `depth`; every other frame is left alone. */
  function Bump(stack: seq<Frame>, department: string, depth: nat): (r: seq<Frame>)
    ensures |r| == |stack|
  {
    if stack == [] then []
    else if stack[0].department == department then
      [stack[0].(depth := if stack[0].depth >= depth then stack[0].depth else depth)] + stack[1..]
    else [stack[0]] + Bump(stack[1..], department, depth)
  }

  /** Only depths change, and none decreases. */
  lemma {:induction false} BumpMonotone(stack: seq<Frame>, department: string, depth: nat)
    ensures forall j :: 0 <= j < |stack| ==>
      Bump(stack, department, depth)[j] == stack[j].(depth := Bump(stack, department, depth)[j].depth) &&
      Bump(stack, department, depth)[j].depth >= stack[j].depth &&
      (Bump(stack, department, depth)[j].depth == stack[j].depth || Bump(stack, department, depth)[j].depth == depth)
  {
    if stack != [] && stack[0].department != department {
      BumpMonotone(stack[1..], department, depth);
    }
  }

  /** Exactly the first frame of the department is deepened, to the larger
      of its depth and `depth`. */
  lemma {:induction false} BumpFirst(stack: seq<Frame>, department: string, depth: nat, k: nat)
    requires k < |stack| && stack[k].department == department
    requires forall j :: 0 <= j < k ==> stack[j].department != department
    ensures forall j :: 0 <= j < |stack| && j != k ==> Bump(stack, department, depth)[j] == stack[j]
    ensures Bump(stack, department, depth)[k] == stack[k].(depth := if stack[k].depth >= depth then stack[k].depth else depth)
  {
    if k > 0 {
      BumpFirst(stack[1..], department, depth, k - 1);
    }
  }

  /** Without a frame of that department nothing changes. */
  lemma {:induction false} BumpAbsent(stack: seq<Frame>, department: string, depth: nat)
    requires forall j :: 0 <= j < |stack| ==> stack[j].department != department
    ensures Bump(stack, department, depth) == stack
  {
    if stack != [] {
      BumpAbsent(stack[1..], department, depth);
    }
  }

  /** The `for (const index in stack)` loop with its `break`. */
  method BumpDepth(stack: seq<Frame>, department: string, depth: nat) returns (r: seq<Frame>)
    ensures r == Bump(stack, department, depth)
  {
    r := stack;
    var index := 0;
    while index < |r|
      invariant 0 <= index <= |r| == |stack|
      invariant r == stack
      invariant forall j :: 0 <= j < index ==> stack[j].department != department
    {
      if r[index].department == department {
        BumpFirst(stack, department, depth, index);
        r := r[index := r[index].(depth := if r[index].depth >= depth then r[index].depth else depth)];
        return;
      }
      index := index + 1;
    }
    BumpAbsent(stack, department, depth);
  }

  // ---------------------------------------------------------------------
  // Visiting the members of one requisite kind

  /** One member: an unexplored one is explored and pushed, one column
      further right if it resolves; an explored one deepens the first frame
      of its department. */
  function VisitMember(courses: Dataset, w: Walk, x: real, depth: nat, reqlen: nat, requisite: string): Walk {
    if requisite !in w.explored then
      Walk(w.explored + {requisite},
           w.stack + [FrameOf(requisite, ChildX(x, w.i, reqlen), depth + 1)],
           if ResolvesCode(courses, requisite) then w.i + 1 else w.i)
    else
      Walk(w.explored, Bump(w.stack, RSplit(requisite).0, depth + 1), w.i)
  }

  function VisitGroup(courses: Dataset, w: Walk, x: real, depth: nat, reqlen: nat, group: seq<string>): Walk {
    if group == [] then w
    else VisitMember(courses, VisitGroup(courses, w, x, depth, reqlen, group[..|group| - 1]), x, depth, reqlen, group[|group| - 1])
  }

  function VisitGroups(courses: Dataset, w: Walk, x: real, depth: nat, reqlen: nat, groups: seq<seq<string>>): Walk {
    if groups == [] then w
    else VisitGroup(courses, VisitGroups(courses, w, x, depth, reqlen, groups[..|groups| - 1]), x, depth, reqlen, groups[|groups| - 1])
  }

  /** One requisite kind of a course whose frame had `x` and `depth`: count
      over the first pass's order, then visit in the arranged order. */
  function VisitKind(courses: Dataset, explored: set<string>, stack: seq<Frame>, x: real, depth: nat, groups: seq<seq<string>>): Walk {
    var reqlen := CountAll(courses, explored, SortEach(SortBy(groups, JoinComma)));
    VisitGroups(courses, Walk(explored, stack, 0), x, depth, reqlen, Arrange(groups))
  }

  /** Both kinds of a course, prerequisites first. */
  function VisitCourse(courses: Dataset, explored: set<string>, stack: seq<Frame>, x: real, depth: nat, c: Course): (set<string>, seq<Frame>) {
    var w := VisitKind(courses, explored, stack, x, depth, Lists(c, true));
    var w' := VisitKind(courses, w.explored, w.stack, x, depth, Lists(c, false));
    (w'.explored, w'.stack)
  }

  /** The strings of a list of sets. */
  function Members(groups: seq<seq<string>>): (r: set<string>)
    ensures forall s :: s in r <==> exists j :: 0 <= j < |groups| && s in groups[j]
  {
    if groups == [] then {}
    else
      var n := |groups| - 1;
      assert forall j :: 0 <= j < n ==> groups[..n][j] == groups[j];
      Members(groups[..n]) + set s | s in groups[n]
  }

  /** What a visit does to the walk: it explores only `these`, and pushes
      exactly one frame per string it explores. */
  predicate Grows(w: Walk, w': Walk, these: set<string>) {
    && w.explored <= w'.explored
    && w'.explored - w.explored <= these
    && |w.stack| <= |w'.stack|
    && |w'.stack| - |w.stack| == |w'.explored| - |w.explored|
  }

  lemma VisitMemberGrows(courses: Dataset, w: Walk, x: real, depth: nat, reqlen: nat, requisite: string)
    ensures Grows(w, VisitMember(courses, w, x, depth, reqlen, requisite), {requisite})
  {
  }

  lemma {:induction false} VisitGroupGrows(courses: Dataset, w: Walk, x: real, depth: nat, reqlen: nat, group: seq<string>)
    ensures Grows(w, VisitGroup(courses, w, x, depth, reqlen, group), set s | s in group)
  {
    if group != [] {
      var n := |group| - 1;
      VisitGroupGrows(courses, w, x, depth, reqlen, group[..n]);
      VisitMemberGrows(courses, VisitGroup(courses, w, x, depth, reqlen, group[..n]), x, depth, reqlen, group[n]);
      assert (set s | s in group[..n]) + {group[n]} <= set s | s in group;
    }
  }

  /** Visiting all sets of a kind. */
  lemma {:induction false} VisitGroupsGrows(courses: Dataset, w: Walk, x: real, depth: nat, reqlen: nat, groups: seq<seq<string>>)
    ensures Grows(w, VisitGroups(courses, w, x, depth, reqlen, groups), Members(groups))
  {
    if groups != [] {
      var n := |groups| - 1;
      VisitGroupsGrows(courses, w, x, depth, reqlen, groups[..n]);
      VisitGroupGrows(courses, VisitGroups(courses, w, x, depth, reqlen, groups[..n]), x, depth, reqlen, groups[n]);
    }
  }

  /** What a visit does to the earlier frames: only their depths change, and
      none decreases; the frames it pushes are one level deeper. */
  ghost predicate Deepens(w: Walk, w': Walk, depth: nat) {
    && |w.stack| <= |w'.stack|
    && (forall j :: 0 <= j < |w.stack| ==> w'.stack[j] == w.stack[j].(depth := w'.stack[j].depth))
    && (forall j :: 0 <= j < |w.stack| ==> w'.stack[j].depth >= w.stack[j].depth)
    && (forall j :: 0 <= j < |w.stack| ==> w'.stack[j].depth == w.stack[j].depth || w'.stack[j].depth == depth + 1)
    && (forall j :: |w.stack| <= j < |w'.stack| ==> w'.stack[j].depth == depth + 1)
  }

  lemma DeepensTrans(w0: Walk, w1: Walk, w2: Walk, depth: nat)
    requires Deepens(w0, w1, depth) && Deepens(w1, w2, depth)
    ensures Deepens(w0, w2, depth)
  {
  }

  lemma VisitMemberDeepens(courses: Dataset, w: Walk, x: real, depth: nat, reqlen: nat, requisite: string)
    ensures Deepens(w, VisitMember(courses, w, x, depth, reqlen, requisite), depth)
  {
    if requisite in w.explored {
      BumpMonotone(w.stack, RSplit(requisite).0, depth + 1);
    }
  }

  lemma {:induction false} VisitGroupDeepens(courses: Dataset, w: Walk, x: real, depth: nat, reqlen: nat, group: seq<string>)
    ensures Deepens(w, VisitGroup(courses, w, x, depth, reqlen, group), depth)
  {
    if group != [] {
      var n := |group| - 1;
      var w1 := VisitGroup(courses, w, x, depth, reqlen, group[..n]);
      VisitGroupDeepens(courses, w, x, depth, reqlen, group[..n]);
      VisitMemberDeepens(courses, w1, x, depth, reqlen, group[n]);
      DeepensTrans(w, w1, VisitMember(courses, w1, x, depth, reqlen, group[n]), depth);
    }
  }

  /** The frames already on the stack keep their course and column and are
      never made shallower; new frames sit one level below the course. */
  lemma {:induction false} VisitGroupsDeepens(courses: Dataset, w: Walk, x: real, depth: nat, reqlen: nat, groups: seq<seq<string>>)
    ensures Deepens(w, VisitGroups(courses, w, x, depth, reqlen, groups), depth)
  {
    if groups != [] {
      var n := |groups| - 1;
      var w1 := VisitGroups(courses, w, x, depth, reqlen, groups[..n]);
      VisitGroupsDeepens(courses, w, x, depth, reqlen, groups[..n]);
      VisitGroupDeepens(courses, w1, x, depth, reqlen, groups[n]);
      DeepensTrans(w, w1, VisitGroup(courses, w1, x, depth, reqlen, groups[n]), depth);
    }
  }

  /** The columns handed out never run past `reqlen`: `i` grows only for
      resolving members that were unexplored when `reqlen` was counted. */
  lemma {:induction false} VisitGroupColumns(courses: Dataset, e0: set<string>, w: Walk, x: real, depth: nat, reqlen: nat, group: seq<string>)
    requires e0 <= w.explored
    ensures e0 <= VisitGroup(courses, w, x, depth, reqlen, group).explored
    ensures VisitGroup(courses, w, x, depth, reqlen, group).i <= w.i + CountGroup(courses, e0, group)
  {
    if group != [] {
      var n := |group| - 1;
      VisitGroupColumns(courses, e0, w, x, depth, reqlen, group[..n]);
    }
  }

  lemma {:induction false} VisitGroupsColumns(courses: Dataset, e0: set<string>, w: Walk, x: real, depth: nat, reqlen: nat, groups: seq<seq<string>>)
    requires e0 <= w.explored
    ensures e0 <= VisitGroups(courses, w, x, depth, reqlen, groups).explored
    ensures VisitGroups(courses, w, x, depth, reqlen, groups).i <= w.i + CountAll(courses, e0, groups)
  {
    if groups != [] {
      var n := |groups| - 1;
      VisitGroupsColumns(courses, e0, w, x, depth, reqlen, groups[..n]);
      VisitGroupColumns(courses, e0, VisitGroups(courses, w, x, depth, reqlen, groups[..n]), x, depth, reqlen, groups[n]);
    }
  }

  /** A member of an arranged set is a member of one of the original sets. */
  lemma ArrangedMember(groups: seq<seq<string>>, j: int, s: string)
    requires 0 <= j < |Arrange(groups)| && s in Arrange(groups)[j]
    ensures exists h :: h in groups && s in h
  {
    ArrangePermutes(groups);
    assert Arrange(groups)[j] in Arrange(groups);
    var h :| h in groups && multiset(Arrange(groups)[j]) == multiset(h);
    assert s in multiset(h);
  }

  /** The arranged sets hold the strings of the original ones. */
  lemma ArrangedMembers(groups: seq<seq<string>>)
    ensures Members(Arrange(groups)) <= Members(groups)
  {
    forall s | s in Members(Arrange(groups)) ensures s in Members(groups) {
      var j :| 0 <= j < |Arrange(groups)| && s in Arrange(groups)[j];
      ArrangedMember(groups, j, s);
      var h :| h in groups && s in h;
      var k :| 0 <= k < |groups| && groups[k] == h;
    }
  }

  /** Every string a resolving course lists is a requisite of the dataset. */
  lemma CourseMembers(courses: Dataset, department: string, number: string, prereq: bool)
    requires Resolves(courses, department, number)
    ensures Members(Lists(courses[department][number], prereq)) <= Requisites(courses)
  {
    var l := Lists(courses[department][number], prereq);
    forall s | s in Members(l) ensures s in Requisites(courses) {
      var j :| 0 <= j < |l| && s in l[j];
      ListedIsRequisite(courses, department, number, prereq, l[j], s);
    }
  }

  lemma VisitKindGrows(courses: Dataset, explored: set<string>, stack: seq<Frame>, x: real, depth: nat, groups: seq<seq<string>>)
    ensures Grows(Walk(explored, stack, 0), VisitKind(courses, explored, stack, x, depth, groups), Members(groups))
  {
    VisitGroupsGrows(courses, Walk(explored, stack, 0), x, depth,
      CountAll(courses, explored, SortEach(SortBy(groups, JoinComma))), Arrange(groups));
    ArrangedMembers(groups);
  }

  /** Visiting a course of the dataset pushes one frame per newly explored
      string, and explores only requisite strings of the dataset. */
  lemma VisitCourseGrows(courses: Dataset, explored: set<string>, stack: seq<Frame>, f: Frame, course: Course)
    requires FrameResolves(courses, f) && course == courses[Trim(f.department)][Trim(f.number)]
    ensures Grows(Walk(explored, stack, 0),
                  Walk(VisitCourse(courses, explored, stack, f.x, f.depth, course).0,
                       VisitCourse(courses, explored, stack, f.x, f.depth, course).1, 0),
                  Requisites(courses))
  {
    var w := VisitKind(courses, explored, stack, f.x, f.depth, Lists(course, true));
    VisitKindGrows(courses, explored, stack, f.x, f.depth, Lists(course, true));
    VisitKindGrows(courses, w.explored, w.stack, f.x, f.depth, Lists(course, false));
    CourseMembers(courses, Trim(f.department), Trim(f.number), true);
    CourseMembers(courses, Trim(f.department), Trim(f.number), false);
  }

  // ---------------------------------------------------------------------
  // The edges of one requisite kind

  function GroupEdges(code: string, group: seq<string>, color: string, kind: string): (r: seq<Edge>)
    ensures |r| == |group|
    ensures forall m :: 0 <= m < |group| ==> r[m] == Edge(code, group[m], color, kind)
  {
    if group == [] then [] else GroupEdges(code, group[..|group| - 1], color, kind) + [Edge(code, group[|group| - 1], color, kind)]
  }

  /** One edge per member, in visiting order; the `j`-th set gets the colour
      drawn for it, `colors(c0 + j)`. */
  function KindEdges(code: string, groups: seq<seq<string>>, colors: nat -> string, c0: nat, kind: string): seq<Edge> {
    if groups == [] then []
    else KindEdges(code, groups[..|groups| - 1], colors, c0, kind) + GroupEdges(code, groups[|groups| - 1], colors(c0 + |groups| - 1), kind)
  }

  lemma KindEdgesSnoc(code: string, groups: seq<seq<string>>, colors: nat -> string, c0: nat, kind: string, j: nat)
    requires j < |groups|
    ensures KindEdges(code, groups[..j + 1], colors, c0, kind) ==
      KindEdges(code, groups[..j], colors, c0, kind) + GroupEdges(code, groups[j], colors(c0 + j), kind)
  {
    assert groups[..j + 1][..j] == groups[..j];
  }

  /** Appending the edges of set `j` to those of the sets before it. */
  lemma KindEdgesStep(edges: map<string, seq<Edge>>, code: string, groups: seq<seq<string>>, colors: nat -> string,
                      c0: nat, kind: string, j: nat, color: string)
    requires j < |groups| && color == colors(c0 + j)
    ensures Append(Append(edges, code, KindEdges(code, groups[..j], colors, c0, kind)), code, GroupEdges(code, groups[j], color, kind))
      == Append(edges, code, KindEdges(code, groups[..j + 1], colors, c0, kind))
  {
    KindEdgesSnoc(code, groups, colors, c0, kind, j);
    AppendTwice(edges, code, KindEdges(code, groups[..j], colors, c0, kind), GroupEdges(code, groups[j], color, kind));
  }

  /** Member `m` of set `j` gets an edge of colour `colors(c0 + j)`. */
  lemma {:induction false} KindEdgesCover(code: string, groups: seq<seq<string>>, colors: nat -> string, c0: nat, kind: string,
                                          j: nat, m: nat)
    requires j < |groups| && m < |groups[j]|
    ensures Edge(code, groups[j][m], colors(c0 + j), kind) in KindEdges(code, groups, colors, c0, kind)
  {
    var n := |groups| - 1;
    var front := KindEdges(code, groups[..n], colors, c0, kind);
    var last := GroupEdges(code, groups[n], colors(c0 + n), kind);
    assert KindEdges(code, groups, colors, c0, kind) == front + last;
    if j < n {
      assert groups[..n][j] == groups[j];
      KindEdgesCover(code, groups[..n], colors, c0, kind, j, m);
      assert Edge(code, groups[j][m], colors(c0 + j), kind) in front;
    } else {
      assert last[m] == Edge(code, groups[j][m], colors(c0 + j), kind);
    }
  }

  /** Every member of every set gets an edge with its set's colour. */
  lemma KindEdgesCovers(code: string, groups: seq<seq<string>>, colors: nat -> string, c0: nat, kind: string)
    ensures forall j, m :: 0 <= j < |groups| && 0 <= m < |groups[j]| ==>
      Edge(code, groups[j][m], colors(c0 + j), kind) in KindEdges(code, groups, colors, c0, kind)
  {
    forall j, m | 0 <= j < |groups| && 0 <= m < |groups[j]|
      ensures Edge(code, groups[j][m], colors(c0 + j), kind) in KindEdges(code, groups, colors, c0, kind)
    {
      KindEdgesCover(code, groups, colors, c0, kind, j, m);
    }
  }

  /** An edge of a kind comes from the course, has the kind, and points at a
      member of the set `j` it returns, with that set's colour. */
  lemma {:induction false} KindEdgeSource(code: string, groups: seq<seq<string>>, colors: nat -> string, c0: nat, kind: string,
                                          e: Edge)
    returns (j: nat)
    requires e in KindEdges(code, groups, colors, c0, kind)
    ensures e.u == code && e.kind == kind && j < |groups| && e.v in groups[j] && e.color == colors(c0 + j)
  {
    var n := |groups| - 1;
    var front := KindEdges(code, groups[..n], colors, c0, kind);
    var last := GroupEdges(code, groups[n], colors(c0 + n), kind);
    assert KindEdges(code, groups, colors, c0, kind) == front + last;
    if e in front {
      j := KindEdgeSource(code, groups[..n], colors, c0, kind, e);
      assert groups[..n][j] == groups[j];
    } else {
      var m :| 0 <= m < |last| && last[m] == e;
      j := n;
      assert e.v == groups[n][m];
    }
  }

  /** Every edge of a kind comes from the course, has the kind, and points
      at a member of some set `j` with that set's colour. */
  lemma KindEdgesOnly(code: string, groups: seq<seq<string>>, colors: nat -> string, c0: nat, kind: string)
    ensures forall e :: e in KindEdges(code, groups, colors, c0, kind) ==>
      e.u == code && e.kind == kind && exists j :: 0 <= j < |groups| && e.v in groups[j] && e.color == colors(c0 + j)
  {
    forall e | e in KindEdges(code, groups, colors, c0, kind)
      ensures e.u == code && e.kind == kind && exists j :: 0 <= j < |groups| && e.v in groups[j] && e.color == colors(c0 + j)
    {
      var j := KindEdgeSource(code, groups, colors, c0, kind, e);
    }
  }

  /** The edges added to a course's bucket. */
  function Append(edges: map<string, seq<Edge>>, code: string, es: seq<Edge>): map<string, seq<Edge>> {
    if es == [] then edges else edges[code := Bucket(edges, code) + es]
  }

  lemma AppendSnoc(edges: map<string, seq<Edge>>, code: string, es: seq<Edge>, e: Edge)
    ensures Append(edges, code, es + [e]) == Append(edges, code, es)[code := Bucket(Append(edges, code, es), code) + [e]]
  {
    assert es + [e] != [];
    var lhs := Append(edges, code, es + [e]);
    assert lhs == edges[code := Bucket(edges, code) + (es + [e])];
    if es != [] {
      var a := Append(edges, code, es);
      assert a == edges[code := Bucket(edges, code) + es];
      assert Bucket(a, code) == Bucket(edges, code) + es;
      assert Bucket(a, code) + [e] == Bucket(edges, code) + (es + [e]);
      assert a[code := Bucket(a, code) + [e]] == edges[code := Bucket(edges, code) + (es + [e])];
    } else {
      assert es + [e] == [e];
    }
  }

  lemma AppendTwice(edges: map<string, seq<Edge>>, code: string, a: seq<Edge>, b: seq<Edge>)
    ensures Append(Append(edges, code, a), code, b) == Append(edges, code, a + b)
  {
    if a == [] {
      assert a + b == b;
    } else if b == [] {
      assert a + b == a;
    } else {
      assert Bucket(Append(edges, code, a), code) + b == Bucket(edges, code) + (a + b);
    }
  }

  /** Two appends to one bucket leave every other bucket alone and extend
      that one by both runs in order. */
  lemma AppendTwiceBuckets(edges: map<string, seq<Edge>>, code: string, a: seq<Edge>, b: seq<Edge>)
    ensures forall k :: k != code ==> Bucket(Append(Append(edges, code, a), code, b), k) == Bucket(edges, k)
    ensures Bucket(Append(Append(edges, code, a), code, b), code) == Bucket(edges, code) + (a + b)
  {
    AppendTwice(edges, code, a, b);
    if a + b == [] {
      assert Bucket(edges, code) + (a + b) == Bucket(edges, code);
    }
  }

  /** Adding edges that leave `code` keeps every edge in its source's bucket. */
  lemma AppendKeyed(edges: map<string, seq<Edge>>, code: string, es: seq<Edge>)
    requires Keyed(edges)
    requires forall e :: e in es ==> e.u == code
    ensures Keyed(Append(edges, code, es))
  {
  }

  /** The colour index of a course's first corequisite set: prerequisite
      sets take the colours before it. */
  function CoreqColors(c: Course, c0: nat): nat {
    c0 + |Lists(c, true)|
  }

  /** Both kinds of a course, prerequisites first. */
  function CourseEdges(edges: map<string, seq<Edge>>, code: string, c: Course, colors: nat -> string, c0: nat): map<string, seq<Edge>> {
    var pre := KindEdges(code, Arrange(Lists(c, true)), colors, c0, Prereq);
    var co := KindEdges(code, Arrange(Lists(c, false)), colors, CoreqColors(c, c0), Coreq);
    Append(Append(edges, code, pre), code, co)
  }

  // ---------------------------------------------------------------------
  // The methods

  /** The inner loop of the second pass: one sorted set, all of whose edges
      get `color`. */
  method ExpandGroup(g: Graph, courses: Dataset, code: string, x: real, depth: nat, reqlen: nat,
                     group: seq<string>, color: string, kind: string, w0: Walk)
    returns (w: Walk)
    requires g.Valid()
    modifies g`edges
    ensures g.Valid()
    ensures w == VisitGroup(courses, w0, x, depth, reqlen, group)
    ensures g.edges == Append(old(g.edges), code, GroupEdges(code, group, color, kind))
  {
    w := w0;
    for m := 0 to |group|
      invariant g.Valid()
      invariant w == VisitGroup(courses, w0, x, depth, reqlen, group[..m])
      invariant g.edges == Append(old(g.edges), code, GroupEdges(code, group[..m], color, kind))
    {
      var requisite := group[m];
      assert group[..m + 1][..m] == group[..m];
      var e := NewEdge(code, requisite, color, kind);
      AppendSnoc(old(g.edges), code, GroupEdges(code, group[..m], color, kind), e);
      g.AddEdge(e);
      ghost var before := w;
      w := ExpandMember(courses, w, x, depth, reqlen, requisite);
      assert VisitGroup(courses, w0, x, depth, reqlen, group[..m + 1])
        == VisitMember(courses, before, x, depth, reqlen, requisite);
    }
    assert group[..|group|] == group;
  }

  /** The body of the inner loop for one member, past its edge: explore and
      push it, or deepen the frame of its department. */
  method ExpandMember(courses: Dataset, w0: Walk, x: real, depth: nat, reqlen: nat, requisite: string)
    returns (w: Walk)
    ensures w == VisitMember(courses, w0, x, depth, reqlen, requisite)
  {
    w := w0;
    if requisite !in w.explored {
      w := w.(explored := w.explored + {requisite});
      var newx := ChildX(x, w.i, reqlen);
      w := w.(stack := w.stack + [FrameOf(requisite, newx, depth + 1)]);
      var department, number := RSplit(requisite).0, RSplit(requisite).1;
      if department in courses && number in courses[department] {
        w := w.(i := w.i + 1);
      }
    } else {
      var s := BumpDepth(w.stack, RSplit(requisite).0, depth + 1);
      w := w.(stack := s);
    }
  }

  /** The second pass's inner `sort()` would leave every set as it is. */
  predicate SetsSorted(groups: seq<seq<string>>) {
    forall j :: 0 <= j < |groups| ==> SortBy(groups[j], Id) == groups[j]
  }

  /** The outer loop of the second pass over arranged sets; the `j`-th set
      takes colour `colors(c0 + j)`. */
  method ExpandGroups(g: Graph, courses: Dataset, code: string, x: real, depth: nat, reqlen: nat,
                      groups: seq<seq<string>>, kind: string, colors: nat -> string, c0: nat, w0: Walk)
    returns (w: Walk, c: nat)
    requires g.Valid()
    requires SetsSorted(groups)
    modifies g`edges
    ensures g.Valid()
    ensures w == VisitGroups(courses, w0, x, depth, reqlen, groups)
    ensures c == c0 + |groups|
    ensures g.edges == Append(old(g.edges), code, KindEdges(code, groups, colors, c0, kind))
  {
    w, c := w0, c0;
    for j := 0 to |groups|
      invariant g.Valid()
      invariant w == VisitGroups(courses, w0, x, depth, reqlen, groups[..j])
      invariant c == c0 + j
      invariant g.edges == Append(old(g.edges), code, KindEdges(code, groups[..j], colors, c0, kind))
    {
      w, c := ExpandSet(g, courses, code, x, depth, reqlen, groups, j, kind, colors, c0, c, w0, w, old(g.edges));
    }
    assert groups[..|groups|] == groups;
  }

  /** The body of the outer loop for set `j`, which the second pass's inner
      `sort()` leaves as it is, and which takes the colour `colors(c)`. */
  method ExpandSet(g: Graph, courses: Dataset, code: string, x: real, depth: nat, reqlen: nat,
                   groups: seq<seq<string>>, j: nat, kind: string, colors: nat -> string, c0: nat, c: nat,
                   ghost w00: Walk, w0: Walk, ghost e0: map<string, seq<Edge>>)
    returns (w: Walk, c': nat)
    requires g.Valid()
    requires j < |groups| && SetsSorted(groups) && c == c0 + j
    requires w0 == VisitGroups(courses, w00, x, depth, reqlen, groups[..j])
    requires g.edges == Append(e0, code, KindEdges(code, groups[..j], colors, c0, kind))
    modifies g`edges
    ensures g.Valid()
    ensures c' == c0 + (j + 1)
    ensures w == VisitGroups(courses, w00, x, depth, reqlen, groups[..j + 1])
    ensures g.edges == Append(e0, code, KindEdges(code, groups[..j + 1], colors, c0, kind))
  {
    VisitGroupsSnoc(courses, w00, x, depth, reqlen, groups, j);
    var group := SortBy(groups[j], Id);
    assert group == groups[j];
    var color := colors(c);
    assert color == colors(c0 + j);
    KindEdgesStep(e0, code, groups, colors, c0, kind, j, color);
    w := ExpandGroup(g, courses, code, x, depth, reqlen, group, color, kind, w0);
    c' := c + 1;
  }

  lemma VisitGroupsSnoc(courses: Dataset, w: Walk, x: real, depth: nat, reqlen: nat, groups: seq<seq<string>>, j: nat)
    requires j < |groups|
    ensures VisitGroups(courses, w, x, depth, reqlen, groups[..j + 1])
      == VisitGroup(courses, VisitGroups(courses, w, x, depth, reqlen, groups[..j]), x, depth, reqlen, groups[j])
  {
    assert groups[..j + 1][..j] == groups[..j];
  }

  /** One requisite kind of the course `code`, whose frame had `x` and
      `depth`: count, then add an edge per member and push or deepen. */
  method ExpandKind(g: Graph, courses: Dataset, code: string, x: real, depth: nat, groups: seq<seq<string>>,
                    kind: string, colors: nat -> string, c0: nat, explored: set<string>, stack: seq<Frame>)
    returns (explored': set<string>, stack': seq<Frame>, c: nat)
    requires g.Valid()
    modifies g`edges
    ensures g.Valid()
    ensures var w := VisitKind(courses, explored, stack, x, depth, groups); explored' == w.explored && stack' == w.stack
    ensures c == c0 + |groups|
    ensures g.edges == Append(old(g.edges), code, KindEdges(code, Arrange(groups), colors, c0, kind))
  {
    var sorted := SortBy(groups, JoinComma);
    var reqlen := CountUnexplored(courses, explored, sorted);
    var arranged := SortBy(SortEach(sorted), JoinComma);
    forall j | 0 <= j < |arranged| ensures SortBy(arranged[j], Id) == arranged[j] {
      SortByIdentityOfArranged(groups, j);
    }
    assert SetsSorted(arranged);
    var w;
    w, c := ExpandGroups(g, courses, code, x, depth, reqlen, arranged, kind, colors, c0, Walk(explored, stack, 0));
    explored', stack' := w.explored, w.stack;
  }

  /** The second pass's inner `sort()` finds every set already sorted. */
  lemma SortByIdentityOfArranged(groups: seq<seq<string>>, j: int)
    requires 0 <= j < |Arrange(groups)|
    ensures SortBy(Arrange(groups)[j], Id) == Arrange(groups)[j]
  {
    ArrangeSorted(groups);
    SortByIdentity(Arrange(groups)[j], Id);
  }

  /** The card of a popped, resolving frame: a new one at the frame's
      column and `RowY(depth)`, or the existing one moved down by a card
      width from where the page shows it. */
  method PlaceVertex(g: Graph, code: string, name: string, f: Frame, view: View)
    requires g.Valid()
    modifies g`vertexes, g`dimensions, g.vertexes.Values
    ensures g.Valid() && g.edges == old(g.edges)
    ensures code in g.vertexes
    ensures code in old(g.vertexes) ==> (
      g.vertexes == old(g.vertexes) &&
      g.vertexes[code].y == view.ClientTop(old(g.vertexes[code].y)) + CardWidth &&
      g.vertexes[code].x == old(g.vertexes[code].x))
    ensures code !in old(g.vertexes) ==> (
      fresh(g.vertexes[code]) &&
      g.vertexes == old(g.vertexes)[code := g.vertexes[code]] &&
      g.vertexes[code].id == code && g.vertexes[code].name == name &&
      g.vertexes[code].x == f.x && g.vertexes[code].y == RowY(f.depth))
    ensures forall k :: k in old(g.vertexes) && k != code ==> g.vertexes[k].x == old(g.vertexes[k].x) && g.vertexes[k].y == old(g.vertexes[k].y)
  {
    if code !in g.vertexes {
      var v := new Vertex(code, name, f.x, RowY(f.depth));
      g.AddVertex(v);
    } else {
      var v := g.vertexes[code];
      v.y := view.ClientTop(v.y) + CardWidth;
    }
  }

  /** `if (type in course)`: a kind the course does not list adds nothing. */
  method ExpandListed(g: Graph, courses: Dataset, code: string, list: Option<seq<seq<string>>>, typeName: string,
                      x: real, depth: nat, colors: nat -> string, c0: nat, explored: set<string>, stack: seq<Frame>)
    returns (explored': set<string>, stack': seq<Frame>, c: nat)
    requires g.Valid()
    modifies g`edges
    ensures g.Valid()
    ensures explored' == VisitKind(courses, explored, stack, x, depth, Listed(list)).explored
    ensures stack' == VisitKind(courses, explored, stack, x, depth, Listed(list)).stack
    ensures c == c0 + |Listed(list)|
    ensures g.edges == Append(old(g.edges), code, KindEdges(code, Arrange(Listed(list)), colors, c0, Slice(typeName, 0, -1)))
  {
    explored', stack', c := explored, stack, c0;
    assert Arrange([]) == [];
    if list.Some? {
      explored', stack', c := ExpandKind(g, courses, code, x, depth, list.value, Slice(typeName, 0, -1), colors, c, explored', stack');
    }
  }

  /** The `for (const type of ["prereqs", "coreqs"])` loop: each kind the
      course has is expanded, prerequisites first. */
  method ExpandCourse(g: Graph, courses: Dataset, code: string, course: Course, x: real, depth: nat,
                      colors: nat -> string, c0: nat, explored: set<string>, stack: seq<Frame>)
    returns (explored': set<string>, stack': seq<Frame>, c: nat)
    requires g.Valid()
    modifies g`edges
    ensures g.Valid()
    ensures (explored', stack') == VisitCourse(courses, explored, stack, x, depth, course)
    ensures c == c0 + |Lists(course, true)| + |Lists(course, false)|
    ensures g.edges == CourseEdges(old(g.edges), code, course, colors, c0)
  {
    KindNames();
    ghost var e0 := g.edges;
    explored', stack', c := ExpandListed(g, courses, code, course.prereqs, "prereqs", x, depth, colors, c0, explored, stack);
    assert c == CoreqColors(course, c0);
    explored', stack', c := ExpandListed(g, courses, code, course.coreqs, "coreqs", x, depth, colors, CoreqColors(course, c0), explored', stack');
  }

  /** One popped frame: nothing happens unless it resolves; then its card is
      placed and both requisite kinds are expanded. */
  method Visit(g: Graph, courses: Dataset, f: Frame, view: View, colors: nat -> string, c0: nat,
               explored: set<string>, stack: seq<Frame>)
    returns (resolved: bool, explored': set<string>, stack': seq<Frame>, c: nat)
    requires g.Valid()
    modifies g, g.vertexes.Values
    ensures g.Valid()
    ensures resolved == FrameResolves(courses, f)
    ensures !resolved ==> (
      explored' == explored && stack' == stack && c == c0 &&
      g.vertexes == old(g.vertexes) && g.edges == old(g.edges))
    ensures !resolved ==> unchanged(g) && forall v :: v in old(g.vertexes).Values ==> unchanged(v)
    ensures resolved ==> CodeOf(f) in g.vertexes && CodeOf(f) in Codes(courses)
    ensures resolved ==> var course := courses[Trim(f.department)][Trim(f.number)];
      (explored', stack') == VisitCourse(courses, explored, stack, f.x, f.depth, course) &&
      c == c0 + |Lists(course, true)| + |Lists(course, false)| &&
      g.edges == CourseEdges(old(g.edges), CodeOf(f), course, colors, c0)
    ensures CodeOf(f) in old(g.vertexes) ==> g.vertexes == old(g.vertexes)
    ensures CodeOf(f) !in old(g.vertexes) && resolved ==> (
      fresh(g.vertexes[CodeOf(f)]) &&
      g.vertexes == old(g.vertexes)[CodeOf(f) := g.vertexes[CodeOf(f)]])
  {
    var department, number := Trim(f.department), Trim(f.number);
    explored', stack', c := explored, stack, c0;
    resolved := department in courses && number in courses[department];
    if resolved {
      CodeIsCode(courses, department, number);
      explored', stack', c := VisitResolved(g, courses, department + " " + number, courses[department][number],
                                            f, view, colors, c0, explored, stack);
    }
  }

  /** The resolved branch of `Visit`, for the course `course` under `code`. */
  method VisitResolved(g: Graph, courses: Dataset, code: string, course: Course, f: Frame, view: View,
                       colors: nat -> string, c0: nat, explored: set<string>, stack: seq<Frame>)
    returns (explored': set<string>, stack': seq<Frame>, c: nat)
    requires g.Valid()
    modifies g, g.vertexes.Values
    ensures g.Valid()
    ensures code in g.vertexes
    ensures (explored', stack') == VisitCourse(courses, explored, stack, f.x, f.depth, course)
    ensures c == c0 + |Lists(course, true)| + |Lists(course, false)|
    ensures g.edges == CourseEdges(old(g.edges), code, course, colors, c0)
    ensures code in old(g.vertexes) ==> g.vertexes == old(g.vertexes)
    ensures code !in old(g.vertexes) ==> (
      fresh(g.vertexes[code]) &&
      g.vertexes == old(g.vertexes)[code := g.vertexes[code]])
  {
    PlaceVertex(g, code, course.name, f, view);
    explored', stack', c := ExpandCourse(g, courses, code, course, f.x, f.depth, colors, c0, explored, stack);
  }

  lemma CodeIsCode(courses: Dataset, department: string, number: string)
    requires Resolves(courses, department, number)
    ensures department + " " + number in Codes(courses)
  {
  }

  /** Old cards stay where they are in the map; new keys are course codes. */
  predicate Kept(before: map<string, Vertex>, after: map<string, Vertex>, codes: set<string>) {
    && (forall k :: k in before ==> k in after && after[k] == before[k])
    && after.Keys <= before.Keys + codes
  }

  /** One iteration of the `while (stack.length)` loop, as the loop needs it. */
  method Step(g: Graph, courses: Dataset, f: Frame, view: View, colors: nat -> string, c0: nat,
              explored: set<string>, stack: seq<Frame>)
    returns (resolved: bool, explored': set<string>, stack': seq<Frame>, c: nat)
    requires g.Valid()
    modifies g, g.vertexes.Values
    ensures g.Valid()
    ensures resolved == FrameResolves(courses, f)
    ensures !resolved ==> (explored' == explored && stack' == stack &&
      g.vertexes == old(g.vertexes) && g.edges == old(g.edges))
    ensures !resolved ==> unchanged(g) && forall v :: v in old(g.vertexes).Values ==> unchanged(v)
    ensures resolved ==> CodeOf(f) in g.vertexes
    ensures Grows(Walk(explored, stack, 0), Walk(explored', stack', 0), Requisites(courses))
    ensures Kept(old(g.vertexes), g.vertexes, Codes(courses))
    ensures forall v :: v in g.vertexes.Values ==> v in old(g.vertexes).Values || fresh(v)
  {
    resolved, explored', stack', c := Visit(g, courses, f, view, colors, c0, explored, stack);
    if resolved {
      VisitCourseGrows(courses, explored, stack, f, courses[Trim(f.department)][Trim(f.number)]);
    }
    KeptUpdate(old(g.vertexes), g.vertexes, CodeOf(f), Codes(courses));
  }

  /** Adding one card under a course code keeps every other card. */
  lemma KeptUpdate(before: map<string, Vertex>, after: map<string, Vertex>, code: string, codes: set<string>)
    requires after == before || (code in codes && code !in before && code in after && after == before[code := after[code]])
    ensures Kept(before, after, codes)
    ensures forall v :: v in after.Values ==> v in before.Values || (code !in before && code in after && v == after[code])
  {
    forall v | v in after.Values
      ensures v in before.Values || (code !in before && code in after && v == after[code])
    {
      var k :| k in after && after[k] == v;
      if k != code {
        assert k in before;
      }
    }
  }

  /** The code `search` adds a card for when the searched course resolves. */
  function RootCode(code: string, x0: real): string {
    CodeOf(Root(code, x0))
  }

  /** The `while (stack.length)` loop of `search` once the searched course
      has been visited; `pops` counts its iterations. */
  method Drain(g: Graph, courses: Dataset, colors: nat -> string, view: View, c0: nat,
               explored0: set<string>, stack0: seq<Frame>)
    returns (ghost pops: nat)
    requires g.Valid()
    requires explored0 <= Requisites(courses)
    modifies g, g.vertexes.Values
    ensures g.Valid()
    ensures Kept(old(g.vertexes), g.vertexes, Codes(courses))
    ensures forall v :: v in g.vertexes.Values ==> v in old(g.vertexes).Values || fresh(v)
    ensures pops + |explored0| <= |stack0| + |Requisites(courses)|
  {
    var explored, stack, c := explored0, stack0, c0;
    pops := 0;
    while stack != []
      invariant g.Valid()
      invariant explored0 <= explored <= Requisites(courses)
      invariant pops + |stack| + |explored0| == |stack0| + |explored|
      invariant Kept(old(g.vertexes), g.vertexes, Codes(courses))
      invariant forall v :: v in g.vertexes.Values ==> v in old(g.vertexes).Values || fresh(v)
      decreases |Requisites(courses) - explored|, |stack|
    {
      var f := stack[|stack| - 1];
      stack := stack[..|stack| - 1];
      ghost var before, popped, v0 := explored, stack, g.vertexes;
      var resolved;
      resolved, explored, stack, c := Step(g, courses, f, view, colors, c, explored, stack);
      KeptTrans(old(g.vertexes), v0, g.vertexes, Codes(courses));
      Progress(Requisites(courses), before, explored, popped, stack);
      pops := pops + 1;
    }
    SubsetSize(explored, Requisites(courses));
  }

  /** A visit either explores a new requisite string, so fewer remain, or
      pushes nothing. */
  lemma Progress(these: set<string>, before: set<string>, after: set<string>, popped: seq<Frame>, pushed: seq<Frame>)
    requires before <= these
    requires Grows(Walk(before, popped, 0), Walk(after, pushed, 0), these)
    ensures before <= after <= these
    ensures |pushed| - |popped| == |after| - |before|
    ensures |these - after| < |these - before| || (after == before && |pushed| == |popped|)
  {
    if after != before {
      var s :| s in after && s !in before;
      assert s in these - before;
      SubsetSize(these - after, these - before);
    }
  }

  /** The loop of `search` from the stack holding only `root`: its first
      iteration visits `root`, and the rest run only when `root` resolves
      (otherwise nothing was pushed). */
  method Explore(g: Graph, courses: Dataset, root: Frame, colors: nat -> string, view: View)
    returns (found: bool, ghost pops: nat)
    requires g.Valid()
    modifies g, g.vertexes.Values
    ensures g.Valid()
    ensures found <==> FrameResolves(courses, root)
    ensures found ==> CodeOf(root) in g.vertexes
    ensures Kept(old(g.vertexes), g.vertexes, Codes(courses))
    ensures forall v :: v in g.vertexes.Values ==> v in old(g.vertexes).Values || fresh(v)
    ensures !found ==> g.vertexes == old(g.vertexes) && g.edges == old(g.edges)
    ensures !found ==> unchanged(g) && forall v :: v in old(g.vertexes).Values ==> unchanged(v)
    ensures pops <= 1 + |Requisites(courses)|
  {
    var explored, stack, c;
    found, explored, stack, c := Step(g, courses, root, view, colors, 0, {}, []);
    pops := 1;
    if found {
      ghost var v1 := g.vertexes;
      var more := Drain(g, courses, colors, view, c, explored, stack);
      KeptTrans(old(g.vertexes), v1, g.vertexes, Codes(courses));
      pops := pops + more;
    }
  }

  /** `search(graph, code, courses)`: returns whether the searched course
      resolves. `x0` is the random column of the first card and `colors(n)`
      the random colour drawn for the `n`-th OR-set; `pops` counts the
      iterations of the loop. */
  method Search(g: Graph, code: string, courses: Dataset, x0: real, colors: nat -> string, view: View)
    returns (found: bool, ghost pops: nat)
    requires g.Valid()
    modifies g, g.vertexes.Values
    ensures g.Valid()
    ensures found <==> FrameResolves(courses, Root(code, x0))
    ensures found ==> RootCode(code, x0) in g.vertexes
    ensures Kept(old(g.vertexes), g.vertexes, Codes(courses))
    ensures forall v :: v in g.vertexes.Values ==> v in old(g.vertexes).Values || fresh(v)
    ensures !found ==> g.vertexes == old(g.vertexes) && g.edges == Swept(old(g.edges), g.vertexes.Keys)
    ensures !found ==> unchanged(g`scale, g`translate, g`dimensions, g`draggable, g`offset)
    ensures !found ==> forall v :: v in old(g.vertexes).Values ==> unchanged(v)
    ensures forall k, e :: k in g.edges && e in g.edges[k] ==> IsLive(g.vertexes.Keys, e)
    ensures pops <= 1 + |Requisites(courses)|
  {
    found, pops := Explore(g, courses, Root(code, x0), colors, view);
    Redraw(g, view);
  }

  /** The closing `graph.draw()`, as far as the graph's state goes: dangling
      edges are collected and every edge left is live. */
  method Redraw(g: Graph, view: View)
    requires g.Valid()
    modifies g`edges
    ensures g.Valid() && g.vertexes == old(g.vertexes)
    ensures g.edges == Swept(old(g.edges), g.vertexes.Keys)
    ensures unchanged(g`scale, g`translate, g`dimensions, g`draggable, g`offset)
    ensures forall v :: v in old(g.vertexes).Values ==> unchanged(v)
    ensures forall k, e :: k in g.edges && e in g.edges[k] ==> IsLive(g.vertexes.Keys, e)
  {
    var _, _, _ := g.Draw(view);
  }

  lemma KeptTrans(v0: map<string, Vertex>, v1: map<string, Vertex>, v2: map<string, Vertex>, codes: set<string>)
    requires Kept(v0, v1, codes) && Kept(v1, v2, codes)
    ensures Kept(v0, v2, codes)
  {
  }

  /** A subset is no larger, and a proper subset is smaller. */
  lemma {:induction false} SubsetSize(a: set<string>, b: set<string>)
    requires a <= b
    ensures |a| <= |b|
    ensures a != b ==> |a| < |b|
    decreases |a|
  {
    if a != {} {
      var x :| x in a;
      if a != b {
        var y :| y in b && y !in a;
        assert y in b - {x} && y !in a - {x};
      }
      SubsetSize(a - {x}, b - {x});
    } else if b != {} {
      var x :| x in b;
    }
  }
}
