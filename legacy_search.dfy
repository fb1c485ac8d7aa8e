/** `search` of the older JavaScript build (`main.js`): the same explicit
    stack walk as the TypeScript build, but over the dataset's lists in their
    stored order, with the code taken from the first two words of a
    requisite string, every resolving member counted, the columns clamped
    into the window, and no deepening of frames already on the stack. */
module LegacySearch {
  import opened Text
  import opened Util
  import opened Catalogue
  import opened Edges
  import G = Graphs
  import opened LegacyGraphs
  import S = Search

  /** A JavaScript number as far as this walk needs one: `0 / 0` is NaN,
      and NaN spreads through `+`, `*`, `Math.max` and `Math.min`. */
  datatype Num = Finite(value: real) | NaN

  /** A stack entry: the `split(" ")` of a requisite string, the column its
      card gets and its depth below the searched course. */
  datatype Frame = Frame(req: seq<string>, x: Num, depth: nat)

  /** The part of `const [department, number] = req` at `k`: a missing word
      is `undefined`, which both a template string and a property lookup
      spell "undefined". */
  function Token(req: seq<string>, k: nat): (r: string)
    ensures k < |req| ==> r == req[k]
    ensures k >= |req| ==> r == "undefined"
  {
    if k < |req| then req[k] else "undefined"
  }

  /** The first two words name a course of the dataset. */
  predicate Named(courses: Dataset, req: seq<string>) {
    Resolves(courses, Token(req, 0), Token(req, 1))
  }

  predicate FrameResolves(courses: Dataset, f: Frame) {
    Named(courses, f.req)
  }

  predicate MemberResolves(courses: Dataset, requisite: string) {
    Named(courses, Split(requisite, " "))
  }

  /** The code a popped frame stands for: `${department} ${number}`. */
  function CodeOf(f: Frame): string {
    Token(f.req, 0) + " " + Token(f.req, 1)
  }

  /** Three space-free words joined by single spaces split back into them. */
  lemma SplitThreeWords(a: string, b: string, d: string)
    requires forall i :: 0 <= i < |a| ==> a[i] != ' '
    requires forall i :: 0 <= i < |b| ==> b[i] != ' '
    requires forall i :: 0 <= i < |d| ==> d[i] != ' '
    ensures Split(a + " " + b + " " + d, " ") == [a, b, d]
  {
    SplitCharNone(d, ' ');
    SplitCharPrefix(b, ' ', d);
    assert a + " " + b + " " + d == a + [' '] + (b + [' '] + d);
    SplitCharPrefix(a, ' ', b + [' '] + d);
  }

  /** "ART HISTORY 101" splits into three words. */
  lemma SplitArtHistory()
    ensures Split("ART HISTORY 101", " ") == ["ART", "HISTORY", "101"]
  {
    SplitThreeWords("ART", "HISTORY", "101");
    assert "ART" + " " + "HISTORY" + " " + "101" == "ART HISTORY 101";
  }

  /** "ART HISTORY 101" stands for the course "ART HISTORY", which a
      two-word match cannot find. */
  lemma CodeOfArtHistory(x: Num)
    ensures CodeOf(Frame(Split("ART HISTORY 101", " "), x, 0)) == "ART HISTORY"
  {
    SplitArtHistory();
  }

  /** The row of a new card at `depth`: one card width per level. */
  function RowY(depth: nat): (r: real)
    ensures r == (depth as real) * CardWidth + 16.0
  {
    (depth as real) * 128.0 + 16.0
  }

  /** What is drawn from the browser while a member is pushed: the window's
      inner width, and the two `Math.random()` values a pushed prerequisite
      takes, by member (a member is pushed at most once per search). */
  datatype Env = Env(width: real, draws: string -> (real, real))

  /** Where the children of a popped course go: its column and depth, the
      number of resolving members of the kind, and the kind. */
  datatype Place = Place(x: real, depth: nat, reqlen: nat, prereq: bool)

  /** A prerequisite's column: centred under the parent, 136 pixels apart,
      then kept between the two random margins. */
  function PrereqX(x: real, i: nat, reqlen: nat, lo: real, hi: real): (r: real)
    ensures lo <= hi ==> lo <= r <= hi
    ensures lo <= x + ((i as real) - (reqlen as real) / 2.0) * (CardWidth + 8.0) <= hi ==>
      r == x + ((i as real) - (reqlen as real) / 2.0) * (CardWidth + 8.0)
  {
    Min(Max(x + ((i as real) - (reqlen as real) / 2.0) * 136.0, lo), hi)
  }

  /** A corequisite's column: the window's width shared among the `reqlen`
      resolving members, kept inside the window. With `reqlen == 0` the
      offset divides by zero: `0 / 0` is NaN, and a positive or negative
      amount over zero is an infinity that the clamp turns into the right
      edge. */
  function CoreqX(x: real, i: nat, reqlen: nat, width: real): (r: Num)
    ensures r.NaN? <==> reqlen == 0 && (i == 0 || width == 0.0)
    ensures reqlen > 0 && width >= CardWidth ==> r.Finite? && 0.0 <= r.value <= width - CardWidth
  {
    if reqlen == 0 then (if i == 0 || width == 0.0 then NaN else Finite(width - 128.0))
    else Finite(Min(Max(x + ((i as real) - (reqlen as real) / 2.0) * width / (reqlen as real), 0.0), width - 128.0))
  }

  /** The column of the member `requisite` pushed as the `i`-th resolving
      child. */
  function ChildX(env: Env, p: Place, i: nat, requisite: string): Num {
    if p.prereq then Finite(PrereqX(p.x, i, p.reqlen, 160.0 * env.draws(requisite).0, env.width - 128.0 - 160.0 * env.draws(requisite).1))
    else CoreqX(p.x, i, p.reqlen, env.width)
  }

  // ---------------------------------------------------------------------
  // Counting the children to expect

  /** Occurrences in `group` of strings that resolve, explored or not. */
  function CountGroup(courses: Dataset, group: seq<string>): nat {
    if group == [] then 0
    else CountGroup(courses, group[..|group| - 1]) + (if MemberResolves(courses, group[|group| - 1]) then 1 else 0)
  }

  function CountAll(courses: Dataset, groups: seq<seq<string>>): nat {
    if groups == [] then 0
    else CountAll(courses, groups[..|groups| - 1]) + CountGroup(courses, groups[|groups| - 1])
  }

  /** A resolving member is counted. */
  lemma {:induction false} CountGroupPositive(courses: Dataset, group: seq<string>, k: nat)
    requires k < |group| && MemberResolves(courses, group[k])
    ensures CountGroup(courses, group) > 0
  {
    var n := |group| - 1;
    if k < n {
      assert group[..n][k] == group[k];
      CountGroupPositive(courses, group[..n], k);
    }
  }

  lemma {:induction false} CountAllPositive(courses: Dataset, groups: seq<seq<string>>, j: nat, k: nat)
    requires j < |groups| && k < |groups[j]| && MemberResolves(courses, groups[j][k])
    ensures CountAll(courses, groups) > 0
  {
    var n := |groups| - 1;
    if j < n {
      assert groups[..n][j] == groups[j];
      CountAllPositive(courses, groups[..n], j, k);
    } else {
      CountGroupPositive(courses, groups[j], k);
    }
  }

  /** The inner loop of the counting pass. */
  method CountMembers(courses: Dataset, group: seq<string>) returns (n: nat)
    ensures n == CountGroup(courses, group)
  {
    n := 0;
    for m := 0 to |group|
      invariant n == CountGroup(courses, group[..m])
    {
      assert group[..m + 1][..m] == group[..m];
      var req := Split(group[m], " ");
      var department, number := Token(req, 0), Token(req, 1);
      if department in courses && number in courses[department] {
        n := n + 1;
      }
    }
    assert group[..|group|] == group;
  }

  /** `reqlen`: the counting pass over every set of the kind. */
  method CountResolving(courses: Dataset, groups: seq<seq<string>>) returns (reqlen: nat)
    ensures reqlen == CountAll(courses, groups)
  {
    reqlen := 0;
    for j := 0 to |groups|
      invariant reqlen == CountAll(courses, groups[..j])
    {
      assert groups[..j + 1][..j] == groups[..j];
      var n := CountMembers(courses, groups[j]);
      reqlen := reqlen + n;
    }
    assert groups[..|groups|] == groups;
  }

  // ---------------------------------------------------------------------
  // Visiting the members of one requisite kind

  /** The walk's state while one kind of one course is visited: explored
      strings, the stack, and `i`, the resolving members pushed so far. */
  datatype Walk = Walk(explored: set<string>, stack: seq<Frame>, i: nat)

  /** One member: an unexplored one is explored and pushed, and counts
      towards `i` if it resolves; an explored one changes nothing. */
  function VisitMember(courses: Dataset, env: Env, p: Place, w: Walk, requisite: string): Walk {
    if requisite in w.explored then w
    else
      Walk(w.explored + {requisite},
           w.stack + [Frame(Split(requisite, " "), ChildX(env, p, w.i, requisite), p.depth + 1)],
           if MemberResolves(courses, requisite) then w.i + 1 else w.i)
  }

  function VisitGroup(courses: Dataset, env: Env, p: Place, w: Walk, group: seq<string>): Walk {
    if group == [] then w
    else VisitMember(courses, env, p, VisitGroup(courses, env, p, w, group[..|group| - 1]), group[|group| - 1])
  }

  function VisitGroups(courses: Dataset, env: Env, p: Place, w: Walk, groups: seq<seq<string>>): Walk {
    if groups == [] then w
    else VisitGroup(courses, env, p, VisitGroups(courses, env, p, w, groups[..|groups| - 1]), groups[|groups| - 1])
  }

  /** One kind of a course whose frame had column `x` and `depth`. */
  function VisitKind(courses: Dataset, env: Env, x: real, depth: nat, prereq: bool,
                     explored: set<string>, stack: seq<Frame>, groups: seq<seq<string>>): Walk {
    VisitGroups(courses, env, Place(x, depth, CountAll(courses, groups), prereq), Walk(explored, stack, 0), groups)
  }

  /** Both kinds of a course, prerequisites first. */
  function VisitCourse(courses: Dataset, env: Env, x: real, depth: nat,
                       explored: set<string>, stack: seq<Frame>, c: Course): (set<string>, seq<Frame>) {
    var w := VisitKind(courses, env, x, depth, true, explored, stack, Lists(c, true));
    var w' := VisitKind(courses, env, x, depth, false, w.explored, w.stack, Lists(c, false));
    (w'.explored, w'.stack)
  }

  /** A visit explores only `these`, and pushes one frame per string it
      explores; the frames already on the stack stay as they are. */
  predicate Grows(w: Walk, w': Walk, these: set<string>) {
    && w.explored <= w'.explored
    && w'.explored - w.explored <= these
    && |w.stack| <= |w'.stack| && w'.stack[..|w.stack|] == w.stack
    && |w'.stack| - |w.stack| == |w'.explored| - |w.explored|
  }

  lemma GrowsTrans(w0: Walk, w1: Walk, w2: Walk, these: set<string>)
    requires Grows(w0, w1, these) && Grows(w1, w2, these)
    ensures Grows(w0, w2, these)
  {
    assert w2.stack[..|w0.stack|] == w2.stack[..|w1.stack|][..|w0.stack|];
  }

  lemma VisitMemberGrows(courses: Dataset, env: Env, p: Place, w: Walk, requisite: string)
    ensures Grows(w, VisitMember(courses, env, p, w, requisite), {requisite})
  {
  }

  lemma {:induction false} VisitGroupGrows(courses: Dataset, env: Env, p: Place, w: Walk, group: seq<string>)
    ensures Grows(w, VisitGroup(courses, env, p, w, group), set s | s in group)
  {
    if group != [] {
      var n := |group| - 1;
      var w1 := VisitGroup(courses, env, p, w, group[..n]);
      VisitGroupGrows(courses, env, p, w, group[..n]);
      VisitMemberGrows(courses, env, p, w1, group[n]);
      GrowsTrans(w, w1, VisitMember(courses, env, p, w1, group[n]), set s | s in group);
    }
  }

  lemma {:induction false} VisitGroupsGrows(courses: Dataset, env: Env, p: Place, w: Walk, groups: seq<seq<string>>)
    ensures Grows(w, VisitGroups(courses, env, p, w, groups), S.Members(groups))
  {
    if groups != [] {
      var n := |groups| - 1;
      var w1 := VisitGroups(courses, env, p, w, groups[..n]);
      VisitGroupsGrows(courses, env, p, w, groups[..n]);
      VisitGroupGrows(courses, env, p, w1, groups[n]);
      GrowsTrans(w, w1, VisitGroup(courses, env, p, w1, groups[n]), S.Members(groups));
    }
  }

  /** Visiting a course of the dataset explores only requisite strings of
      the dataset, one pushed frame each. */
  lemma VisitCourseGrows(courses: Dataset, env: Env, department: string, number: string, x: real, depth: nat,
                         explored: set<string>, stack: seq<Frame>)
    requires Resolves(courses, department, number)
    ensures var r := VisitCourse(courses, env, x, depth, explored, stack, courses[department][number]);
      Grows(Walk(explored, stack, 0), Walk(r.0, r.1, 0), Requisites(courses))
  {
    var c := courses[department][number];
    var w0 := Walk(explored, stack, 0);
    var w := VisitKind(courses, env, x, depth, true, explored, stack, Lists(c, true));
    var w' := VisitKind(courses, env, x, depth, false, w.explored, w.stack, Lists(c, false));
    VisitGroupsGrows(courses, env, Place(x, depth, CountAll(courses, Lists(c, true)), true), w0, Lists(c, true));
    VisitGroupsGrows(courses, env, Place(x, depth, CountAll(courses, Lists(c, false)), false),
                     Walk(w.explored, w.stack, 0), Lists(c, false));
    S.CourseMembers(courses, department, number, true);
    S.CourseMembers(courses, department, number, false);
    GrowsTrans(w0, Walk(w.explored, w.stack, 0), Walk(w'.explored, w'.stack, 0), Requisites(courses));
  }

  /** `i` never passes the count it is centred on. */
  lemma {:induction false} VisitGroupIndex(courses: Dataset, env: Env, p: Place, w: Walk, group: seq<string>)
    ensures VisitGroup(courses, env, p, w, group).i <= w.i + CountGroup(courses, group)
  {
    if group != [] {
      VisitGroupIndex(courses, env, p, w, group[..|group| - 1]);
    }
  }

  lemma {:induction false} VisitGroupsIndex(courses: Dataset, env: Env, p: Place, w: Walk, groups: seq<seq<string>>)
    ensures VisitGroups(courses, env, p, w, groups).i <= w.i + CountAll(courses, groups)
  {
    if groups != [] {
      var n := |groups| - 1;
      VisitGroupsIndex(courses, env, p, w, groups[..n]);
      VisitGroupIndex(courses, env, p, VisitGroups(courses, env, p, w, groups[..n]), groups[n]);
    }
  }

  /** A kind never pushes more resolving children than it counted. */
  lemma VisitKindIndex(courses: Dataset, env: Env, x: real, depth: nat, prereq: bool,
                       explored: set<string>, stack: seq<Frame>, groups: seq<seq<string>>)
    ensures VisitKind(courses, env, x, depth, prereq, explored, stack, groups).i <= CountAll(courses, groups)
  {
    VisitGroupsIndex(courses, env, Place(x, depth, CountAll(courses, groups), prereq), Walk(explored, stack, 0), groups);
  }

  // ---------------------------------------------------------------------
  // A NaN column never reaches a card

  /** A frame whose column is NaN does not resolve. */
  predicate Placed(courses: Dataset, f: Frame) {
    f.x.NaN? ==> !FrameResolves(courses, f)
  }

  predicate AllPlaced(courses: Dataset, stack: seq<Frame>) {
    forall j :: 0 <= j < |stack| ==> Placed(courses, stack[j])
  }

  /** With nothing counted, no member resolves: only then a column is NaN. */
  predicate Uncounted(courses: Dataset, p: Place, group: seq<string>) {
    p.reqlen == 0 ==> forall k :: 0 <= k < |group| ==> !MemberResolves(courses, group[k])
  }

  lemma {:induction false} VisitGroupPlaced(courses: Dataset, env: Env, p: Place, w: Walk, group: seq<string>)
    requires AllPlaced(courses, w.stack) && Uncounted(courses, p, group)
    ensures AllPlaced(courses, VisitGroup(courses, env, p, w, group).stack)
  {
    if group != [] {
      var n := |group| - 1;
      assert forall k :: 0 <= k < n ==> group[..n][k] == group[k];
      VisitGroupPlaced(courses, env, p, w, group[..n]);
      var w1 := VisitGroup(courses, env, p, w, group[..n]);
      if group[n] !in w1.explored {
        var f := Frame(Split(group[n], " "), ChildX(env, p, w1.i, group[n]), p.depth + 1);
        assert f.x.NaN? ==> p.reqlen == 0;
        assert VisitMember(courses, env, p, w1, group[n]).stack == w1.stack + [f];
      }
    }
  }

  lemma {:induction false} VisitGroupsPlaced(courses: Dataset, env: Env, p: Place, w: Walk, groups: seq<seq<string>>)
    requires AllPlaced(courses, w.stack)
    requires forall j :: 0 <= j < |groups| ==> Uncounted(courses, p, groups[j])
    ensures AllPlaced(courses, VisitGroups(courses, env, p, w, groups).stack)
  {
    if groups != [] {
      var n := |groups| - 1;
      assert forall j :: 0 <= j < n ==> groups[..n][j] == groups[j];
      VisitGroupsPlaced(courses, env, p, w, groups[..n]);
      VisitGroupPlaced(courses, env, p, VisitGroups(courses, env, p, w, groups[..n]), groups[n]);
    }
  }

  lemma VisitKindPlaced(courses: Dataset, env: Env, x: real, depth: nat, prereq: bool,
                        explored: set<string>, stack: seq<Frame>, groups: seq<seq<string>>)
    requires AllPlaced(courses, stack)
    ensures AllPlaced(courses, VisitKind(courses, env, x, depth, prereq, explored, stack, groups).stack)
  {
    var p := Place(x, depth, CountAll(courses, groups), prereq);
    forall j | 0 <= j < |groups| ensures Uncounted(courses, p, groups[j]) {
      forall k | 0 <= k < |groups[j]| && p.reqlen == 0 ensures !MemberResolves(courses, groups[j][k]) {
        if MemberResolves(courses, groups[j][k]) {
          CountAllPositive(courses, groups, j, k);
        }
      }
    }
    VisitGroupsPlaced(courses, env, p, Walk(explored, stack, 0), groups);
  }

  /** Every frame a course pushes has a column or does not resolve. */
  lemma VisitCoursePlaced(courses: Dataset, env: Env, x: real, depth: nat,
                          explored: set<string>, stack: seq<Frame>, c: Course)
    requires AllPlaced(courses, stack)
    ensures AllPlaced(courses, VisitCourse(courses, env, x, depth, explored, stack, c).1)
  {
    var w := VisitKind(courses, env, x, depth, true, explored, stack, Lists(c, true));
    VisitKindPlaced(courses, env, x, depth, true, explored, stack, Lists(c, true));
    VisitKindPlaced(courses, env, x, depth, false, w.explored, w.stack, Lists(c, false));
  }

  // ---------------------------------------------------------------------
  // The edges of a course

  function KindOf(prereq: bool): string {
    if prereq then Prereq else Coreq
  }

  /** Prerequisite edges first, each set with the next random colour. */
  function CourseEdges(edges: map<string, seq<Edge>>, code: string, c: Course, colors: nat -> string, c0: nat): map<string, seq<Edge>> {
    var pre := S.KindEdges(code, Lists(c, true), colors, c0, Prereq);
    var co := S.KindEdges(code, Lists(c, false), colors, c0 + |Lists(c, true)|, Coreq);
    S.Append(S.Append(edges, code, pre), code, co)
  }

  /** A visit adds to the course's bucket only: its prerequisite edges,
      then its corequisite edges. */
  lemma CourseEdgesBuckets(edges: map<string, seq<Edge>>, code: string, c: Course, colors: nat -> string, c0: nat)
    ensures forall k :: k != code ==> G.Bucket(CourseEdges(edges, code, c, colors, c0), k) == G.Bucket(edges, k)
    ensures G.Bucket(CourseEdges(edges, code, c, colors, c0), code) ==
      G.Bucket(edges, code) + (S.KindEdges(code, Lists(c, true), colors, c0, Prereq)
                             + S.KindEdges(code, Lists(c, false), colors, c0 + |Lists(c, true)|, Coreq))
  {
    var pre := S.KindEdges(code, Lists(c, true), colors, c0, Prereq);
    var co := S.KindEdges(code, Lists(c, false), colors, c0 + |Lists(c, true)|, Coreq);
    S.AppendTwiceBuckets(edges, code, pre, co);
  }

  /** The colour index of a course's first set of a kind: prerequisite sets
      take the colours before the corequisite ones. */
  function FirstColor(c: Course, c0: nat, prereq: bool): nat {
    if prereq then c0 else c0 + |Lists(c, true)|
  }

  /** Member `m` of set `j` of a kind gets an edge in the course's bucket,
      of type "prereq" for a prerequisite and "coreq" for a corequisite,
      in the colour drawn for its set. */
  lemma CourseEdgesCover(edges: map<string, seq<Edge>>, code: string, c: Course, colors: nat -> string, c0: nat,
                         prereq: bool, j: nat, m: nat)
    requires j < |Lists(c, prereq)| && m < |Lists(c, prereq)[j]|
    ensures Edge(code, Lists(c, prereq)[j][m], colors(FirstColor(c, c0, prereq) + j), KindOf(prereq))
      in G.Bucket(CourseEdges(edges, code, c, colors, c0), code)
  {
    CourseEdgesBuckets(edges, code, c, colors, c0);
    S.KindEdgesCover(code, Lists(c, prereq), colors, FirstColor(c, c0, prereq), KindOf(prereq), j, m);
  }

  // ---------------------------------------------------------------------
  // The methods

  /** The body of the visiting pass for one member, past its edge. */
  method ExpandMember(courses: Dataset, env: Env, p: Place, w0: Walk, requisite: string) returns (w: Walk)
    ensures w == VisitMember(courses, env, p, w0, requisite)
  {
    w := w0;
    if requisite !in w.explored {
      w := w.(explored := w.explored + {requisite});
      var req := Split(requisite, " ");
      w := w.(stack := w.stack + [Frame(req, ChildX(env, p, w.i, requisite), p.depth + 1)]);
      var department, number := Token(req, 0), Token(req, 1);
      if department in courses && number in courses[department] {
        w := w.(i := w.i + 1);
      }
    }
  }

  /** The inner loop of the visiting pass: an edge per member, in `color`. */
  method ExpandGroup(g: Graph, courses: Dataset, env: Env, p: Place, code: string,
                     group: seq<string>, color: string, w0: Walk)
    returns (w: Walk)
    requires g.Valid()
    modifies g`edges
    ensures g.Valid()
    ensures w == VisitGroup(courses, env, p, w0, group)
    ensures g.edges == S.Append(old(g.edges), code, S.GroupEdges(code, group, color, KindOf(p.prereq)))
  {
    w := w0;
    for m := 0 to |group|
      invariant g.Valid()
      invariant w == VisitGroup(courses, env, p, w0, group[..m])
      invariant g.edges == S.Append(old(g.edges), code, S.GroupEdges(code, group[..m], color, KindOf(p.prereq)))
    {
      var requisite := group[m];
      assert group[..m + 1][..m] == group[..m];
      var e := if p.prereq then NewEdge(code, requisite, color) else NewEdge(code, requisite, color, "coreq");
      assert e == Edge(code, requisite, color, KindOf(p.prereq));
      S.AppendSnoc(old(g.edges), code, S.GroupEdges(code, group[..m], color, KindOf(p.prereq)), e);
      g.AddEdge(e);
      ghost var before := w;
      w := ExpandMember(courses, env, p, w, requisite);
      assert VisitGroup(courses, env, p, w0, group[..m + 1]) == VisitMember(courses, env, p, before, requisite);
    }
    assert group[..|group|] == group;
  }

  /** The outer loop of the visiting pass; the `j`-th set takes the colour
      `colors(c0 + j)`. */
  method ExpandGroups(g: Graph, courses: Dataset, env: Env, p: Place, code: string,
                      groups: seq<seq<string>>, colors: nat -> string, c0: nat, w0: Walk)
    returns (w: Walk, c: nat)
    requires g.Valid()
    modifies g`edges
    ensures g.Valid()
    ensures w == VisitGroups(courses, env, p, w0, groups)
    ensures c == c0 + |groups|
    ensures g.edges == S.Append(old(g.edges), code, S.KindEdges(code, groups, colors, c0, KindOf(p.prereq)))
  {
    w, c := w0, c0;
    for j := 0 to |groups|
      invariant g.Valid()
      invariant w == VisitGroups(courses, env, p, w0, groups[..j])
      invariant c == c0 + j
      invariant g.edges == S.Append(old(g.edges), code, S.KindEdges(code, groups[..j], colors, c0, KindOf(p.prereq)))
    {
      w, c := ExpandSet(g, courses, env, p, code, groups, j, colors, c0, c, w0, w, old(g.edges));
    }
    assert groups[..|groups|] == groups;
  }

  /** The body of the outer loop for set `j`, which takes `colors(c)`. */
  method ExpandSet(g: Graph, courses: Dataset, env: Env, p: Place, code: string,
                   groups: seq<seq<string>>, j: nat, colors: nat -> string, c0: nat, c: nat,
                   ghost w00: Walk, w0: Walk, ghost e0: map<string, seq<Edge>>)
    returns (w: Walk, c': nat)
    requires g.Valid()
    requires j < |groups| && c == c0 + j
    requires w0 == VisitGroups(courses, env, p, w00, groups[..j])
    requires g.edges == S.Append(e0, code, S.KindEdges(code, groups[..j], colors, c0, KindOf(p.prereq)))
    modifies g`edges
    ensures g.Valid()
    ensures c' == c0 + (j + 1)
    ensures w == VisitGroups(courses, env, p, w00, groups[..j + 1])
    ensures g.edges == S.Append(e0, code, S.KindEdges(code, groups[..j + 1], colors, c0, KindOf(p.prereq)))
  {
    assert groups[..j + 1][..j] == groups[..j];
    var color := colors(c);
    assert color == colors(c0 + j);
    S.KindEdgesStep(e0, code, groups, colors, c0, KindOf(p.prereq), j, color);
    w := ExpandGroup(g, courses, env, p, code, groups[j], color, w0);
    c' := c + 1;
  }

  /** One kind the course lists: count, then visit. */
  method ExpandKind(g: Graph, courses: Dataset, env: Env, code: string, x: real, depth: nat, prereq: bool,
                    groups: seq<seq<string>>, colors: nat -> string, c0: nat, explored: set<string>, stack: seq<Frame>)
    returns (explored': set<string>, stack': seq<Frame>, c: nat)
    requires g.Valid()
    modifies g`edges
    ensures g.Valid()
    ensures var w := VisitKind(courses, env, x, depth, prereq, explored, stack, groups); explored' == w.explored && stack' == w.stack
    ensures c == c0 + |groups|
    ensures g.edges == S.Append(old(g.edges), code, S.KindEdges(code, groups, colors, c0, KindOf(prereq)))
  {
    var reqlen := CountResolving(courses, groups);
    var w;
    w, c := ExpandGroups(g, courses, env, Place(x, depth, reqlen, prereq), code, groups, colors, c0, Walk(explored, stack, 0));
    explored', stack' := w.explored, w.stack;
  }

  /** `if (course.prereqs)` / `if (course.coreqs)`: an absent list adds
      nothing. */
  method ExpandListed(g: Graph, courses: Dataset, env: Env, code: string, list: Option<seq<seq<string>>>, prereq: bool,
                      x: real, depth: nat, colors: nat -> string, c0: nat, explored: set<string>, stack: seq<Frame>)
    returns (explored': set<string>, stack': seq<Frame>, c: nat)
    requires g.Valid()
    modifies g`edges
    ensures g.Valid()
    ensures explored' == VisitKind(courses, env, x, depth, prereq, explored, stack, Listed(list)).explored
    ensures stack' == VisitKind(courses, env, x, depth, prereq, explored, stack, Listed(list)).stack
    ensures c == c0 + |Listed(list)|
    ensures g.edges == S.Append(old(g.edges), code, S.KindEdges(code, Listed(list), colors, c0, KindOf(prereq)))
  {
    explored', stack', c := explored, stack, c0;
    if list.Some? {
      explored', stack', c := ExpandKind(g, courses, env, code, x, depth, prereq, list.value, colors, c0, explored, stack);
    }
  }

  /** Both kinds of a course, prerequisites first. */
  method ExpandCourse(g: Graph, courses: Dataset, env: Env, code: string, course: Course, x: real, depth: nat,
                      colors: nat -> string, c0: nat, explored: set<string>, stack: seq<Frame>)
    returns (explored': set<string>, stack': seq<Frame>, c: nat)
    requires g.Valid()
    modifies g`edges
    ensures g.Valid()
    ensures (explored', stack') == VisitCourse(courses, env, x, depth, explored, stack, course)
    ensures c == c0 + |Lists(course, true)| + |Lists(course, false)|
    ensures g.edges == CourseEdges(old(g.edges), code, course, colors, c0)
  {
    explored', stack', c := ExpandListed(g, courses, env, code, course.prereqs, true, x, depth, colors, c0, explored, stack);
    explored', stack', c := ExpandListed(g, courses, env, code, course.coreqs, false, x, depth, colors, c, explored', stack');
  }

  /** The card of a popped, resolving frame: a new one at the frame's column
      and `RowY(depth)`, or the existing one moved a card width below where
      the page shows it. */
  method PlaceVertex(g: Graph, code: string, name: string, x: real, depth: nat, view: G.View)
    requires g.Valid()
    modifies g`vertexes, g.vertexes.Values
    ensures g.Valid() && g.edges == old(g.edges)
    ensures code in g.vertexes
    ensures code in old(g.vertexes) ==> (
      g.vertexes == old(g.vertexes) &&
      g.vertexes[code].y == view.ClientTop(old(g.vertexes[code].y)) + CardWidth &&
      g.vertexes[code].x == old(g.vertexes[code].x))
    ensures code !in old(g.vertexes) ==> (
      fresh(g.vertexes[code]) &&
      g.vertexes == old(g.vertexes)[code := g.vertexes[code]] &&
      g.vertexes[code].id == code && g.vertexes[code].name == name &&
      g.vertexes[code].x == x && g.vertexes[code].y == RowY(depth))
    ensures forall k :: k in old(g.vertexes) && k != code ==> g.vertexes[k].x == old(g.vertexes[k].x) && g.vertexes[k].y == old(g.vertexes[k].y)
  {
    if code !in g.vertexes {
      var v := new Vertex(code, name, x, RowY(depth));
      g.AddVertex(v);
    } else {
      var v := g.vertexes[code];
      v.y := view.ClientTop(v.y) + 128.0;
    }
  }

  /** One popped frame: nothing happens unless its first two words name a
      course; then its card is placed and both kinds are visited. */
  method Visit(g: Graph, courses: Dataset, env: Env, f: Frame, view: G.View, colors: nat -> string, c0: nat,
               explored: set<string>, stack: seq<Frame>)
    returns (resolved: bool, explored': set<string>, stack': seq<Frame>, c: nat)
    requires g.Valid() && Placed(courses, f)
    modifies g, g.vertexes.Values
    ensures g.Valid()
    ensures resolved == FrameResolves(courses, f)
    ensures !resolved ==> (
      explored' == explored && stack' == stack && c == c0 &&
      g.vertexes == old(g.vertexes) && g.edges == old(g.edges))
    ensures !resolved ==> unchanged(g) && forall v :: v in old(g.vertexes).Values ==> unchanged(v)
    ensures resolved ==> f.x.Finite? && CodeOf(f) in g.vertexes && CodeOf(f) in Codes(courses)
    ensures resolved ==> var course := courses[Token(f.req, 0)][Token(f.req, 1)];
      (explored', stack') == VisitCourse(courses, env, f.x.value, f.depth, explored, stack, course) &&
      g.edges == CourseEdges(old(g.edges), CodeOf(f), course, colors, c0)
    ensures CodeOf(f) in old(g.vertexes) ==> g.vertexes == old(g.vertexes)
    ensures CodeOf(f) !in old(g.vertexes) && resolved ==> (
      fresh(g.vertexes[CodeOf(f)]) &&
      g.vertexes == old(g.vertexes)[CodeOf(f) := g.vertexes[CodeOf(f)]])
  {
    var department, number := Token(f.req, 0), Token(f.req, 1);
    explored', stack', c := explored, stack, c0;
    resolved := department in courses && number in courses[department];
    if resolved {
      S.CodeIsCode(courses, department, number);
      explored', stack', c := VisitResolved(g, courses, env, department + " " + number, courses[department][number],
                                            f.x.value, f.depth, view, colors, c0, explored, stack);
    }
  }

  /** The resolved branch of `Visit`. */
  method VisitResolved(g: Graph, courses: Dataset, env: Env, code: string, course: Course, x: real, depth: nat,
                       view: G.View, colors: nat -> string, c0: nat, explored: set<string>, stack: seq<Frame>)
    returns (explored': set<string>, stack': seq<Frame>, c: nat)
    requires g.Valid()
    modifies g, g.vertexes.Values
    ensures g.Valid()
    ensures code in g.vertexes
    ensures (explored', stack') == VisitCourse(courses, env, x, depth, explored, stack, course)
    ensures g.edges == CourseEdges(old(g.edges), code, course, colors, c0)
    ensures code in old(g.vertexes) ==> g.vertexes == old(g.vertexes)
    ensures code !in old(g.vertexes) ==> (
      fresh(g.vertexes[code]) &&
      g.vertexes == old(g.vertexes)[code := g.vertexes[code]])
  {
    PlaceVertex(g, code, course.name, x, depth, view);
    explored', stack', c := ExpandCourse(g, courses, env, code, course, x, depth, colors, c0, explored, stack);
  }

  /** Old cards stay in the map; new keys are course codes. */
  predicate Kept(before: map<string, Vertex>, after: map<string, Vertex>, codes: set<string>) {
    && (forall k :: k in before ==> k in after && after[k] == before[k])
    && after.Keys <= before.Keys + codes
  }

  lemma KeptUpdate(before: map<string, Vertex>, after: map<string, Vertex>, code: string, codes: set<string>)
    requires after == before || (code in codes && code !in before && code in after && after == before[code := after[code]])
    ensures Kept(before, after, codes)
    ensures forall v :: v in after.Values ==> v in before.Values || (code !in before && code in after && v == after[code])
  {
    forall v | v in after.Values
      ensures v in before.Values || (code !in before && code in after && v == after[code])
    {
      var k :| k in after && after[k] == v;
      if k != code {
        assert k in before;
      }
    }
  }

  lemma KeptTrans(v0: map<string, Vertex>, v1: map<string, Vertex>, v2: map<string, Vertex>, codes: set<string>)
    requires Kept(v0, v1, codes) && Kept(v1, v2, codes)
    ensures Kept(v0, v2, codes)
  {
  }

  /** One iteration of the `while (stack.length)` loop. */
  method Step(g: Graph, courses: Dataset, env: Env, f: Frame, view: G.View, colors: nat -> string, c0: nat,
              explored: set<string>, stack: seq<Frame>)
    returns (resolved: bool, explored': set<string>, stack': seq<Frame>, c: nat)
    requires g.Valid() && Placed(courses, f) && AllPlaced(courses, stack)
    modifies g, g.vertexes.Values
    ensures g.Valid() && AllPlaced(courses, stack')
    ensures resolved == FrameResolves(courses, f)
    ensures !resolved ==> (explored' == explored && stack' == stack &&
      g.vertexes == old(g.vertexes) && g.edges == old(g.edges))
    ensures !resolved ==> unchanged(g) && forall v :: v in old(g.vertexes).Values ==> unchanged(v)
    ensures resolved ==> CodeOf(f) in g.vertexes
    ensures Grows(Walk(explored, stack, 0), Walk(explored', stack', 0), Requisites(courses))
    ensures Kept(old(g.vertexes), g.vertexes, Codes(courses))
    ensures forall v :: v in g.vertexes.Values ==> v in old(g.vertexes).Values || fresh(v)
  {
    resolved, explored', stack', c := Visit(g, courses, env, f, view, colors, c0, explored, stack);
    if resolved {
      VisitCourseGrows(courses, env, Token(f.req, 0), Token(f.req, 1), f.x.value, f.depth, explored, stack);
      VisitCoursePlaced(courses, env, f.x.value, f.depth, explored, stack, courses[Token(f.req, 0)][Token(f.req, 1)]);
    }
    KeptUpdate(old(g.vertexes), g.vertexes, CodeOf(f), Codes(courses));
  }

  /** A visit either explores a new requisite string, so fewer remain, or
      pushes nothing. */
  lemma Progress(these: set<string>, before: Walk, after: Walk)
    requires before.explored <= these
    requires Grows(before, after, these)
    ensures before.explored <= after.explored <= these
    ensures |after.stack| - |before.stack| == |after.explored| - |before.explored|
    ensures |these - after.explored| < |these - before.explored| || (after.explored == before.explored && |after.stack| == |before.stack|)
  {
    if after.explored != before.explored {
      var s :| s in after.explored && s !in before.explored;
      assert s in these - before.explored;
      S.SubsetSize(these - after.explored, these - before.explored);
    }
  }

  /** The loop once the searched course has been visited; `pops` counts its
      iterations. */
  method Drain(g: Graph, courses: Dataset, env: Env, colors: nat -> string, view: G.View, c0: nat,
               explored0: set<string>, stack0: seq<Frame>)
    returns (ghost pops: nat)
    requires g.Valid() && AllPlaced(courses, stack0)
    requires explored0 <= Requisites(courses)
    modifies g, g.vertexes.Values
    ensures g.Valid()
    ensures Kept(old(g.vertexes), g.vertexes, Codes(courses))
    ensures forall v :: v in g.vertexes.Values ==> v in old(g.vertexes).Values || fresh(v)
    ensures pops + |explored0| <= |stack0| + |Requisites(courses)|
  {
    var explored, stack, c := explored0, stack0, c0;
    pops := 0;
    while stack != []
      invariant g.Valid() && AllPlaced(courses, stack)
      invariant explored0 <= explored <= Requisites(courses)
      invariant pops + |stack| + |explored0| == |stack0| + |explored|
      invariant Kept(old(g.vertexes), g.vertexes, Codes(courses))
      invariant forall v :: v in g.vertexes.Values ==> v in old(g.vertexes).Values || fresh(v)
      decreases |Requisites(courses) - explored|, |stack|
    {
      var f := stack[|stack| - 1];
      stack := stack[..|stack| - 1];
      ghost var before, v0 := Walk(explored, stack, 0), g.vertexes;
      var resolved;
      resolved, explored, stack, c := Step(g, courses, env, f, view, colors, c, explored, stack);
      KeptTrans(old(g.vertexes), v0, g.vertexes, Codes(courses));
      Progress(Requisites(courses), before, Walk(explored, stack, 0));
      pops := pops + 1;
    }
    S.SubsetSize(explored, Requisites(courses));
  }

  /** The frame the search starts from: the query's words at `x0`. */
  function Root(code: string, x0: real): Frame {
    Frame(Split(code, " "), Finite(x0), 0)
  }

  /** The loop from the stack holding only the root, which is not marked
      explored. Its first iteration visits the root; the rest run only when
      the root resolved, since otherwise nothing was pushed. */
  method Explore(g: Graph, courses: Dataset, env: Env, root: Frame, colors: nat -> string, view: G.View)
    returns (found: bool, ghost pops: nat)
    requires g.Valid() && root.x.Finite?
    modifies g, g.vertexes.Values
    ensures g.Valid()
    ensures found <==> FrameResolves(courses, root)
    ensures found ==> CodeOf(root) in g.vertexes
    ensures Kept(old(g.vertexes), g.vertexes, Codes(courses))
    ensures forall v :: v in g.vertexes.Values ==> v in old(g.vertexes).Values || fresh(v)
    ensures !found ==> g.vertexes == old(g.vertexes) && g.edges == old(g.edges)
    ensures !found ==> unchanged(g) && forall v :: v in old(g.vertexes).Values ==> unchanged(v)
    ensures pops <= 1 + |Requisites(courses)|
  {
    var explored, stack, c;
    found, explored, stack, c := Step(g, courses, env, root, view, colors, 0, {}, []);
    pops := 1;
    if found {
      ghost var v1 := g.vertexes;
      var more := Drain(g, courses, env, colors, view, c, explored, stack);
      KeptTrans(old(g.vertexes), v1, g.vertexes, Codes(courses));
      pops := pops + more;
    }
  }

  /** `search(graph, code, courses)`: `x0` is the random column of the
      first card, `colors(n)` the random colour of the `n`-th set visited,
      and `pops` counts the iterations of the loop. */
  method Search(g: Graph, code: string, courses: Dataset, env: Env, x0: real, colors: nat -> string, view: G.View)
    returns (found: bool, ghost pops: nat)
    requires g.Valid()
    modifies g, g.vertexes.Values
    ensures g.Valid()
    ensures found <==> Named(courses, Split(code, " "))
    ensures found ==> CodeOf(Root(code, x0)) in g.vertexes
    ensures Kept(old(g.vertexes), g.vertexes, Codes(courses))
    ensures forall v :: v in g.vertexes.Values ==> v in old(g.vertexes).Values || fresh(v)
    ensures !found ==> g.vertexes == old(g.vertexes) && g.edges == G.Swept(old(g.edges), g.vertexes.Keys)
    ensures !found ==> forall v :: v in old(g.vertexes).Values ==> unchanged(v)
    ensures forall k, e :: k in g.edges && e in g.edges[k] ==> IsLive(g.vertexes.Keys, e)
    ensures pops <= 1 + |Requisites(courses)|
  {
    found, pops := Explore(g, courses, env, Root(code, x0), colors, view);
    Redraw(g, view);
  }

  /** The closing `graph.draw()`. */
  method Redraw(g: Graph, view: G.View)
    requires g.Valid()
    modifies g`edges
    ensures g.Valid() && g.vertexes == old(g.vertexes)
    ensures g.edges == G.Swept(old(g.edges), g.vertexes.Keys)
    ensures forall v :: v in old(g.vertexes).Values ==> unchanged(v)
    ensures forall k, e :: k in g.edges && e in g.edges[k] ==> IsLive(g.vertexes.Keys, e)
  {
    var _, _, _ := g.Draw(view);
  }
}
