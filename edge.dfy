/** The edge record and the geometry `draw` gives each edge it strokes. */
module Edges {

  /** An edge from the dependent course `u` to its requisite `v`. `kind` is
      the source's `type` field: "prereq" or "coreq" by convention, stored
      without validation. `color` is shared by the members of one OR-set. */
  datatype Edge = Edge(u: string, v: string, color: string, kind: string)

  const DefaultColor: string := "#000000"
  const Prereq: string := "prereq"
  const Coreq: string := "coreq"

  /** `new Edge(u, v, color?, type?)`: black and "prereq" unless given. */
  function NewEdge(u: string, v: string, color: string := DefaultColor, kind: string := Prereq): (e: Edge)
    ensures e.u == u && e.v == v && e.color == color && e.kind == kind
  {
    Edge(u, v, color, kind)
  }

  /** Both defaults, at once. */
  lemma NewEdgeDefaults(u: string, v: string)
    ensures NewEdge(u, v) == Edge(u, v, "#000000", "prereq")
    ensures NewEdge(u, v, "red") == Edge(u, v, "red", "prereq")
  {
  }

  /** An edge survives a draw pass exactly when both its ends are vertices. */
  predicate IsLive(ids: set<string>, e: Edge) {
    e.u in ids && e.v in ids
  }

  /** What one draw pass leaves of a bucket (a JavaScript `Set`, whose
      iteration order is insertion order). */
  function LiveEdges(ids: set<string>, bucket: seq<Edge>): (r: seq<Edge>)
    ensures |r| <= |bucket|
  {
    if bucket == [] then []
    else
      var rest := LiveEdges(ids, bucket[1..]);
      if IsLive(ids, bucket[0]) then [bucket[0]] + rest else rest
  }

  /** A pass keeps exactly the live edges of the bucket. */
  lemma {:induction false} LiveEdgesMembers(ids: set<string>, bucket: seq<Edge>)
    ensures forall e :: e in LiveEdges(ids, bucket) <==> e in bucket && IsLive(ids, e)
  {
    if bucket != [] {
      LiveEdgesMembers(ids, bucket[1..]);
      assert bucket == [bucket[0]] + bucket[1..];
    }
  }

  /** A pass keeps every copy of a live edge and no copy of a dangling one. */
  lemma {:induction false} LiveEdgesCount(ids: set<string>, bucket: seq<Edge>, e: Edge)
    ensures multiset(LiveEdges(ids, bucket))[e] == if IsLive(ids, e) then multiset(bucket)[e] else 0
  {
    if bucket != [] {
      LiveEdgesCount(ids, bucket[1..], e);
      assert bucket == [bucket[0]] + bucket[1..];
    }
  }

  /** A second pass with the same vertices removes nothing more. */
  lemma {:induction false} LiveEdgesIdempotent(ids: set<string>, bucket: seq<Edge>)
    ensures LiveEdges(ids, LiveEdges(ids, bucket)) == LiveEdges(ids, bucket)
  {
    if bucket != [] {
      LiveEdgesIdempotent(ids, bucket[1..]);
    }
  }

  /** A pass keeps a bucket whose edges are all live as it is. */
  lemma {:induction false} LiveEdgesKeepsLive(ids: set<string>, bucket: seq<Edge>)
    requires forall i :: 0 <= i < |bucket| ==> IsLive(ids, bucket[i])
    ensures LiveEdges(ids, bucket) == bucket
  {
    if bucket != [] {
      LiveEdgesKeepsLive(ids, bucket[1..]);
    }
  }

  datatype Point = Point(x: real, y: real)

  /** The outline of a stroke: a straight segment or a cubic Bezier curve. */
  datatype Path = Line(from: Point, to: Point) | Bezier(from: Point, c1: Point, c2: Point, to: Point)

  /** What `draw` strokes for one edge: the path, and whether an arrow head is
      also drawn at its start (an arrow head at the end is always drawn). The
      directions of the arrow heads need trigonometry and are not modelled. */
  datatype Stroke = Stroke(path: Path, color: string, startArrow: bool)

  /** Card outline in pixels. */
  const CardWidth: real := 128.0
  const CardHeight: real := 72.0

  /** The anchor points of an edge whose end cards have their top-left
      corners at `a` and `b` (page coordinates). */
  function Anchors(kind: string, a: Point, b: Point): (r: (Point, Point))
    ensures kind == Prereq ==> r == (Point(a.x + CardWidth / 2.0, a.y + CardHeight), Point(b.x + CardWidth / 2.0, b.y))
    ensures kind == Coreq ==> r.0.y == a.y + CardHeight / 2.0 && r.1.y == b.y + CardHeight / 2.0
    ensures kind == Coreq && a.x < b.x ==> r.0.x == a.x + CardWidth && r.1.x == b.x
    ensures kind == Coreq && a.x >= b.x ==> r.0.x == a.x && r.1.x == b.x + CardWidth
    ensures kind != Prereq && kind != Coreq ==> r == (a, b)
  {
    if kind == "prereq" then (Point(a.x + 64.0, a.y + 72.0), Point(b.x + 64.0, b.y))
    else if kind == "coreq" then
      var (x1, x2) := if a.x < b.x then (a.x + 128.0, b.x) else (a.x, b.x + 128.0);
      (Point(x1, a.y + 36.0), Point(x2, b.y + 36.0))
    else (a, b)
  }

  function Abs(x: real): real { if x < 0.0 then -x else x }

  /** The stroke `draw` makes for `e` between cards at `a` and `b`. */
  function EdgeStroke(e: Edge, a: Point, b: Point): (s: Stroke)
    ensures s.color == e.color && s.startArrow == (e.kind == Coreq)
    ensures s.path.from == Anchors(e.kind, a, b).0 && s.path.to == Anchors(e.kind, a, b).1
  {
    var (p, q) := Anchors(e.kind, a, b);
    var path := if Abs(q.x - p.x) < 32.0 || e.kind == "coreq" then Line(p, q)
                else Bezier(p, Point(p.x, p.y + 64.0), Point(q.x, q.y - 64.0), q);
    Stroke(path, e.color, e.kind == "coreq")
  }

  /** A prerequisite edge is straight exactly when the two cards' left edges
      are less than 32 pixels apart, and otherwise curves away from each
      card by 64 pixels, vertically. */
  lemma PrereqShape(e: Edge, a: Point, b: Point)
    requires e.kind == Prereq
    ensures EdgeStroke(e, a, b).path.Line? <==> Abs(b.x - a.x) < 32.0
    ensures EdgeStroke(e, a, b).path.Bezier? ==>
      EdgeStroke(e, a, b).path.c1 == Point(a.x + 64.0, a.y + 136.0) &&
      EdgeStroke(e, a, b).path.c2 == Point(b.x + 64.0, b.y - 64.0)
  {
  }

  /** A corequisite edge is always straight, joins the facing sides of the
      two cards at half their height, and carries arrow heads at both ends. */
  lemma CoreqShape(e: Edge, a: Point, b: Point)
    requires e.kind == Coreq
    ensures EdgeStroke(e, a, b).path.Line? && EdgeStroke(e, a, b).startArrow
    ensures EdgeStroke(e, a, b).path.from.y == a.y + 36.0 && EdgeStroke(e, a, b).path.to.y == b.y + 36.0
  {
  }
}
