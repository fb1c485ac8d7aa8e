/** The graph store of the TypeScript build: a `Graph` owning a map from
    course code to `Vertex` and a multimap from source code to the edges
    leaving it, with the pan and zoom state of the viewport; and the
    draggable `Vertex` cards. */
module Graphs {
  import opened Text
  import opened Util
  import opened Edges

  /** Where the page shows the vertex layer: a card whose layout position
      (`offsetLeft`, `offsetTop`) is (x, y) has its bounding rectangle's
      top-left corner at (scale * x + dx, scale * y + dy) in the window, and
      at that point plus the scroll offsets on the page. CSS translations
      and scalings are affine, so this covers every transform the program
      sets; the values themselves come from the browser. */
  datatype View = View(scale: real, dx: real, dy: real, scrollX: real, scrollY: real) {
    function ClientLeft(x: real): real { scale * x + dx }
    function ClientTop(y: real): real { scale * y + dy }
    function PageOf(x: real, y: real): Point { Point(ClientLeft(x) + scrollX, ClientTop(y) + scrollY) }
  }

  /** The smallest box seen so far, as `[top, right, bottom, left]`. */
  datatype Box = Box(top: real, right: real, bottom: real, left: real) {
    function Width(): real { right - left }
    function Height(): real { bottom - top }
    predicate Holds(x: real, y: real) { left <= x <= right && top <= y <= bottom }
    predicate Encloses(b: Box) { top <= b.top && right >= b.right && bottom >= b.bottom && left <= b.left }

    /** The box pushed out just far enough to hold (x, y): each side moves
        only when the point lies beyond it, and then to the point. */
    function Grow(x: real, y: real): (r: Box)
      ensures r.Encloses(this) && r.Holds(x, y)
      ensures r.top == (if y < top then y else top) && r.right == (if x > right then x else right)
      ensures r.bottom == (if y > bottom then y else bottom) && r.left == (if x < left then x else left)
    {
      var t := if y < top then y else top;
      var r := if x > right then x else right;
      var b := if y > bottom then y else bottom;
      var l := if x < left then x else left;
      Box(t, r, b, l)
    }
  }

  /** The loop of `calculate_dim` over the positions `pts`: the box only
      grows, ends up holding every position, and each side that moved rests
      on some position. */
  method Fit(b: Box, pts: map<string, Point>) returns (d: Box)
    requires b.top <= b.bottom && b.left <= b.right
    ensures d.top <= d.bottom && d.left <= d.right
    ensures d.Encloses(b)
    ensures forall k :: k in pts ==> d.Holds(pts[k].x, pts[k].y)
    ensures d.top == b.top || exists k :: k in pts && pts[k].y == d.top
    ensures d.right == b.right || exists k :: k in pts && pts[k].x == d.right
    ensures d.bottom == b.bottom || exists k :: k in pts && pts[k].y == d.bottom
    ensures d.left == b.left || exists k :: k in pts && pts[k].x == d.left
  {
    d := b;
    var todo := pts.Keys;
    // the positions that last moved each side, when one did
    ghost var top, right, bottom, left := "", "", "", "";
    while todo != {}
      invariant todo <= pts.Keys
      invariant d.Encloses(b)
      invariant d.top <= d.bottom && d.left <= d.right
      invariant forall k :: k in pts && k !in todo ==> d.Holds(pts[k].x, pts[k].y)
      invariant d.top == b.top || (top in pts && pts[top].y == d.top)
      invariant d.right == b.right || (right in pts && pts[right].x == d.right)
      invariant d.bottom == b.bottom || (bottom in pts && pts[bottom].y == d.bottom)
      invariant d.left == b.left || (left in pts && pts[left].x == d.left)
      decreases todo
    {
      var k :| k in todo;
      var p := pts[k];
      if p.y < d.top { top := k; }
      if p.x > d.right { right := k; }
      if p.y > d.bottom { bottom := k; }
      if p.x < d.left { left := k; }
      d := d.Grow(p.x, p.y);
      todo := todo - {k};
    }
  }

  /** A bucket of the edge multimap, empty when the key is missing. */
  function Bucket(edges: map<string, seq<Edge>>, u: string): seq<Edge> {
    if u in edges then edges[u] else []
  }

  /** The edge multimap after a draw pass over vertices `ids`: every bucket
      keeps its key and loses exactly its dangling edges. */
  function Swept(edges: map<string, seq<Edge>>, ids: set<string>): (r: map<string, seq<Edge>>)
    ensures r.Keys == edges.Keys
    ensures forall k, e :: k in r && e in r[k] ==> IsLive(ids, e) && e in edges[k]
    ensures forall k, e :: k in edges && e in edges[k] && IsLive(ids, e) ==> e in r[k]
  {
    forall k | k in edges ensures forall e :: e in LiveEdges(ids, edges[k]) <==> e in edges[k] && IsLive(ids, e) {
      LiveEdgesMembers(ids, edges[k]);
    }
    map k | k in edges :: LiveEdges(ids, edges[k])
  }

  /** Every edge sits in the bucket of its source. */
  predicate Keyed(edges: map<string, seq<Edge>>) {
    forall k, e :: k in edges && e in edges[k] ==> e.u == k
  }

  lemma SweptKeyed(edges: map<string, seq<Edge>>, ids: set<string>)
    requires Keyed(edges)
    ensures Keyed(Swept(edges, ids))
  {
    forall k, e | k in Swept(edges, ids) && e in Swept(edges, ids)[k] ensures e.u == k {
      LiveEdgesMembers(ids, edges[k]);
    }
  }

  /** After a pass no edge touches a course that is not a vertex. */
  lemma SweptDropsRemoved(edges: map<string, seq<Edge>>, ids: set<string>, gone: string)
    requires gone !in ids
    ensures forall k, e :: k in Swept(edges, ids) && e in Swept(edges, ids)[k] ==> e.u != gone && e.v != gone
  {
    var swept := Swept(edges, ids);
    forall k: string, e: Edge | k in swept && e in swept[k] ensures e.u != gone && e.v != gone {
      assert IsLive(ids, e);
    }
  }

  /** A second pass over the same vertices changes nothing. */
  lemma SweptIdempotent(edges: map<string, seq<Edge>>, ids: set<string>)
    ensures Swept(Swept(edges, ids), ids) == Swept(edges, ids)
  {
    forall k | k in edges ensures LiveEdges(ids, LiveEdges(ids, edges[k])) == LiveEdges(ids, edges[k]) {
      LiveEdgesIdempotent(ids, edges[k]);
    }
  }

  /** Appending one edge to a bucket keeps every earlier live edge and adds
      the new one when it is live. */
  lemma {:induction false} LiveEdgesSnoc(ids: set<string>, bucket: seq<Edge>, e: Edge)
    ensures LiveEdges(ids, bucket + [e]) == LiveEdges(ids, bucket) + (if IsLive(ids, e) then [e] else [])
  {
    if bucket == [] {
      assert bucket + [e] == [e];
    } else {
      var t := bucket + [e];
      assert t[0] == bucket[0] && t[1..] == bucket[1..] + [e];
      LiveEdgesSnoc(ids, bucket[1..], e);
    }
  }

  predicate AllLive(ids: set<string>, es: seq<Edge>) {
    forall i :: 0 <= i < |es| ==> IsLive(ids, es[i])
  }

  lemma AllLiveAppend(ids: set<string>, a: seq<Edge>, b: seq<Edge>)
    requires AllLive(ids, a) && AllLive(ids, b)
    ensures AllLive(ids, a + b)
  {
    forall i | 0 <= i < |a + b| ensures IsLive(ids, (a + b)[i]) {
      if i >= |a| {
        assert (a + b)[i] == b[i - |a|];
      }
    }
  }

  /** The stroke of a live edge between the cards of its two ends. */
  function StrokeOf(cards: map<string, Point>, e: Edge): Stroke
    requires IsLive(cards.Keys, e)
  {
    EdgeStroke(e, cards[e.u], cards[e.v])
  }

  /** The strokes of a run of live edges, in order. */
  function StrokesOf(cards: map<string, Point>, es: seq<Edge>): (r: seq<Stroke>)
    requires AllLive(cards.Keys, es)
    ensures |r| == |es|
  {
    if es == [] then [] else StrokesOf(cards, es[..|es| - 1]) + [StrokeOf(cards, es[|es| - 1])]
  }

  /** Each edge of the run gets the stroke of its own two cards. */
  lemma {:induction false} StrokesOfEach(cards: map<string, Point>, es: seq<Edge>)
    requires AllLive(cards.Keys, es)
    ensures forall i :: 0 <= i < |es| ==> StrokesOf(cards, es)[i] == StrokeOf(cards, es[i])
  {
    if es != [] {
      StrokesOfEach(cards, es[..|es| - 1]);
    }
  }

  lemma {:induction false} StrokesOfAppend(cards: map<string, Point>, a: seq<Edge>, b: seq<Edge>)
    requires AllLive(cards.Keys, a) && AllLive(cards.Keys, b)
    ensures AllLive(cards.Keys, a + b)
    ensures StrokesOf(cards, a + b) == StrokesOf(cards, a) + StrokesOf(cards, b)
  {
    AllLiveAppend(cards.Keys, a, b);
    if b != [] {
      var n := |b| - 1;
      var front := b[..n];
      AllLiveAppend(cards.Keys, a, front);
      StrokesOfAppend(cards, a, front);
      var ab := a + b;
      assert ab[..|ab| - 1] == a + front;
      assert ab[|ab| - 1] == b[n];
    } else {
      assert a + b == a;
    }
  }

  /** One bucket of a draw pass over the cards at `cards`: the edges whose
      ends are both vertices, in bucket order, each with its stroke; the
      others are dropped. */
  method Sweep(cards: map<string, Point>, bucket: seq<Edge>) returns (kept: seq<Edge>, strokes: seq<Stroke>)
    ensures kept == LiveEdges(cards.Keys, bucket)
    ensures AllLive(cards.Keys, kept) && strokes == StrokesOf(cards, kept)
  {
    kept, strokes := [], [];
    var j := 0;
    while j < |bucket|
      invariant 0 <= j <= |bucket|
      invariant kept == LiveEdges(cards.Keys, bucket[..j])
      invariant AllLive(cards.Keys, kept) && strokes == StrokesOf(cards, kept)
    {
      var e := bucket[j];
      LiveEdgesSnoc(cards.Keys, bucket[..j], e);
      assert bucket[..j + 1] == bucket[..j] + [e];
      if e.u in cards && e.v in cards {
        strokes := strokes + [EdgeStroke(e, cards[e.u], cards[e.v])];
        assert (kept + [e])[..|kept|] == kept;
        kept := kept + [e];
      }
      j := j + 1;
    }
    assert bucket[..|bucket|] == bucket;
  }

  /** The loop of `draw`: every bucket, in the order the map lists its
      keys, loses its dangling edges, and every surviving edge is stroked. */
  method SweepAll(edges: map<string, seq<Edge>>, cards: map<string, Point>)
    returns (swept: map<string, seq<Edge>>, drawn: seq<Edge>, strokes: seq<Stroke>, order: seq<string>)
    ensures Enumerates(order, edges.Keys)
    ensures (swept, drawn) == SweepSpec(cards.Keys, edges, order)
    ensures AllLive(cards.Keys, drawn) && strokes == StrokesOf(cards, drawn)
  {
    order := KeyOrder(edges);
    swept, drawn, strokes := map[], [], [];
    var j := 0;
    while j < |order|
      invariant 0 <= j <= |order|
      invariant (swept, drawn) == SweepSpec(cards.Keys, edges, order[..j])
      invariant AllLive(cards.Keys, drawn) && strokes == StrokesOf(cards, drawn)
    {
      var k := order[j];
      var kept, ss := Sweep(cards, edges[k]);
      StrokesOfAppend(cards, drawn, kept);
      assert order[..j + 1][..j] == order[..j];
      swept, drawn, strokes := swept[k := kept], drawn + kept, strokes + ss;
      j := j + 1;
    }
    assert order[..|order|] == order;
  }

  /** The edges a draw pass strokes when it visits the buckets in `order`. */
  function Drawn(m: map<string, seq<Edge>>, order: seq<string>): seq<Edge>
    requires forall i :: 0 <= i < |order| ==> order[i] in m
  {
    if order == [] then [] else Drawn(m, order[..|order| - 1]) + m[order[|order| - 1]]
  }

  /** `order` lists every key of `keys` exactly once. */
  predicate Enumerates(order: seq<string>, keys: set<string>) {
    && (forall i :: 0 <= i < |order| ==> order[i] in keys)
    && (forall k :: k in keys ==> k in order)
    && (forall i, j :: 0 <= i < j < |order| ==> order[i] != order[j])
  }

  /** The keys of a map in iteration order (JavaScript's insertion order,
      which the model does not track: any order that lists each key once). */
  method KeyOrder(m: map<string, seq<Edge>>) returns (order: seq<string>)
    ensures Enumerates(order, m.Keys)
  {
    var todo := m.Keys;
    order := [];
    while todo != {}
      invariant todo <= m.Keys
      invariant forall i :: 0 <= i < |order| ==> order[i] in m && order[i] !in todo
      invariant forall k :: k in m && k !in todo ==> k in order
      invariant forall i, j :: 0 <= i < j < |order| ==> order[i] != order[j]
      decreases todo
    {
      var k :| k in todo;
      order := order + [k];
      todo := todo - {k};
    }
  }

  /** What a draw pass has swept and drawn after visiting the buckets of
      `order`, in that order. */
  function SweepSpec(ids: set<string>, buckets: map<string, seq<Edge>>, order: seq<string>): (map<string, seq<Edge>>, seq<Edge>)
    requires forall i :: 0 <= i < |order| ==> order[i] in buckets
  {
    if order == [] then (map[], [])
    else
      var (m, d) := SweepSpec(ids, buckets, order[..|order| - 1]);
      var k := order[|order| - 1];
      (m[k := LiveEdges(ids, buckets[k])], d + LiveEdges(ids, buckets[k]))
  }

  /** Midway, the visited buckets are swept and drawn in visiting order. */
  lemma {:induction false} SweepSpecPrefix(ids: set<string>, buckets: map<string, seq<Edge>>, order: seq<string>)
    requires forall i :: 0 <= i < |order| ==> order[i] in buckets
    ensures forall k :: k in SweepSpec(ids, buckets, order).0 <==> k in order
    ensures forall k :: k in SweepSpec(ids, buckets, order).0 ==> SweepSpec(ids, buckets, order).0[k] == Swept(buckets, ids)[k]
    ensures SweepSpec(ids, buckets, order).1 == Drawn(Swept(buckets, ids), order)
  {
    if order != [] {
      var n := |order| - 1;
      var front, k := order[..n], order[n];
      SweepSpecPrefix(ids, buckets, front);
      var (m, d) := SweepSpec(ids, buckets, front);
      var live := LiveEdges(ids, buckets[k]);
      assert SweepSpec(ids, buckets, order) == (m[k := live], d + live);
      var swept := Swept(buckets, ids);
      assert swept[k] == live;
      assert Drawn(swept, order) == Drawn(swept, front) + swept[k];
      LastMembers(order);
    }
  }

  /** A key is in a list exactly when it is in all but the last, or last. */
  lemma LastMembers(order: seq<string>)
    requires order != []
    ensures forall k :: k in order <==> k in order[..|order| - 1] || k == order[|order| - 1]
  {
    var n := |order| - 1;
    assert order == order[..n] + [order[n]];
  }

  /** A pass that visits every bucket once sweeps all of them, and draws
      what is left in them, bucket by bucket in visiting order. */
  lemma SweepSpecSwept(ids: set<string>, buckets: map<string, seq<Edge>>, order: seq<string>)
    requires Enumerates(order, buckets.Keys)
    ensures SweepSpec(ids, buckets, order).0 == Swept(buckets, ids)
    ensures SweepSpec(ids, buckets, order).1 == Drawn(Swept(buckets, ids), order)
  {
    SweepSpecPrefix(ids, buckets, order);
  }

  /** An edge is drawn exactly when it is in one of the visited buckets. */
  lemma {:induction false} DrawnMembers(m: map<string, seq<Edge>>, order: seq<string>, e: Edge)
    requires forall i :: 0 <= i < |order| ==> order[i] in m
    ensures e in Drawn(m, order) <==> exists i :: 0 <= i < |order| && e in m[order[i]]
  {
    if order != [] {
      var n := |order| - 1;
      DrawnMembers(m, order[..n], e);
      if e in m[order[n]] {
        assert 0 <= n < |order| && e in m[order[n]];
      }
      if exists i :: 0 <= i < |order| && e in m[order[i]] {
        var i :| 0 <= i < |order| && e in m[order[i]];
        if i < n {
          assert order[..n][i] == order[i];
        }
      }
    }
  }

  /** A pass that visits every bucket draws every edge they hold. */
  lemma DrawnCovers(m: map<string, seq<Edge>>, order: seq<string>)
    requires forall i :: 0 <= i < |order| ==> order[i] in m
    requires forall k :: k in m ==> k in order
    ensures forall k, e :: k in m && e in m[k] ==> e in Drawn(m, order)
  {
    forall k, e | k in m && e in m[k] ensures e in Drawn(m, order) {
      var i :| 0 <= i < |order| && order[i] == k;
      DrawnMembers(m, order, e);
    }
  }

  /** The catalogue link of a card: `rsplit(code).join("/")` with its first
      space turned into "_". */
  function LinkPath(code: string): string {
    var (department, number) := RSplit(code);
    ReplaceFirst(department + "/" + number, " ", "_")
  }

  /** A code without a space is a bare number: the link is "/" and the code. */
  lemma LinkPathNoSpace(code: string)
    requires !Contains(code, " ")
    ensures LinkPath(code) == "/" + code
  {
    var s := "/" + code;
    assert RSplit(code) == ([], code);
    forall j ensures !OccursAt(s, " ", j) {
      if 1 <= j {
        OccursShift(s, " ", 1, j);
        assert s[1..] == code;
      } else if j == 0 && |s| >= 1 {
        assert s[0..1][0] == '/';
      }
    }
    assert [] + "/" + code == s;
  }

  /** A department with a space in it keeps only its first space replaced. */
  lemma LinkPathArtHistory()
    ensures LinkPath("ART HISTORY 101") == "ART_HISTORY/101"
  {
    RSplitArtHistory();
    var s := "ART HISTORY" + "/" + "101";
    assert OccursAt(s, " ", 3);
    assert forall i :: 0 <= i < 3 ==> !OccursAt(s, " ", i) by {
      assert s[0] == 'A' && s[1] == 'R' && s[2] == 'T';
    }
    assert IndexOf(s, " ", 0) == 3;
    assert s[..3] + "_" + s[4..] == "ART_HISTORY/101";
  }

  /** One course card. `id` and `courseCode` never change; (x, y) is the
      card's layout position; `graph` is the back-reference `addVertex` sets. */
  class Vertex {
    const id: string
    const courseCode: string
    const name: string
    var x: real
    var y: real
    var draggable: bool
    var offset: (real, real)
    var graph: Graph?

    /** `new Vertex({code, name}, x, y)`. */
    constructor (code: string, name: string, x: real, y: real)
      ensures id == code && courseCode == code && this.name == name
      ensures this.x == x && this.y == y
      ensures !draggable && offset == (0.0, 0.0) && graph == null
    {
      id, courseCode, this.name := code, code, name;
      this.x, this.y := x, y;
      draggable, offset, graph := false, (0.0, 0.0), null;
    }

    /** A press on the card: start dragging and remember where the card sits
        relative to the mouse. */
    method MouseDown(clientX: real, clientY: real)
      modifies this`draggable, this`offset
      ensures draggable && offset == (x - clientX, y - clientY)
    {
      draggable := true;
      offset := (x - clientX, y - clientY);
    }

    /** The mouse moves: while dragging, the card follows it at the
        remembered offset (in unscaled pixels, whatever the zoom) and the
        graph is redrawn; otherwise nothing happens. */
    method MouseMove(clientX: real, clientY: real, view: View)
      requires graph != null ==> graph.Valid()
      modifies this`x, this`y, graph
      ensures graph == old(graph)
      ensures old(draggable) ==> x == clientX + offset.0 && y == clientY + offset.1
      ensures !old(draggable) ==> x == old(x) && y == old(y) && (graph != null ==> unchanged(graph))
      ensures graph != null ==> graph.Valid() && graph.vertexes == old(graph.vertexes)
      ensures graph != null && old(draggable) ==> graph.edges == Swept(old(graph.edges), graph.vertexes.Keys)
      ensures graph != null ==> graph.dimensions == old(graph.dimensions)
      ensures graph != null ==> graph.scale == old(graph.scale) && graph.translate == old(graph.translate)
      ensures graph != null ==> graph.draggable == old(graph.draggable) && graph.offset == old(graph.offset)
    {
      if draggable {
        x := clientX + offset.0;
        y := clientY + offset.1;
        if graph != null {
          var _, _, _ := graph.Draw(view);
        }
      }
    }

    /** The press ends: stop dragging and let the graph grow its box. */
    method MouseUp()
      requires graph != null ==> graph.Valid()
      modifies this`draggable, graph
      ensures !draggable && graph == old(graph)
      ensures graph != null ==> graph.Valid() && graph.vertexes == old(graph.vertexes) && graph.edges == old(graph.edges)
      ensures graph != null ==> graph.dimensions.Encloses(old(graph.dimensions))
      ensures graph != null ==> forall k :: k in graph.vertexes ==> graph.dimensions.Holds(graph.vertexes[k].x, graph.vertexes[k].y)
      ensures graph != null ==> graph.scale == old(graph.scale) && graph.translate == old(graph.translate)
      ensures graph != null ==> graph.draggable == old(graph.draggable) && graph.offset == old(graph.offset)
    {
      draggable := false;
      if graph != null {
        graph.CalculateDim();
      }
    }

    /** The delete button: remove this card's id from its graph, and nothing
        else; the redraw that follows drops the edges that touched it. */
    method Remove(view: View)
      requires graph != null ==> graph.Valid()
      modifies graph
      ensures graph != null ==> graph.Valid()
      ensures graph != null ==> graph.vertexes == old(graph.vertexes) - {id}
      ensures graph != null ==> graph.edges == Swept(old(graph.edges), graph.vertexes.Keys)
      ensures graph != null ==> forall k, e :: k in graph.edges && e in graph.edges[k] ==> e.u != id && e.v != id
      ensures graph != null ==> graph.dimensions.Encloses(old(graph.dimensions))
      ensures graph != null ==> graph.scale == old(graph.scale) && graph.translate == old(graph.translate)
      ensures graph != null ==> graph.draggable == old(graph.draggable) && graph.offset == old(graph.offset)
      ensures graph == old(graph)
    {
      if graph != null {
        graph.Delete(id, view);
      }
    }
  }

  /** Dragging a card moves it by exactly the mouse's displacement since
      the press. */
  method DragDisplacement(v: Vertex, pressX: real, pressY: real, moveX: real, moveY: real, view: View)
    requires v.graph != null ==> v.graph.Valid()
    modifies v, v.graph
    ensures v.x == old(v.x) + (moveX - pressX) && v.y == old(v.y) + (moveY - pressY)
  {
    v.MouseDown(pressX, pressY);
    v.MouseMove(moveX, moveY, view);
  }

  /** Removing a card twice removes it once. */
  method RemoveTwice(v: Vertex, view: View)
    requires v.graph != null && v.graph.Valid()
    modifies v.graph
    ensures v.graph.vertexes == old(v.graph.vertexes) - {v.id}
  {
    v.Remove(view);
    v.Remove(view);
  }

  class Graph {
    var vertexes: map<string, Vertex>
    var edges: map<string, seq<Edge>>
    var scale: real
    var draggable: bool
    var offset: (real, real)
    var translate: (real, real)
    var dimensions: Box

    /** Keys name their vertices, which point back at this graph; each edge
        sits in the bucket of its source; the zoom is positive; the box is
        well formed and the pan stays within half its size of the origin. */
    ghost predicate Valid()
      reads this, vertexes.Values
    {
      && scale > 0.0
      && (forall k :: k in vertexes ==> vertexes[k].id == k && vertexes[k].graph == this)
      && Keyed(edges)
      && dimensions.top <= dimensions.bottom && dimensions.left <= dimensions.right
      && PanInBox(translate, dimensions)
    }

    static predicate PanInBox(t: (real, real), b: Box) {
      -b.Width() / 2.0 <= t.0 <= b.Width() / 2.0 && -b.Height() / 2.0 <= t.1 <= b.Height() / 2.0
    }

    constructor ()
      ensures Valid()
      ensures vertexes == map[] && edges == map[]
      ensures scale == 1.0 && !draggable && offset == (0.0, 0.0) && translate == (0.0, 0.0)
      ensures dimensions == Box(0.0, 0.0, 0.0, 0.0)
    {
      vertexes, edges := map[], map[];
      scale, draggable := 1.0, false;
      offset, translate := (0.0, 0.0), (0.0, 0.0);
      dimensions := Box(0.0, 0.0, 0.0, 0.0);
    }

    /** `size` */
    function Size(): (n: nat)
      reads this
      ensures n == |vertexes.Keys|
    {
      |vertexes|
    }

    /** `isFound(code)`: the course already has a card. */
    function IsFound(code: string): (b: bool)
      reads this
      ensures b <==> code in vertexes.Keys
    {
      code in vertexes
    }

    /** A press on the background starts panning from the press point. */
    method MouseDown(clientX: real, clientY: real)
      modifies this`draggable, this`offset
      ensures draggable && offset == (clientX, clientY)
    {
      draggable := true;
      offset := (clientX, clientY);
    }

    /** The pan target after a move: 5% of the displacement from the press
        point is added on each axis, then clamped into half the box. */
    static function PanStep(t: (real, real), press: (real, real), clientX: real, clientY: real, b: Box): (r: (real, real))
      requires b.left <= b.right && b.top <= b.bottom
      ensures PanInBox(r, b)
      ensures PanInBox((t.0 + (clientX - press.0) * 0.05, t.1 + (clientY - press.1) * 0.05), b) ==>
        r == (t.0 + (clientX - press.0) * 0.05, t.1 + (clientY - press.1) * 0.05)
    {
      (Bound(-b.Width() / 2.0, t.0 + (clientX - press.0) * 0.05, b.Width() / 2.0),
       Bound(-b.Height() / 2.0, t.1 + (clientY - press.1) * 0.05, b.Height() / 2.0))
    }

    /** The mouse moves: the pan changes only while the background is held. */
    method MouseMove(clientX: real, clientY: real)
      requires Valid()
      modifies this`translate
      ensures Valid()
      ensures old(draggable) ==> translate == PanStep(old(translate), offset, clientX, clientY, dimensions)
      ensures !old(draggable) ==> translate == old(translate)
    {
      if draggable {
        translate := PanStep(translate, offset, clientX, clientY, dimensions);
      }
    }

    method MouseUp()
      modifies this`draggable
      ensures !draggable
    {
      draggable := false;
    }

    /** What `remove` asks of the graph: delete the card's id, redraw and
        refit the bounding box. */
    method Delete(id: string, view: View)
      requires Valid()
      modifies this`vertexes, this`edges, this`dimensions
      ensures Valid()
      ensures vertexes == old(vertexes) - {id}
      ensures edges == Swept(old(edges), vertexes.Keys)
      ensures forall k, e :: k in edges && e in edges[k] ==> e.u != id && e.v != id
      ensures dimensions.Encloses(old(dimensions))
    {
      vertexes := vertexes - {id};
      var _, _, _ := Draw(view);
      ghost var vertexes1, edges1 := vertexes, edges;
      CalculateDim();
      assert vertexes == vertexes1 && edges == edges1;
      SweptDropsRemoved(old(edges), vertexes.Keys, id);
    }

    /** `calculate_dim`: grow the box until it holds every card's position. */
    method CalculateDim()
      requires Valid()
      modifies this`dimensions
      ensures Valid()
      ensures dimensions.Encloses(old(dimensions))
      ensures forall k :: k in vertexes ==> dimensions.Holds(vertexes[k].x, vertexes[k].y)
      ensures dimensions.top == old(dimensions.top) || exists k :: k in vertexes && vertexes[k].y == dimensions.top
      ensures dimensions.right == old(dimensions.right) || exists k :: k in vertexes && vertexes[k].x == dimensions.right
      ensures dimensions.bottom == old(dimensions.bottom) || exists k :: k in vertexes && vertexes[k].y == dimensions.bottom
      ensures dimensions.left == old(dimensions.left) || exists k :: k in vertexes && vertexes[k].x == dimensions.left
    {
      var pts := Positions();
      dimensions := Fit(dimensions, pts);
      assert forall k :: k in vertexes ==> pts[k] == Point(vertexes[k].x, vertexes[k].y);
    }

    /** The layout position of every card. */
    function Positions(): (r: map<string, Point>)
      reads this`vertexes, vertexes.Values
      ensures r.Keys == vertexes.Keys
    {
      map id | id in vertexes :: Point(vertexes[id].x, vertexes[id].y)
    }

    /** `clear`: every card removes itself, then the edge multimap is emptied. */
    method Clear(view: View)
      requires Valid()
      modifies this
      ensures Valid()
      ensures vertexes == map[] && edges == map[]
      ensures Size() == 0 && forall code :: !IsFound(code)
      ensures dimensions.Encloses(old(dimensions))
      ensures scale == old(scale) && translate == old(translate)
      ensures draggable == old(draggable) && offset == old(offset)
    {
      while vertexes != map[]
        invariant Valid()
        invariant dimensions.Encloses(old(dimensions))
        invariant scale == old(scale) && translate == old(translate)
        invariant draggable == old(draggable) && offset == old(offset)
        decreases |vertexes|
      {
        var k :| k in vertexes;
        var v := vertexes[k];
        v.Remove(view);
      }
      edges := map[];
      var _, _, _ := Draw(view);
    }

    /** A wheel step zooms out by 1% when `deltaY > 0` and in by 1% otherwise;
        nothing bounds the zoom. */
    method Wheel(deltaY: real, view: View)
      requires Valid()
      modifies this`scale, this`edges
      ensures Valid()
      ensures scale == old(scale) * ZoomFactor(deltaY)
      ensures edges == Swept(old(edges), vertexes.Keys)
    {
      scale := scale * ZoomFactor(deltaY);
      var _, _, _ := Draw(view);
    }

    static function ZoomFactor(deltaY: real): (f: real)
      ensures f > 0.0
      ensures deltaY > 0.0 <==> f < 1.0
    {
      if deltaY > 0.0 then 0.99 else 1.01
    }

    /** `addVertex`: the map entry for `v.id` becomes `v`, replacing any
        earlier card with that id, and `v` points back at this graph. */
    method AddVertex(v: Vertex)
      requires Valid()
      modifies this`vertexes, this`dimensions, v`graph
      ensures Valid()
      ensures vertexes == old(vertexes)[v.id := v] && v.graph == this
      ensures dimensions.Encloses(old(dimensions)) && dimensions.Holds(v.x, v.y)
    {
      vertexes := vertexes[v.id := v];
      v.graph := this;
      CalculateDim();
      assert vertexes[v.id] == v;
    }

    /** `addEdge`: the edge joins the end of its source's bucket, which is
        created when missing; every other bucket is left as it was. */
    method AddEdge(e: Edge)
      requires Valid()
      modifies this`edges
      ensures Valid()
      ensures edges == old(edges)[e.u := Bucket(old(edges), e.u) + [e]]
    {
      if e.u !in edges {
        edges := edges[e.u := []];
      }
      edges := edges[e.u := edges[e.u] + [e]];
    }

    /** Where each card is drawn, in page coordinates. */
    function Cards(view: View): (r: map<string, Point>)
      reads this`vertexes, vertexes.Values
      ensures r.Keys == vertexes.Keys
    {
      map id | id in vertexes :: view.PageOf(vertexes[id].x, vertexes[id].y)
    }

    /** `draw`: the swept buckets replace the old ones (the only place
        dangling edges are collected), and the strokes are the output. */
    method Draw(view: View) returns (drawn: seq<Edge>, strokes: seq<Stroke>, order: seq<string>)
      requires Valid()
      modifies this`edges
      ensures Valid()
      ensures edges == Swept(old(edges), vertexes.Keys)
      ensures Enumerates(order, edges.Keys)
      ensures drawn == Drawn(edges, order)
      ensures AllLive(vertexes.Keys, drawn) && strokes == StrokesOf(Cards(view), drawn)
    {
      var swept;
      var cards := Cards(view);
      swept, drawn, strokes, order := SweepAll(edges, cards);
      SweepSpecSwept(vertexes.Keys, edges, order);
      SweptKeyed(edges, vertexes.Keys);
      edges := swept;
      assert Cards(view) == cards;
    }
  }
}
