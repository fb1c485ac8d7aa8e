/** The graph store of the older JavaScript build (`graph.js`): the same
    vertex map and edge multimap as the TypeScript build, without a bounding
    box, panning or zooming. A card's `remove` does not redraw, so the edges
    that touched it stay in their buckets until the next `draw`. */
module LegacyGraphs {
  import opened Text
  import opened Edges
  import opened Graphs

  /** The code with every space turned into a slash. */
  function Slashed(s: string): (r: string)
    ensures |r| == |s|
    ensures forall i :: 0 <= i < |s| ==> r[i] == (if s[i] == ' ' then '/' else s[i])
  {
    seq(|s|, i requires 0 <= i < |s| => if s[i] == ' ' then '/' else s[i])
  }

  /** The catalogue link of a card: `code.split(' ').join('/')`. */
  function LinkPath(code: string): string {
    Join(Split(code, " "), "/")
  }

  /** Splitting on spaces and joining with slashes replaces every space, not
      only the first. */
  lemma {:induction false} LinkPathSlashed(code: string)
    ensures LinkPath(code) == Slashed(code)
    decreases |code|
  {
    var k := IndexOf(code, " ", 0);
    if k == -1 {
      forall i | 0 <= i < |code| ensures code[i] != ' ' {
        assert !OccursAt(code, " ", i);
        assert code[i..i + 1] == [code[i]];
      }
      assert Slashed(code) == code;
    } else {
      var head, rest := code[..k], code[k + 1..];
      var tail := Split(rest, " ");
      assert Split(code, " ") == [head] + tail;
      assert ([head] + tail)[1..] == tail;
      assert LinkPath(code) == head + "/" + LinkPath(rest);
      LinkPathSlashed(rest);
      forall i | 0 <= i < k ensures code[i] != ' ' {
        assert !OccursAt(code, " ", i);
        assert code[i..i + 1] == [code[i]];
      }
      assert code[k..k + 1] == " ";
      var r := head + "/" + Slashed(rest);
      forall i | 0 <= i < |code| ensures r[i] == Slashed(code)[i] {
        if i > k {
          assert r[i] == Slashed(rest)[i - k - 1] && rest[i - k - 1] == code[i];
        }
      }
    }
  }

  /** "ART HISTORY 101" links to "ART/HISTORY/101". */
  lemma LinkPathArtHistory()
    ensures LinkPath("ART HISTORY 101") == "ART/HISTORY/101"
  {
    var code, want := "ART HISTORY 101", "ART/HISTORY/101";
    var r := Slashed(code);
    assert code[3] == ' ' && code[11] == ' ';
    assert forall i :: 0 <= i < |code| && i != 3 && i != 11 ==> code[i] != ' ' && code[i] == want[i];
    assert r == want;
    LinkPathSlashed(code);
  }

  /** One course card of the older build; (x, y) is the card's layout
      position, set when it is created and while it is dragged. */
  class Vertex {
    const id: string
    const name: string
    var x: real
    var y: real
    var draggable: bool
    var offset: (real, real)
    var graph: Graph?

    /** `new Vertex(course, x, y)`. */
    constructor (code: string, name: string, x: real, y: real)
      ensures id == code && this.name == name && this.x == x && this.y == y
      ensures !draggable && offset == (0.0, 0.0) && graph == null
    {
      id, this.name := code, name;
      this.x, this.y := x, y;
      draggable, offset, graph := false, (0.0, 0.0), null;
    }

    /** A press on the card: start dragging, remembering the card's position
        relative to the mouse. */
    method MouseDown(clientX: real, clientY: real)
      modifies this`draggable, this`offset
      ensures draggable && offset == (x - clientX, y - clientY)
    {
      draggable := true;
      offset := (x - clientX, y - clientY);
    }

    /** While dragging, the card sits at the mouse plus the offset; this
        handler does not redraw. */
    method MouseMove(clientX: real, clientY: real)
      modifies this`x, this`y
      ensures draggable ==> x == clientX + offset.0 && y == clientY + offset.1
      ensures !draggable ==> x == old(x) && y == old(y)
    {
      if draggable {
        x := clientX + offset.0;
        y := clientY + offset.1;
      }
    }

    method MouseUp()
      modifies this`draggable
      ensures !draggable
    {
      draggable := false;
    }

    /** The delete button: remove this card's id from its graph and touch
        nothing else, not even the edges. */
    method Remove()
      requires graph != null ==> graph.Valid()
      modifies graph
      ensures graph != null ==> graph.Valid()
      ensures graph != null ==> graph.vertexes == old(graph.vertexes) - {id} && graph.edges == old(graph.edges)
    {
      if graph != null {
        graph.vertexes := graph.vertexes - {id};
      }
    }
  }

  /** Dragging a card moves it by exactly the mouse's displacement since
      the press. */
  method DragDisplacement(v: Vertex, pressX: real, pressY: real, moveX: real, moveY: real)
    modifies v
    ensures v.x == old(v.x) + (moveX - pressX) && v.y == old(v.y) + (moveY - pressY)
  {
    v.MouseDown(pressX, pressY);
    v.MouseMove(moveX, moveY);
  }

  /** Removing a card leaves its edges dangling; the next draw drops them. */
  method RemoveThenDraw(v: Vertex, view: View)
    requires v.graph != null && v.graph.Valid()
    modifies v.graph
    ensures v.graph.vertexes == old(v.graph.vertexes) - {v.id}
    ensures v.graph.edges == Swept(old(v.graph.edges), v.graph.vertexes.Keys)
    ensures forall k, e :: k in v.graph.edges && e in v.graph.edges[k] ==> e.u != v.id && e.v != v.id
  {
    var g := v.graph;
    ghost var e0 := g.edges;
    v.Remove();
    assert g.edges == e0;
    var _, _, _ := g.Draw(view);
    SweptDropsRemoved(e0, g.vertexes.Keys, v.id);
  }

  /** A mouse move anywhere on the page. The graph's `draw` listener,
      registered when the graph is built, runs before the handler a card
      registers when pressed; so the edges are swept and stroked with the
      positions from before the move, and then a dragged card moves. */
  method DocumentMouseMove(g: Graph, v: Vertex, clientX: real, clientY: real, view: View)
    returns (drawn: seq<Edge>, strokes: seq<Stroke>)
    requires g.Valid()
    modifies g`edges, v`x, v`y
    ensures g.Valid() && g.vertexes == old(g.vertexes)
    ensures g.edges == Swept(old(g.edges), g.vertexes.Keys)
    ensures AllLive(g.vertexes.Keys, drawn) && strokes == StrokesOf(old(g.Cards(view)), drawn)
    ensures v.draggable ==> v.x == clientX + v.offset.0 && v.y == clientY + v.offset.1
    ensures !v.draggable ==> v.x == old(v.x) && v.y == old(v.y)
  {
    var order;
    drawn, strokes, order := g.Draw(view);
    v.MouseMove(clientX, clientY);
  }

  class Graph {
    var vertexes: map<string, Vertex>
    var edges: map<string, seq<Edge>>

    /** Keys name their vertices, which point back at this graph, and each
        edge sits in the bucket of its source. */
    ghost predicate Valid()
      reads this, vertexes.Values
    {
      && (forall k :: k in vertexes ==> vertexes[k].id == k && vertexes[k].graph == this)
      && Keyed(edges)
    }

    constructor ()
      ensures Valid() && vertexes == map[] && edges == map[]
    {
      vertexes, edges := map[], map[];
    }

    /** `size` of the older build (graph.js), the same as in the TypeScript
        build's `Graphs.Graph.Size`. */
    function Size(): (n: nat)
      reads this
      ensures n == |vertexes.Keys|
    {
      |vertexes|
    }

    /** `addVertex`: the entry for `v.id` becomes `v`, and `v` points back at
        this graph. */
    method AddVertex(v: Vertex)
      requires Valid()
      modifies this`vertexes, v`graph
      ensures Valid()
      ensures vertexes == old(vertexes)[v.id := v] && v.graph == this
    {
      vertexes := vertexes[v.id := v];
      v.graph := this;
    }

    /** `addEdge`: the edge joins the end of its source's bucket. */
    method AddEdge(e: Edge)
      requires Valid()
      modifies this`edges
      ensures Valid()
      ensures edges == old(edges)[e.u := Bucket(old(edges), e.u) + [e]]
    {
      if e.u !in edges {
        edges := edges[e.u := []];
      }
      edges := edges[e.u := edges[e.u] + [e]];
    }

    /** Where each card is drawn, in page coordinates: graph.js computes it
        as the TypeScript build's `Graphs.Graph.Cards` does. */
    function Cards(view: View): (r: map<string, Point>)
      reads this`vertexes, vertexes.Values
      ensures r.Keys == vertexes.Keys
    {
      map id | id in vertexes :: view.PageOf(vertexes[id].x, vertexes[id].y)
    }

    /** `draw`: strokes every live edge and deletes every dangling one. */
    method Draw(view: View) returns (drawn: seq<Edge>, strokes: seq<Stroke>, order: seq<string>)
      requires Valid()
      modifies this`edges
      ensures Valid() && vertexes == old(vertexes)
      ensures edges == Swept(old(edges), vertexes.Keys)
      ensures Enumerates(order, edges.Keys)
      ensures drawn == Drawn(edges, order)
      ensures AllLive(vertexes.Keys, drawn) && strokes == StrokesOf(Cards(view), drawn)
    {
      var swept;
      var cards := Cards(view);
      swept, drawn, strokes, order := SweepAll(edges, cards);
      SweepSpecSwept(vertexes.Keys, edges, order);
      SweptKeyed(edges, vertexes.Keys);
      edges := swept;
      assert Cards(view) == cards;
    }

    /** `clear`: every card removes itself, the edges are dropped, and the
        empty graph is drawn. */
    method Clear(view: View)
      requires Valid()
      modifies this
      ensures Valid()
      ensures vertexes == map[] && edges == map[] && Size() == 0
    {
      while vertexes != map[]
        invariant Valid()
        decreases |vertexes|
      {
        var k :| k in vertexes;
        var v := vertexes[k];
        v.Remove();
      }
      edges := map[];
      var _, _, _ := Draw(view);
    }
  }
}
