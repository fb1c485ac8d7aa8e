/** The search bar: how a typed query is normalised into a course code, and
    what the `change` handlers of both builds do with it. */
module Query {
  import opened Text
  import opened Catalogue
  import G = Graphs
  import S = Search
  import L = LegacyGraphs
  import LS = LegacySearch

  /** Where a space goes into a query that has none: before its first digit,
      or, with no digit, `slice(0, -1)` and `slice(-1)` put it before the
      last character. */
  function SpacePoint(q: string): (k: nat)
    ensures k <= |q|
  {
    var index := FirstDigit(q);
    if index >= 0 then index else if q == [] then 0 else |q| - 1
  }

  /** `query.slice(0, index) + " " + query.slice(index)` for
      `index = query.search(/\d/)`, applied only when the query has no space. */
  function Spaced(q: string): (r: string)
    ensures Contains(q, " ") ==> r == q
    ensures !Contains(q, " ") ==> r == q[..SpacePoint(q)] + " " + q[SpacePoint(q)..]
  {
    if Contains(q, " ") then q
    else
      var index := FirstDigit(q);
      Slice(q, 0, index) + " " + Slice(q, index, |q|)
  }

  /** A spaced query always has a space. */
  lemma SpacedHasSpace(q: string)
    ensures Contains(Spaced(q), " ")
  {
    if !Contains(q, " ") {
      var k := SpacePoint(q);
      var r := Spaced(q);
      assert r[k] == ' ';
      OccursChar(r, ' ', k);
    }
  }

  /** Without a space, dropping the inserted one gives the query back. */
  lemma SpacedInsertsOne(q: string)
    requires !Contains(q, " ")
    ensures exists k :: 0 <= k <= |q| && Spaced(q) == q[..k] + " " + q[k..] && q[..k] + q[k..] == q
  {
    var k := SpacePoint(q);
    assert q[..k] + q[k..] == q;
  }

  /** A word with neither spaces nor digits, then a digit and no space:
      the space goes before the digit, so "CMPUT174" becomes "CMPUT 174". */
  lemma SpacedAtDigit(a: string, b: string)
    requires forall i :: 0 <= i < |a| ==> a[i] != ' ' && !IsDigit(a[i])
    requires b != [] && IsDigit(b[0]) && forall i :: 0 <= i < |b| ==> b[i] != ' '
    ensures Spaced(a + b) == a + " " + b
  {
    var q := a + b;
    NoSpace(q);
    assert q[|a|] == b[0];
    assert FirstDigit(q) == |a|;
    assert q[..|a|] == a && q[|a|..] == b;
  }

  /** A query with neither a space nor a digit is split before its last
      character: "CMPUT" becomes "CMPU T". */
  lemma SpacedNoDigit(q: string)
    requires q != [] && forall i :: 0 <= i < |q| ==> q[i] != ' ' && !IsDigit(q[i])
    ensures Spaced(q) == q[..|q| - 1] + " " + [q[|q| - 1]]
  {
    NoSpace(q);
    assert q[|q| - 1..] == [q[|q| - 1]];
  }

  lemma NoSpace(q: string)
    requires forall i :: 0 <= i < |q| ==> q[i] != ' '
    ensures !Contains(q, " ")
  {
    forall i | 0 <= i <= |q| ensures !OccursAt(q, " ", i) {
      OccursChar(q, ' ', i);
    }
  }

  /** The query of the TypeScript build: upper-cased and trimmed. */
  function Normalised(value: string): string {
    Trim(Upper(value))
  }

  /** The normalised query neither starts nor ends with white space and
      has no lower-case letter left. */
  lemma NormalisedShape(value: string)
    ensures var q := Normalised(value);
      (q == [] || (!IsSpace(q[0]) && !IsSpace(q[|q| - 1]))) &&
      forall j :: 0 <= j < |q| ==> !('a' <= q[j] <= 'z')
  {
    var q := Trim(Upper(value));
    var i :| InfixAt(Upper(value), q, i);
    UpperInfix(value, q, i);
  }

  /** Every piece of an upper-cased string is free of lower-case letters. */
  lemma UpperInfix(value: string, q: string, i: int)
    requires InfixAt(Upper(value), q, i)
    ensures forall j :: 0 <= j < |q| ==> !('a' <= q[j] <= 'z')
  {
    var u := Upper(value);
    forall j | 0 <= j < |q| ensures !('a' <= q[j] <= 'z') {
      assert q[j] == u[i + j];
    }
  }

  const AlreadyInGraph: string := "Course is already in graph"
  const NotFound: string := "Course not found"

  /** The search bar's text field and the snackbar beside it: the typed
      value, the input's placeholder, whether the field is marked invalid,
      the snackbar's label and whether it has been opened. */
  datatype Bar = Bar(value: string, placeholder: string, invalid: bool, notice: string, noticeOpen: bool)

  /** The `change` handler of the TypeScript build. A course already in the
      graph is refused before any space is inserted; an empty query does
      nothing; otherwise the spaced query is searched, and the field is
      cleared when it is found and marked invalid, with a notice, when not. */
  method Change(g: G.Graph, bar: Bar, courses: Dataset, x0: real, colors: nat -> string, view: G.View)
    returns (after: Bar, searched: bool, found: bool)
    requires g.Valid()
    modifies g, g.vertexes.Values
    ensures g.Valid()
    ensures searched <==> Normalised(bar.value) !in old(g.vertexes) && Normalised(bar.value) != []
    ensures Normalised(bar.value) in old(g.vertexes) ==>
      after == bar.(invalid := true, notice := AlreadyInGraph, noticeOpen := true)
    ensures !searched ==> !found && g.vertexes == old(g.vertexes) && g.edges == old(g.edges)
    ensures !searched ==> unchanged(g) && forall v :: v in old(g.vertexes).Values ==> unchanged(v)
    ensures searched && !found ==> g.vertexes == old(g.vertexes)
    ensures searched && !found ==> unchanged(g`scale, g`translate, g`dimensions, g`draggable, g`offset)
    ensures searched && !found ==> forall v :: v in old(g.vertexes).Values ==> unchanged(v)
    ensures !searched && Normalised(bar.value) !in old(g.vertexes) ==> after == bar
    ensures searched ==> (found <==> S.FrameResolves(courses, S.Root(Spaced(Normalised(bar.value)), x0)))
    ensures searched && found ==> after == bar.(value := "", placeholder := "", invalid := false)
    ensures searched && !found ==> after == bar.(invalid := true, notice := NotFound, noticeOpen := true)
  {
    var query := Normalised(bar.value);
    after, searched, found := bar, false, false;
    if g.IsFound(query) {
      after := after.(invalid := true, notice := AlreadyInGraph, noticeOpen := true);
      return;
    }
    if |query| > 0 {
      searched := true;
      after, found := Lookup(g, bar, Spaced(query), courses, x0, colors, view);
    }
  }

  /** Searching the spaced code and settling the bar on the outcome. */
  method Lookup(g: G.Graph, bar: Bar, code: string, courses: Dataset, x0: real, colors: nat -> string, view: G.View)
    returns (after: Bar, found: bool)
    requires g.Valid()
    modifies g, g.vertexes.Values
    ensures g.Valid()
    ensures found <==> S.FrameResolves(courses, S.Root(code, x0))
    ensures found ==> S.RootCode(code, x0) in g.vertexes
    ensures found ==> after == bar.(value := "", placeholder := "", invalid := false)
    ensures !found ==> after == bar.(invalid := true, notice := NotFound, noticeOpen := true)
    ensures !found ==> g.vertexes == old(g.vertexes) && g.edges == G.Swept(old(g.edges), g.vertexes.Keys)
    ensures !found ==> unchanged(g`scale, g`translate, g`dimensions, g`draggable, g`offset)
    ensures !found ==> forall v :: v in old(g.vertexes).Values ==> unchanged(v)
  {
    ghost var pops;
    found, pops := S.Search(g, code, courses, x0, colors, view);
    if found {
      after := bar.(placeholder := "", invalid := false, value := "");
    } else {
      after := bar.(invalid := true, notice := NotFound, noticeOpen := true);
    }
  }

  /** The `change` handler of the older build: the query is upper-cased
      but neither trimmed nor checked against the graph, spaced, and
      searched; the field is cleared when it is found and marked invalid
      when not. This build has no snackbar. */
  method LegacyChange(g: L.Graph, bar: Bar, courses: Dataset, env: LS.Env, x0: real, colors: nat -> string, view: G.View)
    returns (after: Bar, found: bool)
    requires g.Valid()
    modifies g, g.vertexes.Values
    ensures g.Valid()
    ensures found <==> LS.Named(courses, Split(Spaced(Upper(bar.value)), " "))
    ensures found ==> LS.CodeOf(LS.Root(Spaced(Upper(bar.value)), x0)) in g.vertexes
    ensures found ==> after == bar.(value := "", placeholder := "", invalid := false)
    ensures !found ==> after == bar.(invalid := true) && g.vertexes == old(g.vertexes)
    ensures !found ==> forall v :: v in old(g.vertexes).Values ==> unchanged(v)
  {
    var query := Upper(bar.value);
    if !Contains(query, " ") {
      var index := FirstDigit(query);
      query := Slice(query, 0, index) + " " + Slice(query, index, |query|);
    }
    ghost var pops;
    found, pops := LS.Search(g, query, courses, env, x0, colors, view);
    if found {
      after := bar.(value := "", placeholder := "", invalid := false);
    } else {
      after := bar.(invalid := true);
    }
  }

  /** Whether the delete button matters: the `graph:change` handler shows
      it exactly when the graph has a card, and a click opens the
      confirmation dialog only then. */
  function HasCards(g: G.Graph): (shown: bool)
    reads g
    ensures shown <==> g.vertexes != map[]
  {
    g.Size() != 0
  }

  /** The dialog closing: the "discard" action clears the graph, any other
      action leaves it as it is. */
  method DialogClosing(g: G.Graph, action: string, view: G.View)
    requires g.Valid()
    modifies g
    ensures g.Valid()
    ensures action == "discard" ==> g.vertexes == map[] && g.edges == map[]
    ensures action != "discard" ==> g.vertexes == old(g.vertexes) && g.edges == old(g.edges)
    ensures g.dimensions.Encloses(old(g.dimensions))
    ensures action != "discard" ==> g.dimensions == old(g.dimensions)
    ensures g.scale == old(g.scale) && g.translate == old(g.translate)
    ensures g.draggable == old(g.draggable) && g.offset == old(g.offset)
  {
    if action == "discard" {
      g.Clear(view);
    }
  }

  /** The delete button of the older build: with a card on the graph and
      the confirmation accepted, the graph is cleared; otherwise nothing
      happens. */
  method LegacyDelete(g: L.Graph, confirmed: bool, view: G.View)
    requires g.Valid()
    modifies g
    ensures g.Valid()
    ensures old(g.vertexes) != map[] && confirmed ==> g.vertexes == map[] && g.edges == map[]
    ensures old(g.vertexes) == map[] || !confirmed ==> g.vertexes == old(g.vertexes) && g.edges == old(g.edges)
  {
    if g.Size() == 0 {
      return;
    }
    if confirmed {
      g.Clear(view);
    }
  }
}
