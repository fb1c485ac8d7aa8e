# Synapse: a verified model of the course-requisite explorer

Synapse draws the requisite graph of University of Alberta courses. A user
types a course code into a search bar. The explorer looks the course up in a
dataset that maps subject to number to course, adds one card per course
reached through prerequisites and corequisites, and joins each course to its
requisites with coloured edges. The dataset itself is built by a scraper
that reads the catalogue pages: it parses each card's requisite sentences
into lists of OR-sets of course codes, groups the cards by subject and
number, and logs the requisites it could not read. An older browser
extractor does the same from one catalogue page at a time.

This project models, in Dafny:

- the string primitives the program relies on (`Text`): `trim`, ASCII case
  mapping, `indexOf`, `lastIndexOf`, `substring`, `slice`, `split`, `join`,
  `replace` with a string pattern, and `search(/\d/)`;
- `rsplit` and `bound` (`Util`);
- the edge record and the geometry `draw` gives an edge (`Edges`);
- the dataset and the order in which `search` visits requisite lists after
  sorting them in place (`Catalogue`, `Sorting`);
- the graph store of the TypeScript build, as classes `Graph` and `Vertex`
  whose methods change the vertex map, the edge multimap, the drag and pan
  state, the zoom and the bounding box (`Graphs`), and that of the older
  JavaScript build (`LegacyGraphs`);
- the depth-first `search` of both builds, as methods with loops proved
  against recursive specification functions (`Search`, `LegacySearch`);
- the search bar's `change` handler of both builds, the delete button and
  the confirmation dialog (`Query`);
- the handful of regular expressions the parsers use, as explicit scanners
  (`Patterns`);
- the scraper's requisite parser, per-card parsing, grouping and error log
  (`Scraper`);
- the browser extractor: its requisite parser, its per-card records, and
  the key its records are stored under (`Extract`).

Randomness is a parameter: the first card's column is `x0`, and the colour
of the `n`-th OR-set is `colors(n)`. Page geometry is a parameter `View`, an
affine map from a card's layout position to where the page shows it. A
JavaScript `Map` or object is a Dafny `map`, and its iteration order is a
parameter: any sequence that lists each key once. The `.ts` and `.js`
extractors share their parsers, which appear once in the model; the rows
below cite one file or the other.

Where the code and its documentation differ, the model follows the code.
The extractor's `or` separator splits inside words. The scraper's error log
compares the lower-cased requisite with phrases that are not all in lower
case. The `replace(raw, "")` call with no prerequisite or corequisite
sentence replaces the literal text "undefined".

## Model

| member | source | states |
|---|---|---|
| Text.Upper | src/main.ts:50 | `toUpperCase` keeps the length and maps each character through the ASCII upper-case mapping |
| Text.Lower | scraper/scraper.ts:286 | `toLowerCase` keeps the length and maps each character through the ASCII lower-case mapping |
| Text.LowerHasNoUpper | scraper/scraper.ts:286 | a lower-cased string holds no upper-case ASCII letter |
| Text.TrimStart | src/main.ts:52 | the result is a suffix, starts with a non-space, and everything removed is white space |
| Text.TrimEnd | src/main.ts:52 | the result is a prefix, ends with a non-space, and everything removed is white space |
| Text.Trim | scraper/scraper.ts:135 | `trim` gives an infix that neither starts nor ends with white space, and everything before and after it is white space |
| Text.TrimAllSpace | scraper/scraper.ts:136 | a string of white space only trims to the empty string, which is what the length test skips |
| Text.TrimIdle | scraper/scraper.ts:135 | trimming an already trimmed token changes nothing |
| Text.IndexOf | scraper/scraper.ts:211 | `indexOf` gives the first occurrence at or after the start, or -1 exactly when there is none |
| Text.LastIndexFrom | src/util.ts:20 | the last occurrence at or before an index, or -1 |
| Text.LastIndexOf | src/util.ts:20 | `lastIndexOf` gives an occurrence with none after it, and -1 exactly when there is no occurrence |
| Text.Clamp | src/util.ts:21 | an index clamped into `[0, n]` is itself when already inside |
| Text.Substring | src/util.ts:21 | `substring` is the slice for in-range ends, and empty when both ends are at or below 0 |
| Text.Slice | src/main.ts:63 | `slice` is the slice for in-range ends, and counts a negative start from the end |
| Text.Split | scraper/scraper.ts:184 | `split` always gives at least one piece |
| Text.SplitJoin | graph.js:42 | joining the pieces of a split with the same separator gives the string back |
| Text.SplitPiecesFree | scraper/scraper.ts:184 | no piece of a split contains the separator |
| Text.Before | scraper/scraper.ts:154 | the first piece of a split is a prefix without the separator |
| Text.ReplaceFirst | src/vertex.ts:88 | `replace` with a string pattern replaces the first occurrence, with no occurrence before it, and changes nothing when there is none |
| Text.FirstDigit | src/main.ts:62 | `search(/\d/)` gives the first digit's index, or -1 when there is no digit |
| Text.SplitCharAt | main.js:18 | splitting on a character cuts at its first occurrence |
| Text.SplitCharNone | main.js:45 | a string without the separator character is its own only piece |
| Text.SplitCharPrefix | main.js:57 | a word, the separator character, then the rest: the word is the first piece |
| Util.RSplit | src/util.ts:19-22 | `rsplit` splits at the last separator, so that `a + sep + b` is the string; with no separator it gives `["", s]` |
| Util.SuffixFree | util.js:7-10 | nothing after the last occurrence of a one-character separator contains it |
| Util.RSplitOfJoin | scraper/scraper.ts:172-175 | `rsplit(department + " " + number)` gives the department and the number back when the number has no space |
| Util.RSplitArtHistory | src/search.ts:64 | "ART HISTORY 101" splits into "ART HISTORY" and "101" |
| Util.Bound | src/util.ts:31-33 | `bound(a, x, b)` lies in `[a, b]` when `a <= b`, is `x` inside, `a` below, `b` above, and `a` when the bounds cross |
| Util.BoundIdempotent | src/graph.ts:68-77 | bounding twice is bounding once |
| Edges.NewEdge | src/edge.ts:7-12 | the constructor stores its four arguments |
| Edges.NewEdgeDefaults | graph.js:63-68 | an edge is black and of type "prereq" unless given a colour and a type |
| Edges.LiveEdges | src/graph.ts:215-218 | a draw pass over a bucket keeps no more edges than it had |
| Edges.LiveEdgesMembers | src/graph.ts:278-280 | a pass keeps exactly the edges whose two ends are vertices |
| Edges.LiveEdgesCount | src/graph.ts:279 | a pass keeps every copy of a live edge and no copy of a dangling one |
| Edges.LiveEdgesIdempotent | graph.js:164-166 | a second pass with the same vertices deletes nothing more |
| Edges.LiveEdgesKeepsLive | graph.js:118 | a bucket of live edges survives a pass unchanged |
| Edges.Anchors | src/graph.ts:221-240 | where a prerequisite edge and a corequisite edge leave and reach the two cards |
| Edges.EdgeStroke | src/graph.ts:242-265 | the stroke has the edge's colour, a start arrow exactly for a corequisite, and runs between the anchors |
| Edges.PrereqShape | src/graph.ts:261-264 | a prerequisite edge is straight exactly when the cards' left edges are under 32 pixels apart, and otherwise a curve with control points 64 pixels out |
| Edges.CoreqShape | graph.js:132-154 | a corequisite edge is always straight, has a start arrow, and joins the cards at half their height |
| Sorting.LeRefl | src/search.ts:62-63 | the default `sort()` order, by character code, is reflexive |
| Sorting.LeTotal | src/search.ts:62-63 | the default sort order is total |
| Sorting.LeTrans | src/search.ts:62-63 | the default sort order is transitive |
| Sorting.LeAntisymmetric | src/search.ts:62-63 | the default sort order is antisymmetric, so equal keys are equal strings |
| Sorting.Insert | src/search.ts:62-63 | inserting adds exactly one element and keeps the others |
| Sorting.SortBy | src/search.ts:62 | `sort()` keeps the length |
| Sorting.SortByPermutes | src/search.ts:62 | `sort()` is a permutation of its input |
| Sorting.InsertSorted | src/search.ts:62-63 | inserting into a sorted list keeps it sorted |
| Sorting.SortBySorted | src/search.ts:62-63 | `sort()` leaves its elements in order of their keys |
| Sorting.SortByIdentity | src/search.ts:75-77 | a list already in order is left as it is |
| Sorting.SortByIdempotent | src/search.ts:75-77 | sorting twice is sorting once, so the second pass sees the first pass's order |
| Sorting.InsertStable | src/search.ts:62-63 | inserting keeps the order of the elements of each key |
| Sorting.SortByStable | src/search.ts:62-63 | `sort()` is stable: elements with the same key keep their order |
| Catalogue.ListedIsRequisite | src/search.ts:60-63 | every member of a listed OR-set of a dataset course is a requisite string of the dataset |
| Catalogue.SortEach | src/search.ts:63 | every OR-set is sorted on its own |
| Catalogue.ArrangePermutes | src/search.ts:62-63 | sorting in place keeps the number of OR-sets, and each sorted set is a permutation of an original set |
| Catalogue.ArrangeSorted | src/search.ts:75-77 | after the in-place sorts the list is in order of each set's comma-joined text, which is how `sort()` compares arrays, and each set is in order |
| Catalogue.ArrangeIdempotent | src/search.ts:58-63 | a second visit of the same course sees the same order |
| Graphs.Box.Grow | src/graph.ts:106-117 | each side of the box moves out just far enough to hold the point, and no further |
| Graphs.Fit | src/graph.ts:101-119 | the loop of `calculate_dim` grows the box to hold every card, and each side is either the old one or a card's coordinate |
| Graphs.Swept | src/graph.ts:212-283 | after a draw pass, every bucket holds exactly the live edges it held before |
| Graphs.SweptKeyed | src/graph.ts:202-207 | a pass keeps every edge in the bucket of its source |
| Graphs.SweptDropsRemoved | src/vertex.ts:66-74 | after a removal and a pass, no edge touches the removed course |
| Graphs.SweptIdempotent | src/graph.ts:214-215 | a second pass changes nothing |
| Graphs.LiveEdgesSnoc | src/graph.ts:206 | appending an edge to a bucket keeps the earlier live edges and adds the new one when it is live |
| Graphs.StrokesOf | src/graph.ts:218-277 | one stroke per live edge |
| Graphs.StrokesOfEach | src/graph.ts:216-224 | each edge is stroked between the cards of its own two ends |
| Graphs.StrokesOfAppend | src/graph.ts:214 | the strokes of two runs of edges are the strokes of each in turn |
| Graphs.Sweep | src/graph.ts:215-281 | the inner loop of `draw` keeps exactly the live edges and strokes them in order |
| Graphs.SweepAll | src/graph.ts:214-282 | the outer loop of `draw` sweeps every bucket in the map's order and strokes what it keeps |
| Graphs.KeyOrder | src/graph.ts:214 | the iteration order lists every key once |
| Graphs.SweepSpecPrefix | src/graph.ts:213-218 | midway through the loop, the visited buckets are swept and the rest untouched |
| Graphs.SweepSpecSwept | src/graph.ts:278-282 | a pass that visits every bucket once sweeps them all |
| Graphs.DrawnMembers | src/graph.ts:215-218 | an edge is stroked exactly when it is in a visited bucket |
| Graphs.DrawnCovers | src/graph.ts:242-277 | a full pass strokes every edge the swept buckets hold |
| Graphs.LinkPathNoSpace | src/vertex.ts:88 | a code with no space links to "/" and the code |
| Graphs.LinkPathArtHistory | src/vertex.ts:87-89 | "ART HISTORY 101" links to "ART_HISTORY/101": only the first space of the department becomes "_" |
| Graphs.Vertex.constructor | src/vertex.ts:79-116 | a new card has the course's code as its id and code, sits at (x, y), is not being dragged, and has no graph |
| Graphs.Vertex.MouseDown | src/vertex.ts:21-33 | a press starts dragging and remembers the card's offset from the mouse |
| Graphs.Vertex.MouseMove | src/vertex.ts:39-47 | while dragging the card sits at the mouse plus the offset and the graph is redrawn, which changes only its edges; otherwise nothing changes |
| Graphs.Vertex.MouseUp | src/vertex.ts:53-61 | the drag ends; the graph's box grows to hold every card, and its vertices, edges, zoom, pan and drag state are left as they are |
| Graphs.Vertex.Remove | src/vertex.ts:66-77 | removing a card deletes its id only, the redraw leaves no edge touching it, the box only grows, and the zoom, pan and drag state stay as they were |
| Graphs.DragDisplacement | src/vertex.ts:25-28 | dragging moves a card by exactly the mouse's displacement since the press |
| Graphs.RemoveTwice | src/vertex.ts:67-68 | removing a card twice removes it once |
| Graphs.Graph.constructor | src/graph.ts:18-40 | a new graph has no vertex and no edge, scale 1, no pan and an empty box |
| Graphs.Graph.Size | src/graph.ts:94-96 | `size` is the number of vertices |
| Graphs.Graph.IsFound | src/graph.ts:126-128 | `isFound` holds exactly for the ids in the vertex map |
| Graphs.Graph.MouseDown | src/graph.ts:46-55 | a press on the background starts panning from the press point |
| Graphs.Graph.PanStep | src/graph.ts:66-77 | the pan moves by 5% of the mouse's displacement, clamped into half the box on each axis |
| Graphs.Graph.MouseMove | src/graph.ts:61-82 | the pan changes only while the background is held |
| Graphs.Graph.MouseUp | src/graph.ts:88-92 | the press on the background ends |
| Graphs.Graph.Delete | src/vertex.ts:68-74 | the graph's part of a removal: the id is deleted and the redraw drops every edge touching it |
| Graphs.Graph.CalculateDim | src/graph.ts:101-119 | the box grows to hold every card, each side either as it was or at a card's coordinate |
| Graphs.Graph.Positions | src/graph.ts:103-105 | one layout position per card |
| Graphs.Graph.Clear | src/graph.ts:133-140 | clearing leaves no vertex and no edge, so no course is found; the box only grows, and the zoom, pan and drag state stay as they were |
| Graphs.Graph.Wheel | src/graph.ts:171-184 | a wheel step scales by 0.99 or 1.01 and redraws |
| Graphs.Graph.ZoomFactor | src/graph.ts:173-177 | the factor is positive, and below 1 exactly when scrolling down |
| Graphs.Graph.AddVertex | src/graph.ts:190-196 | the entry for the card's id becomes the card, which points back at the graph, and the box grows to hold it |
| Graphs.Graph.AddEdge | src/graph.ts:202-207 | the edge joins the end of its source's bucket, which is created when missing |
| Graphs.Graph.Cards | src/graph.ts:219-224 | one page position per card |
| Graphs.Graph.Draw | src/graph.ts:212-283 | `draw` deletes the dangling edges, strokes every live one in the map's order, and changes nothing else |
| LegacyGraphs.Slashed | graph.js:42 | every space turned into a slash, and nothing else changed |
| LegacyGraphs.LinkPathSlashed | graph.js:42 | `split(' ').join('/')` replaces every space, not only the first |
| LegacyGraphs.LinkPathArtHistory | graph.js:39-42 | "ART HISTORY 101" links to "ART/HISTORY/101" |
| LegacyGraphs.Vertex.constructor | graph.js:2-60 | a new card has the code as its id, sits at (x, y), is not being dragged, and has no graph |
| LegacyGraphs.Vertex.MouseDown | graph.js:3-14 | a press starts dragging and remembers the card's offset from the mouse |
| LegacyGraphs.Vertex.MouseMove | graph.js:15-21 | while dragging the card sits at the mouse plus the offset; the card's own handler does not redraw |
| LegacyGraphs.DocumentMouseMove | graph.js:177 | a mouse move on the page first runs the graph's `draw`, which sweeps the edges and strokes them at the positions from before the move, then moves a dragged card |
| LegacyGraphs.Vertex.MouseUp | graph.js:22-28 | the press ends |
| LegacyGraphs.Vertex.Remove | graph.js:29-35 | removing a card deletes its id and leaves the edges as they are |
| LegacyGraphs.DragDisplacement | graph.js:6-9 | dragging moves a card by exactly the mouse's displacement since the press |
| LegacyGraphs.RemoveThenDraw | graph.js:31 | a removed card's edges dangle until the next draw, which drops them |
| LegacyGraphs.Graph.constructor | graph.js:170-176 | a new graph has no vertex and no edge |
| LegacyGraphs.Graph.Size | graph.js:181-183 | `size` is the number of vertices |
| LegacyGraphs.Graph.AddVertex | graph.js:100-105 | the entry for the card's id becomes the card, which points back at the graph |
| LegacyGraphs.Graph.AddEdge | graph.js:106-111 | the edge joins the end of its source's bucket |
| LegacyGraphs.Graph.Cards | graph.js:119-124 | one page position per card |
| LegacyGraphs.Graph.Draw | graph.js:112-169 | `draw` deletes the dangling edges and strokes every live one |
| LegacyGraphs.Graph.Clear | graph.js:72-79 | clearing leaves no vertex and no edge |
| LegacySearch.Token | main.js:25 | a missing word of the destructured split is "undefined" |
| LegacySearch.SplitArtHistory | main.js:18 | "ART HISTORY 101" splits into three words |
| LegacySearch.CodeOfArtHistory | main.js:26 | "ART HISTORY 101" stands for "ART HISTORY", so a department with a space is never found |
| LegacySearch.RowY | main.js:33 | a new card's row is one card width per level plus 16 |
| LegacySearch.PrereqX | main.js:62-63 | a prerequisite's column is centred under the parent 136 pixels apart, and kept between the two random margins |
| LegacySearch.CoreqX | main.js:95-96 | a corequisite's column is NaN exactly when `reqlen` is 0 and the division is 0 / 0, and lies inside the window when `reqlen` is positive and the window holds a card |
| LegacySearch.CountGroupPositive | main.js:44-51 | a set with a resolving member has a positive count |
| LegacySearch.CountAllPositive | main.js:43-52 | a kind with a resolving member has a positive count |
| LegacySearch.CountMembers | main.js:44-51 | the inner counting loop counts the resolving members of a set |
| LegacySearch.CountResolving | main.js:42-52 | `reqlen` counts every resolving member of every set of the kind |
| LegacySearch.GrowsTrans | main.js:54-72 | two visits in turn explore the union of what each explores |
| LegacySearch.VisitMemberGrows | main.js:60-64 | a member adds at most itself to the explored set, and pushes one frame exactly when it adds itself |
| LegacySearch.VisitGroupGrows | main.js:56-71 | a set explores only its members, keeps the frames below, and pushes one frame per string it explores |
| LegacySearch.VisitGroupsGrows | main.js:54-72 | a kind explores only its members, keeps the frames below, and pushes one frame per string it explores |
| LegacySearch.VisitCourseGrows | main.js:41-106 | a dataset course explores only requisite strings of the dataset |
| LegacySearch.VisitGroupIndex | main.js:65-69 | over one set, `i` grows by no more than the number of its resolving members |
| LegacySearch.VisitGroupsIndex | main.js:53-72 | over a kind, `i` grows by no more than `reqlen` |
| LegacySearch.VisitKindIndex | main.js:86-105 | a kind's `i` ends no higher than the `reqlen` its counting loop found |
| LegacySearch.VisitGroupPlaced | main.js:95-97 | a frame pushed with a NaN column never resolves, when nothing resolving was counted |
| LegacySearch.VisitGroupsPlaced | main.js:87-105 | over a kind, every pushed frame has a number as its column or does not resolve |
| LegacySearch.VisitKindPlaced | main.js:74-106 | the same for a whole kind, counting pass included |
| LegacySearch.VisitCoursePlaced | main.js:41-106 | every frame a course pushes has a number as its column or does not resolve |
| LegacySearch.CourseEdgesBuckets | main.js:58-59 | a visit adds to the course's own bucket only: its prerequisite edges, then its corequisite edges |
| LegacySearch.CourseEdgesCover | main.js:91-92 | every member of every set gets an edge of its kind's type in the colour drawn for its set |
| LegacySearch.ExpandMember | main.js:60-70 | the member step matches its specification |
| LegacySearch.ExpandGroup | main.js:56-71 | the inner visiting loop adds one edge per member and visits each |
| LegacySearch.ExpandGroups | main.js:54-72 | the outer visiting loop gives the `j`-th set the `j`-th colour |
| LegacySearch.ExpandSet | main.js:55 | the body of the outer loop for one set |
| LegacySearch.ExpandKind | main.js:42-72 | one kind: count, then visit |
| LegacySearch.ExpandListed | main.js:74 | a kind the course does not list adds nothing |
| LegacySearch.ExpandCourse | main.js:41-106 | prerequisites are expanded before corequisites |
| LegacySearch.PlaceVertex | main.js:29-40 | a new card goes to the frame's column and row, an existing one moves down to a card width below where the page shows it and keeps its column, and no other card moves |
| LegacySearch.Visit | main.js:24-109 | a frame does something exactly when its first two words name a course; otherwise neither the graph nor any card changes |
| LegacySearch.VisitResolved | main.js:28-107 | the resolving branch places the card and expands both kinds |
| LegacySearch.KeptUpdate | main.js:34 | adding one card under a course code keeps every other card |
| LegacySearch.KeptTrans | main.js:23 | keeping is transitive over loop iterations |
| LegacySearch.Step | main.js:23-110 | one loop iteration explores only requisite strings and keeps every card, and one whose frame does not resolve changes neither the graph nor any card |
| LegacySearch.Progress | main.js:60-61 | an iteration either explores a new string or pushes nothing |
| LegacySearch.Drain | main.js:23 | the loop ends after at most as many iterations as frames plus requisite strings |
| LegacySearch.Explore | main.js:22-110 | the loop finds the course exactly when the root resolves, and otherwise neither the graph nor any card changes |
| LegacySearch.Search | main.js:16-113 | `search` returns whether the query's first two words name a course, adds its card then, otherwise leaves the map and every card's position alone, and runs at most one iteration per requisite string plus one |
| LegacySearch.Redraw | main.js:111 | the final draw leaves only live edges, and moves no card |
| Search.KindNames | src/search.ts:79 | `type.slice(0, -1)` turns "prereqs" and "coreqs" into "prereq" and "coreq" |
| Search.CountGroupAntitone | src/search.ts:67-69 | exploring more can only lower the count |
| Search.CountGroupUnresolved | src/search.ts:65-66 | a set none of whose members resolves expects no child |
| Search.CountMembers | src/search.ts:63-72 | the inner counting loop counts the resolving, unexplored members of a set |
| Search.CountUnexplored | src/search.ts:61-73 | `reqlen` counts the resolving, unexplored members of the sorted sets |
| Search.Bump | src/search.ts:91-96 | deepening keeps the stack's length |
| Search.BumpMonotone | src/search.ts:93 | only depths change, and none decreases |
| Search.BumpFirst | src/search.ts:92-94 | exactly the first frame of the department gets the larger depth |
| Search.BumpAbsent | src/search.ts:91 | with no frame of the department nothing changes |
| Search.BumpDepth | src/search.ts:91-96 | the loop with its `break` deepens only the first frame of the department |
| Search.VisitMemberGrows | src/search.ts:81-84 | a member adds at most itself to the explored set, and pushes one frame exactly when it adds itself |
| Search.VisitGroupGrows | src/search.ts:77-98 | a set explores only its members and pushes one frame per string it explores |
| Search.VisitGroupsGrows | src/search.ts:75-99 | a kind explores only its members and pushes one frame per string it explores |
| Search.DeepensTrans | src/search.ts:90 | deepening over two visits is deepening |
| Search.VisitMemberDeepens | src/search.ts:90-96 | a member changes only the depths of the earlier frames, lowers none, raises a depth only to one below the course, and pushes frames one level below the course |
| Search.VisitGroupDeepens | src/search.ts:77-97 | the same for a whole set |
| Search.VisitGroupsDeepens | src/search.ts:75-98 | the same for a whole kind |
| Search.VisitGroupColumns | src/search.ts:85-89 | over one set, `i` grows by no more than the members that resolved and were unexplored when counted |
| Search.VisitGroupsColumns | src/search.ts:74-99 | over a kind, `i` grows by no more than `reqlen` |
| Search.ArrangedMember | src/search.ts:75 | a member of a sorted set is a member of an original set |
| Search.ArrangedMembers | src/search.ts:75-77 | the sorted sets hold members of the original ones only |
| Search.CourseMembers | src/search.ts:58-60 | every string a course lists is a requisite of the dataset |
| Search.VisitKindGrows | src/search.ts:60-100 | a kind explores only its members, one frame each |
| Search.VisitCourseGrows | src/search.ts:58-101 | a dataset course explores only requisite strings of the dataset |
| Search.GroupEdges | src/search.ts:77-80 | one edge per member of the set, from the course, in the set's colour |
| Search.KindEdgesStep | src/search.ts:76-80 | the edges of set `j` follow those of the sets before it |
| Search.KindEdgesCover | src/search.ts:79-80 | member `m` of set `j` gets an edge in the `j`-th colour |
| Search.KindEdgesCovers | src/search.ts:75-80 | every member of every set gets an edge in its set's colour |
| Search.KindEdgeSource | src/search.ts:79 | an edge of a kind comes from the course, has the kind, and points at a member of some set, in that set's colour |
| Search.KindEdgesOnly | src/search.ts:74-80 | no other edges are added |
| Search.AppendKeyed | src/search.ts:80 | adding edges that leave the course keeps every edge in its source's bucket |
| Search.ExpandGroup | src/search.ts:77-98 | the inner loop adds the set's edges and visits each member |
| Search.ExpandMember | src/search.ts:81-97 | an unexplored member is explored and pushed; an explored one deepens the first frame of its department |
| Search.ExpandGroups | src/search.ts:75-99 | the outer loop gives the `j`-th set the `j`-th colour |
| Search.ExpandSet | src/search.ts:76 | the body of the outer loop for one set |
| Search.ExpandKind | src/search.ts:60-100 | one kind: count over the sorted sets, then add an edge per member and push or deepen |
| Search.SortByIdentityOfArranged | src/search.ts:77 | the second pass's inner `sort()` finds every set already sorted |
| Search.PlaceVertex | src/search.ts:40-56 | a new card goes to the frame's column and its row, an existing one moves down to a card width below where the page shows it and keeps its column, and no other card moves |
| Search.ExpandListed | src/search.ts:60 | a kind the course does not list adds nothing |
| Search.ExpandCourse | src/search.ts:58-101 | prerequisites are expanded before corequisites |
| Search.Visit | src/search.ts:31-104 | a frame does something exactly when its trimmed parts name a course; otherwise neither the graph nor any card changes |
| Search.VisitResolved | src/search.ts:37-103 | the resolving branch places the card and expands both kinds |
| Search.CodeIsCode | src/search.ts:35 | a resolving frame's code is a course code of the dataset |
| Search.KeptUpdate | src/search.ts:51 | adding one card under a course code keeps every other card |
| Search.KeptTrans | src/search.ts:29 | keeping is transitive over loop iterations |
| Search.Step | src/search.ts:29-105 | one loop iteration explores only requisite strings and keeps every card, and one whose frame does not resolve changes neither the graph nor any card |
| Search.Progress | src/search.ts:81-84 | an iteration either explores a new string or pushes nothing |
| Search.Drain | src/search.ts:29 | the loop ends after at most as many iterations as frames plus requisite strings |
| Search.Explore | src/search.ts:21-105 | the loop finds the course exactly when the root resolves, and otherwise neither the graph nor any card changes |
| Search.Search | src/search.ts:16-109 | `search` returns whether the searched course resolves, adds its card then, otherwise changes only the edges the redraw drops and leaves every card where it was, leaves only live edges, and runs at most one iteration per requisite string plus one |
| Search.Redraw | src/search.ts:107 | the final draw leaves only live edges, and changes neither a card nor the zoom, pan, drag state or box |
| Search.SubsetSize | src/search.ts:82 | a proper subset of the requisite strings is smaller, which bounds the loop |
| Query.SpacePoint | src/main.ts:62-63 | the space is inserted at an index inside the query or at its end |
| Query.Spaced | src/main.ts:61-64 | a query with a space is kept; one without gets a space before its first digit, or before its last character when it has no digit |
| Query.SpacedHasSpace | src/main.ts:61 | a spaced query has a space |
| Query.SpacedInsertsOne | src/main.ts:63 | without a space, spacing inserts exactly one character |
| Query.SpacedAtDigit | src/main.ts:62 | "CMPUT174" becomes "CMPUT 174" |
| Query.SpacedNoDigit | src/main.ts:63 | with no digit, `search` gives -1 and the space goes before the last character |
| Query.NormalisedShape | src/main.ts:50-52 | the upper-cased, trimmed query neither starts nor ends with white space and has no lower-case letter |
| Query.Change | src/main.ts:49-75 | a course already in the graph is refused before spacing, and with a refused or empty query neither the graph nor any card changes; otherwise the spaced query is searched and the field cleared or marked invalid, and a search that fails changes only the edges the redraw drops |
| Query.Lookup | src/main.ts:65-73 | after a search the field is cleared when the course is found, and marked invalid with "Course not found" otherwise, the graph changing then only by the redraw's sweep |
| Query.LegacyChange | main.js:126-140 | the older handler spaces the upper-cased query and searches it, with no trim and no check against the graph; a failed search moves no card |
| Query.HasCards | src/main.ts:77-83 | the delete button shows exactly when the graph has a card |
| Query.DialogClosing | src/main.ts:104-109 | "discard" clears the cards and edges and any other action leaves them and the box as they are; the zoom, pan and drag state never change |
| Query.LegacyDelete | main.js:141-148 | with a card and the confirmation accepted the graph is cleared, and otherwise nothing happens |
| Patterns.DelimLen | scraper/scraper.ts:130 | a separator matched at an index lies inside the string |
| Patterns.FirstCut | scraper/scraper.ts:132 | the leftmost match at or after an index, or -1 when there is none |
| Patterns.CutEnd | extract_course_data.js:11 | the end of a match lies past its start |
| Patterns.PiecesFrom | extract_course_data.js:3 | a split always gives at least one piece |
| Patterns.Pieces | extract_course_data.ts:3 | `split(re)` always gives at least one piece |
| Patterns.PiecesOutnumberCuts | extract_course_data.ts:11 | a split gives one more piece than it cuts out separators |
| Patterns.WeavePieces | scraper/scraper.ts:130 | putting the separators back between the pieces gives the string back |
| Patterns.PieceHasNoCut | scraper/scraper.ts:132 | no piece holds a separator |
| Patterns.FirstPieceAt | scraper/scraper.ts:130 | a split whose first match is at `k` has the text before `k` as its first piece, and goes on after the match |
| Patterns.FirstOneOf | scraper/scraper.ts:131 | the first "one of" at or after an index, or -1 |
| Patterns.DropOneOf | extract_course_data.js:4 | only the first "one of" is removed, and nothing when there is none |
| Patterns.LineEnd | scraper/scraper.ts:197 | `.` runs up to the first line terminator |
| Patterns.SkipRun | scraper/scraper.ts:196 | `s*` and `:*` skip the whole run of the character |
| Patterns.LazyToDot | scraper/scraper.ts:203 | the lazy group ends at the first dot after at least one character, and there is none exactly when every later dot comes after a line terminator |
| Patterns.SentenceAt | scraper/scraper.ts:204 | a requisite sentence tried at an index gives a group inside the string, after the word |
| Patterns.GroupAt | extract_course_data.js:45 | ` (.+?)\.` gives a group inside the string |
| Patterns.FirstSentence | extract_course_data.ts:50 | the leftmost requisite sentence at or after an index |
| Patterns.Sentence | scraper/scraper.ts:197 | `match` gives a nonempty group and the index where the word occurs |
| Patterns.LevelAt | scraper/scraper.ts:138 | `(?:Any|a) (\d{3})-level ` gives three digits inside the string |
| Patterns.LastCourse | scraper/scraper.ts:140 | the greedy `(.*)` gives characters back until " course" follows |
| Patterns.GenericAt | scraper/scraper.ts:137 | a generic phrase gives three digits and a subject |
| Patterns.FirstGeneric | scraper/scraper.ts:139 | a generic phrase is found at some index at or after the start, and none is found exactly when no index has one |
| Patterns.CodeLikeWindow | scraper/scraper.ts:284 | the code-like test holds exactly when one of its two shortest windows matches |
| Scraper.GenericMatch | scraper/scraper.ts:137-141 | a generic phrase gives a level of three characters, the first a digit |
| Scraper.GenericTabled | scraper/scraper.ts:116-152 | a subject in the table, whatever its case and surrounding spaces, names the table's catalogue subject, then the level's first digit and "XX" |
| Scraper.GenericComputingScience | scraper/scraper.ts:116-152 | "any 300-level course in Computing Science" names "CMPUT 3XX" |
| Scraper.GenericAny | scraper/scraper.ts:116-152 | a phrase with no subject names "ANY" and the level |
| Scraper.GenericUntabled | scraper/scraper.ts:146-152 | a subject outside the table is kept, upper-cased and trimmed |
| Scraper.Classify | scraper/scraper.ts:135-158 | a token is dropped exactly when blank; it is generic exactly when a generic pattern matches, and then becomes the name `GenericName` gives its level and subject; otherwise it is kept with its first word as the new subject exactly when letter-initial, and bare exactly when not |
| Scraper.TrimAll | scraper/scraper.ts:132 | `map((v) => v.trim())` keeps the number of pieces |
| Scraper.Classified | scraper/scraper.ts:134 | every classified token adds a nonempty string when it adds one |
| Scraper.FoldBranches | scraper/scraper.ts:161 | one set per branch |
| Scraper.Requisites | scraper/scraper.ts:115-164 | `parse_requisites` gives one set per piece of the split on the whole word "and" or on "; " |
| Scraper.ParseRequisites | scraper/scraper.ts:128-163 | the loop over the branches, the subject carried from one to the next, is the specification |
| Scraper.ParseBranchText | scraper/scraper.ts:131-132 | a branch has its first "one of" removed, is split into trimmed tokens, and is folded |
| Scraper.ParseBranch | scraper/scraper.ts:133-160 | the loop over the tokens of a branch is the fold of their classes |
| Scraper.ClassifyToken | scraper/scraper.ts:135-157 | the tests on one token are its classification |
| Scraper.FoldLast | scraper/scraper.ts:134 | folding one more token |
| Scraper.FoldBranchesLast | scraper/scraper.ts:130 | folding one more branch |
| Scraper.RequisitesNonEmpty | scraper/scraper.ts:136 | no requisite in any set is empty |
| Scraper.TokensSound | scraper/scraper.ts:136 | every token of a branch adds nonempty strings only |
| Scraper.FoldAppend | scraper/scraper.ts:129 | folding two token lists in turn is folding their concatenation |
| Scraper.BranchesAsOneList | scraper/scraper.ts:129-130 | the branches behave as one long token list: the subject is carried across "and" as across "or" |
| Scraper.AfterIsLastLead | scraper/scraper.ts:154 | the subject after a list is the first word of its last letter-initial token, or the starting subject |
| Scraper.BareTakesLastLead | scraper/scraper.ts:157 | a bare token takes the subject of the last letter-initial token before it, or the course's own subject |
| Scraper.FoldPair | scraper/scraper.ts:153-157 | the fold of two tokens |
| Scraper.LeadThenBare | scraper/scraper.ts:153-158 | "CMPUT 174 or 175" gives "CMPUT 174" and "CMPUT 175" |
| Scraper.Described | scraper/scraper.ts:192-212 | each sentence found is parsed with the card's subject; raw text is kept exactly when a sentence is found, and starts where a requisite word occurs; without raw text or a literal "undefined", the description is the trimmed text |
| Scraper.DescBeforeRaw | scraper/scraper.ts:211 | when the raw text is found first where it starts, the description is the trimmed text before it |
| Scraper.ReplaceSuffix | scraper/scraper.ts:200 | replacing a suffix found first where it starts leaves what precedes it |
| Scraper.DescOfRaw | scraper/scraper.ts:208 | with raw text, the description is the text with it replaced once, trimmed |
| Scraper.RawFoundByStart | scraper/scraper.ts:209 | the raw text always occurs in the text, no later than where it starts |
| Scraper.ParseCard | scraper/scraper.ts:177-219 | a card without a title is skipped; the code is the first " - " piece, split at its last space into subject and number; the name is present exactly when the title has " - " |
| Scraper.ParseCourses | scraper/scraper.ts:108 | `cards.map` parses each card in order |
| Scraper.Grouped | scraper/scraper.ts:94-96 | a subject's map is created on its first card, so no subject's map is empty |
| Scraper.Group | scraper/scraper.ts:90-98 | the grouping loop gives the grouping |
| Scraper.GroupedHas | scraper/scraper.ts:97 | a course is in the grouping exactly when some card has its subject and number |
| Scraper.GroupedSubjects | scraper/scraper.ts:94 | a subject is in the grouping exactly when some card has it |
| Scraper.GroupedLastWins | scraper/scraper.ts:91-93 | a skipped card adds nothing, and a later duplicate overwrites the earlier entry |
| Scraper.NoneLoggedAsWritten | scraper/scraper.ts:275 | "None" is an accepted phrase, yet a requisite "None" is logged |
| Scraper.AllowedNotLogged | scraper/scraper.ts:233-278 | with the phrases compared in lower case, no spelling of an accepted phrase is logged |
| Scraper.LoggedIsLoggedAsWritten | scraper/scraper.ts:286 | the corrected test logs only what the test as written logs |
| Scraper.CleanAsWrittenIsClean | scraper/scraper.ts:283-291 | a course the log as written passes over is passed over by the corrected test too |
| Scraper.Line | scraper/scraper.ts:289 | a logged line is never empty |
| Scraper.LogErrors | scraper/scraper.ts:227-296 | the loops of `log_errors` build the log of every subject and course in the iteration order given, with the test as written |
| Scraper.LogSubject | scraper/scraper.ts:230-295 | the loop over the courses of one subject, with the test as written |
| Scraper.LogCourse | scraper/scraper.ts:280-294 | prerequisites, then corequisites, each only when the course has them, with the test as written |
| Scraper.LogList | scraper/scraper.ts:282-292 | the loop over the groups of one list, with the test as written |
| Scraper.LogGroup | scraper/scraper.ts:283-291 | a code-like requisite is passed over, then one whose lower-case form is in the phrase list as written; any other is logged |
| Scraper.GroupErrorsEmpty | scraper/scraper.ts:284-290 | a group logs nothing exactly when none of its requisites is logged |
| Scraper.ListErrorsEmpty | scraper/scraper.ts:282 | a list logs nothing exactly when none of its groups does |
| Scraper.TypeErrorsEmpty | scraper/scraper.ts:281 | a course's lists log nothing exactly when none does |
| Scraper.SubjectErrorsEmpty | scraper/scraper.ts:230 | a subject logs nothing exactly when none of its courses does |
| Scraper.ErrorsEmptyPrefix | scraper/scraper.ts:229 | the log of some subjects is empty exactly when each of them logs nothing |
| Scraper.ErrorsEmpty | scraper/scraper.ts:228 | the log is empty exactly when no requisite of any course would be logged |
| Extract.Classify | extract_course_data.js:15-22 | a token is dropped exactly when blank, kept with its first word as the new subject when letter-initial, and bare otherwise |
| Extract.Tokens | extract_course_data.js:11 | one token per piece of the split on "," or the substring "or", none of them a generic phrase |
| Extract.Classified | extract_course_data.js:14 | each piece is classified on its own |
| Extract.Reqs | extract_course_data.ts:1-8 | `parse_reqs` gives one list per piece of the split on "and " or "; " |
| Extract.Lists | extract_course_data.ts:3-6 | each branch is trimmed, rid of its first "one of" or "One of", and parsed as a list |
| Extract.ParseReqList | extract_course_data.js:10-26 | `parse_reqlist` is the fold of its tokens from an empty subject |
| Extract.ParseCodes | extract_course_data.js:12-24 | the loop with its mutable `prev` is that fold |
| Extract.ListStep | extract_course_data.js:15-22 | one token is skipped when blank, kept and taken as the new subject when letter-initial, and put behind the subject and a space otherwise |
| Extract.ParseReqs | extract_course_data.js:1-8 | the loop of `parse_reqs` gives `Reqs` |
| Extract.ParseBranches | extract_course_data.js:3-6 | the loop over the branches gives one list per branch |
| Extract.ReqsNoBlank | extract_course_data.js:16 | no requisite of any list is empty |
| Extract.BareTakesLeadOrNothing | extract_course_data.js:13 | a bare token takes the first word of the last letter-initial token before it in its own list, and nothing when there is none |
| Extract.LeadingBare | extract_course_data.js:20-22 | a list that opens with a bare number gives it behind a lone space |
| Extract.FoldFirstBare | extract_course_data.js:21 | a fold that starts with a bare token starts with that token behind the starting subject |
| Extract.BranchStartsFresh | extract_course_data.ts:13 | whatever the earlier branches named, a branch that opens with a bare number gives it behind a lone space |
| Extract.OrSplitsInsideWords | extract_course_data.ts:11 | "or" splits inside words, so "Calculus for Engineers" is cut after "Calculus f" |
| Extract.AndSplitsInsideWords | extract_course_data.ts:3 | "and " splits inside words, so "Band 3" is cut after "B" |
| Extract.Number | extract_course_data.js:36 | the number has no space |
| Extract.NumberAfterLastSpace | extract_course_data.ts:44 | the number is everything after the last space of the code |
| Extract.NumbersAgree | scraper/scraper.ts:186 | the extractor's last word and the scraper's `rsplit` give the same number |
| Extract.NumberOf | extract_course_data.js:35-36 | a card is stored under a number without a space |
| Extract.NameOf | extract_course_data.js:35 | a heading has a name exactly when it has " - ", and the name has none |
| Extract.Found | extract_course_data.js:45-46 | a card's lists are found only in its paragraph, by the one-colon sentence, and parsed by `parse_reqs` |
| Extract.Keyed | extract_course_data.js:31-37 | each card under its number |
| Extract.Subjects | extract_course_data.js:29 | no stored number has a space |
| Extract.ExtractCards | extract_course_data.js:31-54 | the loop over the cards stores the record of each under its number, in order |
| Extract.AddCard | extract_course_data.js:32-53 | the card's number maps to its record, and every other number keeps its record |
| Extract.ReadHeading | extract_course_data.js:32-36 | the heading is trimmed and split into the number and the name |
| Extract.Attach | extract_course_data.js:42-53 | a list is attached only when its sentence is found |
| Extract.StoredHas | extract_course_data.js:37 | a number is stored exactly when some card has it |
| Extract.StoredLastWins | extract_course_data.js:37 | a number's value is the one of its last entry |
| Extract.SubjectsLastWins | extract_course_data.js:37-40 | a number's record is the one of its last card |
| Extract.Segment | extract_course_data.js:56 | the last segment of the address has no "/" |
| Extract.KeyShape | extract_course_data.ts:61 | the key has no "/" and no lower-case letter, and is one character shorter than the segment exactly when the segment has a "_" |
| Extract.KeyKeepsLaterUnderscores | extract_course_data.ts:61 | only the first "_" goes: a segment with two keeps the second |
| Extract.ReplaceKeepsLater | extract_course_data.js:56 | replacing the first occurrence of a character keeps a later one |
| Extract.Run | extract_course_data.js:28-58 | the stored datasets, or none, gain the page's records under its key, and every other key keeps its records |
| Extract.FilledAsWrittenThrows | extract_course_data.ts:45 | the `.ts` loop throws exactly when some card's number has no record when it starts |
| Extract.FirstCardThrows | extract_course_data.ts:38-45 | starting from an empty object, a page with any card throws on its first card |

## Left out

- The DOM and the canvas: element creation, class lists, style strings,
  listener registration, events and `ctx` calls. A card's position is a
  pair of reals, and the page geometry is the affine `View`.
- Each edge bucket is a JavaScript `Set` of `Edge` objects. It is a
  sequence here, in insertion order. Every `addEdge` call adds a new
  object, so set membership by identity never merges two edges.
- The delete button's click handler (src/main.ts:85-91) only opens the
  confirmation dialog when the graph has a card; what the dialog's closing
  does is `Query.DialogClosing`.
- `resize`, in both builds: it depends on the device pixel ratio and the
  window's size.
- Arrowhead trigonometry and floating-point rounding. Coordinates are reals;
  `Stroke` records only the path, the colour and whether a start arrow is
  drawn.
- `random_color` and `Math.random`: they are parameters. `x0` is the
  first column, `colors(n)` is the colour of the `n`-th set visited, and in
  the older build `Env.draws` gives the random margins per member.
- The order of `Map`, `Set` and object iteration is a parameter: any
  sequence that lists every key once. Object keys that JavaScript orders as
  integers first are covered by that, and the prototype's own keys
  (`constructor`, `__proto__`) are not modelled.
- Sorting.Le: the default `sort()` compares UTF-16 code units, and the
  model compares whole characters. The two orders differ only between a
  character above U+FFFF and one in U+E000 to U+FFFF: JavaScript puts the
  first before the second, because its surrogate halves lie below U+E000,
  and the model puts it after.
- The older build's page-level `click` listener (graph.js:178) redraws on
  every click; that redraw is `LegacyGraphs.Graph.Draw`, and how it
  interleaves with the click handlers of cards and buttons is not modelled.
- Case mapping covers ASCII letters only, and `trim` covers the ASCII
  white space, the no-break space and the line terminators, not every
  Unicode space.
- Regular expressions are the specific scanners in `Patterns`, not a
  general engine.
- `fetch`, `localStorage`, `JSON.parse` and `JSON.stringify`: the stored
  data is the `Option<Datasets>` parameter of `Extract.Run`, and the run's
  result is what would be written back.
- Puppeteer, `fs`, `console.log`, `scrape_subjects`, `launch`, the page
  handling of `scrape_courses`, and the scraper's `main`: scraper/pool.ts
  and webpack.config.js are not part of this model.
- The unused `b` element of the `.js` extractor (extract_course_data.js:33):
  a card without it throws before anything is stored, which is not modelled.
- The MDC widgets and the theme toggle. The search bar and snackbar are a
  value `Query.Bar` that the handlers return, rather than a class they
  update: the handlers' state is the text field's value, placeholder and
  invalid mark, and the snackbar's label and open flag.
- The older build's NaN columns are modelled as a datatype `Num`, since
  JavaScript arithmetic, `Math.min` and `Math.max` propagate NaN. Infinity
  from a positive amount over zero is modelled the same way.
- Graphs.Graph.Wheel: the canvas transform about the mouse is not
  modelled; only the scale factor and the redraw are.
- Search.Drain: the bound on iterations counts frames popped, not the
  work done per frame.
- LegacySearch.Drain: the same.

## Findings

| source | as written | input that shows it | evidently intended | confidence | as-written member | corrected member |
|---|---|---|---|---|---|---|
| scraper/scraper.ts:275,277,286 | `allowed.has(requisite.toLowerCase())` compares a lower-case string with phrases that include "None" and "consent of the Department of Medical Genetics" | the requisite "None": it is not code-like and "none" is not in the list, so it is logged | every accepted phrase is accepted in any case | not executed | Scraper.NoneLoggedAsWritten | Scraper.AllowedNotLogged |
| extract_course_data.ts:45 | `subjects[number].name = name` sets a field on a record nothing has stored | any page with at least one card: `subjects` starts empty, so the first card throws | the record is created first, as extract_course_data.js:37-40 does | not executed | Extract.FirstCardThrows | Extract.ExtractCards |
