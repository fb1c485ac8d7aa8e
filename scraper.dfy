/** The catalogue scraper: a requisite sentence parsed into groups of codes,
    a catalogue card turned into a course entry, the entries grouped by
    subject, and the requisites that look like neither a code nor an
    accepted phrase listed for review. */
module Scraper {
  import opened Text
  import opened Util
  import opened Patterns
  import G = Graphs

  /** Generic subject names, upper-cased, and the catalogue subject each
      stands for; the empty name ("any 200-level course") is "ANY". */
  const Generics: map<string, string> := map[
    "" := "ANY", "ANTHROPOLOGY" := "ANTHR", "ART HISTORY" := "AUART",
    "BIOLOGICAL SCIENCES" := "BIOL", "BIOLOGY" := "BIOL",
    "COMPUTING SCIENCE" := "CMPUT", "THE FACULTY OF SCIENCE" := "SCIENCE"]

  /** The generic pattern that matches a token: the one naming its subject
      after "course in" is tried first. */
  function GenericMatch(code: string): (r: Option<(string, string)>)
    ensures r.Some? ==> |r.value.0| == 3 && IsDigit(r.value.0[0])
  {
    var m := FirstGeneric(LevelCourseIn, code, 0);
    if m.Some? then m else FirstGeneric(LevelCourse, code, 0)
  }

  /** What a generic phrase becomes: the subject, when there is one,
      trimmed, upper-cased and looked up in the table, then a space, the
      first digit of the level and "XX". */
  function GenericName(level: string, subject: string): string
    requires level != []
  {
    var s := if subject != [] then Upper(Trim(subject)) else subject;
    var s' := if s in Generics then Generics[s] else s;
    s' + " " + ([level[0]] + "XX")
  }

  /** A subject in the table, whatever its case and surrounding spaces,
      names the catalogue subject the table gives. */
  lemma GenericTabled(level: string, subject: string)
    requires level != [] && subject != [] && Upper(Trim(subject)) in Generics
    ensures GenericName(level, subject) == Generics[Upper(Trim(subject))] + " " + ([level[0]] + "XX")
  {
  }

  /** "any 300-level course in Computing Science" names "CMPUT 3XX". */
  lemma GenericComputingScience(level: string, subject: string)
    requires level != [] && subject != [] && Upper(Trim(subject)) == "COMPUTING SCIENCE"
    ensures GenericName(level, subject) == "CMPUT " + ([level[0]] + "XX")
  {
    GenericTabled(level, subject);
    var tail := [level[0]] + "XX";
    assert "COMPUTING SCIENCE" in Generics && Generics["COMPUTING SCIENCE"] == "CMPUT";
    assert "CMPUT" + " " + tail == "CMPUT " + tail by {
      assert "CMPUT" + " " == "CMPUT ";
    }
  }

  /** A phrase with no subject ("any 200-level course") names "ANY dXX". */
  lemma GenericAny(level: string)
    requires level != []
    ensures GenericName(level, "") == "ANY " + ([level[0]] + "XX")
  {
  }

  /** A subject outside the table is kept, upper-cased. */
  lemma GenericUntabled(level: string, subject: string)
    requires level != [] && subject != [] && Upper(Trim(subject)) !in Generics
    ensures GenericName(level, subject) == Upper(Trim(subject)) + " " + ([level[0]] + "XX")
  {
  }

  /** A token of a branch, trimmed and classified: nothing when it is
      blank; a generic phrase, with the name it becomes; a token starting
      with a letter, which is kept and whose first word becomes the subject
      of later bare numbers; or a bare token, which takes that subject. */
  datatype Token = Blank | Generic(name: string) | Lead(code: string, subject: string) | Bare(code: string)

  /** A token that adds something adds a nonempty string. */
  predicate Sound(t: Token) {
    (t.Generic? ==> t.name != []) && (t.Lead? ==> t.code != [])
  }

  function Classify(code: string): (t: Token)
    ensures Sound(t)
    ensures t.Blank? <==> Trim(code) == []
    ensures t.Generic? <==> Trim(code) != [] && GenericMatch(Trim(code)).Some?
    ensures t.Generic? ==> var m := GenericMatch(Trim(code)).value; t.name == GenericName(m.0, m.1)
    ensures t.Lead? <==> Trim(code) != [] && GenericMatch(Trim(code)).None? && IsLetter(Trim(code)[0])
    ensures t.Lead? ==> t.code == Trim(code) && t.subject == Split(Trim(code), " ")[0]
    ensures t.Bare? <==> Trim(code) != [] && GenericMatch(Trim(code)).None? && !IsLetter(Trim(code)[0])
    ensures t.Bare? ==> t.code == Trim(code)
  {
    var c := Trim(code);
    if c == [] then Blank
    else
      var m := GenericMatch(c);
      if m.Some? then Generic(GenericName(m.value.0, m.value.1))
      else if IsLetter(c[0]) then Lead(c, Before(c, " "))
      else Bare(c)
  }

  /** `map((v) => v.trim())` */
  function TrimAll(pieces: seq<string>): (r: seq<string>)
    ensures |r| == |pieces|
  {
    seq(|pieces|, i requires 0 <= i < |pieces| => Trim(pieces[i]))
  }

  function Classified(codes: seq<string>): (r: seq<Token>)
    ensures |r| == |codes|
    ensures forall i :: 0 <= i < |r| ==> Sound(r[i])
  {
    seq(|codes|, i requires 0 <= i < |codes| => Classify(codes[i]))
  }

  /** The tokens of one branch: its first "one of" (in any case) removed,
      then split on commas and on the whole word "or" in any case, each
      piece trimmed and classified. */
  function Tokens(branch: string): seq<Token> {
    Classified(TrimAll(Pieces(OrWord, DropOneOf(FoldedOneOf, Trim(branch)))))
  }

  /** What a token adds to its branch's set. */
  function Added(t: Token, prev: string): seq<string> {
    match t
    case Blank => []
    case Generic(name) => [name]
    case Lead(code, _) => [code]
    case Bare(code) => [prev + " " + code]
  }

  /** The subject in force after a token. */
  function After(t: Token, prev: string): string {
    if t.Lead? then t.subject else prev
  }

  /** The set of one branch, from subject `prev` on, and the subject in
      force after it. */
  function Fold(tokens: seq<Token>, prev: string): (r: (seq<string>, string)) {
    if tokens == [] then ([], prev)
    else
      var (group, p) := Fold(tokens[..|tokens| - 1], prev);
      var t := tokens[|tokens| - 1];
      (group + Added(t, p), After(t, p))
  }

  /** The sets of the branches in order, the subject carried from one
      branch into the next. */
  function FoldBranches(branches: seq<seq<Token>>, prev: string): (r: (seq<seq<string>>, string))
    ensures |r.0| == |branches|
  {
    if branches == [] then ([], prev)
    else
      var (reqs, p) := FoldBranches(branches[..|branches| - 1], prev);
      var (group, p') := Fold(branches[|branches| - 1], p);
      (reqs + [group], p')
  }

  /** `parse_requisites(text, subject)`: one set per piece of the split on
      the whole, case-sensitive word "and" or on "; ". */
  function Requisites(text: string, subject: string): (r: seq<seq<string>>)
    ensures |r| == |Pieces(AndWord, text)|
  {
    var branches := Pieces(AndWord, text);
    FoldBranches(seq(|branches|, i requires 0 <= i < |branches| => Tokens(branches[i])), subject).0
  }

  /** `parse_requisites`: a loop over the branches, each filled by
      `ParseBranch`, with the subject carried over. */
  method ParseRequisites(text: string, subject: string) returns (reqs: seq<seq<string>>)
    ensures reqs == Requisites(text, subject)
  {
    reqs := [];
    var prev := subject;
    var branches := Pieces(AndWord, text);
    ghost var all := seq(|branches|, i requires 0 <= i < |branches| => Tokens(branches[i]));
    assert all[..0] == [];
    for b := 0 to |branches|
      invariant (reqs, prev) == FoldBranches(all[..b], subject)
    {
      var group;
      ghost var prev0 := prev;
      group, prev := ParseBranchText(branches[b], prev);
      assert all[b] == Tokens(branches[b]);
      FoldBranchesLast(all, b, subject);
      assert (group, prev) == Fold(all[b], prev0);
      reqs := reqs + [group];
    }
    assert all[..|branches|] == all;
  }

  /** One branch: its first "one of" removed, split into trimmed tokens,
      and the tokens folded. */
  method ParseBranchText(text: string, prev0: string) returns (group: seq<string>, prev: string)
    ensures (group, prev) == Fold(Tokens(text), prev0)
  {
    var branch := DropOneOf(FoldedOneOf, Trim(text));
    var pieces := Pieces(OrWord, branch);
    var codes := TrimAll(pieces);
    group, prev := ParseBranch(codes, prev0);
  }

  /** The inner loop of `parse_requisites` over the tokens of one branch. */
  method ParseBranch(codes: seq<string>, prev0: string) returns (group: seq<string>, prev: string)
    ensures (group, prev) == Fold(Classified(codes), prev0)
  {
    ghost var tokens := Classified(codes);
    group, prev := [], prev0;
    assert tokens[..0] == [];
    for c := 0 to |codes|
      invariant (group, prev) == Fold(tokens[..c], prev0)
    {
      FoldLast(tokens, c, prev0);
      var t := ClassifyToken(codes[c]);
      assert t == tokens[c];
      ghost var (group0, prev1) := (group, prev);
      match t {
        case Blank =>
          assert group + [] == group;
        case Generic(name) =>
          group := group + [name];
        case Lead(code, subject) =>
          prev := subject;
          group := group + [code];
        case Bare(code) =>
          group := group + [prev + " " + code];
      }
      assert (group, prev) == (group0 + Added(t, prev1), After(t, prev1));
    }
    assert tokens[..|codes|] == tokens;
  }

  /** The tests of the inner loop of `parse_requisites` on one token: the
      trimmed token is skipped when empty, then tried against the generic
      patterns, then tested for a leading letter. */
  method ClassifyToken(token: string) returns (t: Token)
    ensures t == Classify(token)
  {
    var code := Trim(token);
    if |code| == 0 {
      return Blank;
    }
    var generic := GenericMatch(code);
    if generic.Some? {
      var level, subject := generic.value.0, generic.value.1;
      level := [level[0]] + "XX";
      if subject != [] {
        subject := Upper(Trim(subject));
      }
      if subject in Generics {
        subject := Generics[subject];
      }
      t := Generic(subject + " " + level);
    } else if IsLetter(code[0]) {
      t := Lead(code, Before(code, " "));
    } else {
      t := Bare(code);
    }
  }

  /** The fold of one more token. */
  lemma FoldLast(tokens: seq<Token>, c: nat, p: string)
    requires c < |tokens|
    ensures var (group, q) := Fold(tokens[..c], p);
      Fold(tokens[..c + 1], p) == (group + Added(tokens[c], q), After(tokens[c], q))
  {
    assert tokens[..c + 1][..c] == tokens[..c];
  }

  /** The fold of one more branch. */
  lemma FoldBranchesLast(branches: seq<seq<Token>>, b: nat, p: string)
    requires b < |branches|
    ensures var (reqs, q) := FoldBranches(branches[..b], p);
      FoldBranches(branches[..b + 1], p) == (reqs + [Fold(branches[b], q).0], Fold(branches[b], q).1)
  {
    assert branches[..b + 1][..b] == branches[..b];
  }

  predicate NoBlank(group: seq<string>) {
    forall j :: 0 <= j < |group| ==> group[j] != []
  }

  /** No requisite in any set is empty. */
  lemma RequisitesNonEmpty(text: string, subject: string)
    ensures forall i :: 0 <= i < |Requisites(text, subject)| ==> NoBlank(Requisites(text, subject)[i])
  {
    var branches := Pieces(AndWord, text);
    var all := seq(|branches|, i requires 0 <= i < |branches| => Tokens(branches[i]));
    forall i, k | 0 <= i < |all| && 0 <= k < |all[i]| ensures Sound(all[i][k]) {
      TokensSound(branches[i]);
    }
    FoldBranchesNoEmpty(all, subject);
    assert Requisites(text, subject) == FoldBranches(all, subject).0;
  }

  lemma TokensSound(branch: string)
    ensures forall k :: 0 <= k < |Tokens(branch)| ==> Sound(Tokens(branch)[k])
  {
  }

  lemma {:induction false} FoldBranchesNoEmpty(branches: seq<seq<Token>>, p: string)
    requires forall i, k :: 0 <= i < |branches| && 0 <= k < |branches[i]| ==> Sound(branches[i][k])
    ensures forall i :: 0 <= i < |FoldBranches(branches, p).0| ==> NoBlank(FoldBranches(branches, p).0[i])
    decreases |branches|
  {
    if branches != [] {
      var init := branches[..|branches| - 1];
      assert forall i :: 0 <= i < |init| ==> init[i] == branches[i];
      FoldBranchesNoEmpty(init, p);
      var (reqs, q) := FoldBranches(init, p);
      FoldNoEmpty(branches[|branches| - 1], q);
      var r := reqs + [Fold(branches[|branches| - 1], q).0];
      assert FoldBranches(branches, p).0 == r;
      assert forall i :: 0 <= i < |reqs| ==> r[i] == reqs[i];
    }
  }

  lemma {:induction false} FoldNoEmpty(tokens: seq<Token>, prev: string)
    requires forall i :: 0 <= i < |tokens| ==> Sound(tokens[i])
    ensures NoBlank(Fold(tokens, prev).0)
    decreases |tokens|
  {
    if tokens != [] {
      FoldNoEmpty(tokens[..|tokens| - 1], prev);
    }
  }

  /** Folding two lists one after the other is folding their concatenation. */
  lemma {:induction false} FoldAppend(a: seq<Token>, b: seq<Token>, p: string)
    ensures var (x, q) := Fold(a, p);
      Fold(a + b, p) == (x + Fold(b, q).0, Fold(b, q).1)
    decreases |b|
  {
    if b != [] {
      var b' := b[..|b| - 1];
      assert (a + b)[..|a + b| - 1] == a + b';
      FoldAppend(a, b', p);
      var (x, q) := Fold(a, p);
      var y := Fold(b', q).0;
      var t := b[|b| - 1];
      assert x + y + Added(t, Fold(b', q).1) == x + (y + Added(t, Fold(b', q).1));
    } else {
      assert a + b == a;
      assert Fold(a, p).0 + [] == Fold(a, p).0;
    }
  }

  function Flatten<T>(lists: seq<seq<T>>): seq<T> {
    if lists == [] then [] else Flatten(lists[..|lists| - 1]) + lists[|lists| - 1]
  }

  /** The branches of a requisite sentence behave as one long list of
      tokens: the subject is carried across "and" as across "or". */
  lemma {:induction false} BranchesAsOneList(branches: seq<seq<Token>>, p: string)
    ensures Flatten(FoldBranches(branches, p).0) == Fold(Flatten(branches), p).0
    ensures FoldBranches(branches, p).1 == Fold(Flatten(branches), p).1
    decreases |branches|
  {
    if branches != [] {
      var init := branches[..|branches| - 1];
      BranchesAsOneList(init, p);
      var (reqs, q) := FoldBranches(init, p);
      assert (reqs + [Fold(branches[|branches| - 1], q).0])[..|reqs|] == reqs;
      FoldAppend(Flatten(init), branches[|branches| - 1], p);
    }
  }

  /** The subject in force after a list of tokens is the first word of its
      last lead token, or the starting subject when it has none. */
  lemma {:induction false} AfterIsLastLead(tokens: seq<Token>, p: string)
    ensures var q := Fold(tokens, p).1;
      (q == p && forall i :: 0 <= i < |tokens| ==> !tokens[i].Lead?) ||
      exists j :: 0 <= j < |tokens| && tokens[j].Lead? && q == tokens[j].subject &&
        forall i :: j < i < |tokens| ==> !tokens[i].Lead?
    decreases |tokens|
  {
    if tokens != [] {
      var init := tokens[..|tokens| - 1];
      AfterIsLastLead(init, p);
      if !tokens[|tokens| - 1].Lead? {
        assert forall i :: 0 <= i < |init| ==> tokens[i] == init[i];
      }
    }
  }

  /** A bare token takes the subject of the last lead token before it, or
      the starting subject, which is the course's own subject for the
      first branch. */
  lemma BareTakesLastLead(tokens: seq<Token>, p: string, k: nat)
    requires k < |tokens| && tokens[k].Bare?
    ensures var q := Fold(tokens[..k], p).1;
      Fold(tokens[..k + 1], p).0 == Fold(tokens[..k], p).0 + [q + " " + tokens[k].code] &&
      ((q == p && forall i :: 0 <= i < k ==> !tokens[i].Lead?) ||
       exists j :: 0 <= j < k && tokens[j].Lead? && q == tokens[j].subject &&
         forall i :: j < i < k ==> !tokens[i].Lead?)
  {
    FoldLast(tokens, k, p);
    AfterIsLastLead(tokens[..k], p);
    assert forall i :: 0 <= i < k ==> tokens[..k][i] == tokens[i];
  }

  /** The fold of two tokens. */
  lemma FoldPair(t: Token, u: Token, p: string)
    ensures Fold([t, u], p) == (Added(t, p) + Added(u, After(t, p)), After(u, After(t, p)))
  {
    assert [t, u][..1] == [t];
    assert [t][..0] == [];
    assert [] + Added(t, p) == Added(t, p);
    assert Fold([t], p) == (Added(t, p), After(t, p));
  }

  /** A lead token followed by a bare one: the bare number takes the lead
      token's first word, so "CMPUT 174 or 175" gives "CMPUT 175". */
  lemma LeadThenBare(lead: string, bare: string, p: string)
    requires Classify(lead).Lead? && Classify(bare).Bare?
    ensures var (c, b) := (Trim(lead), Trim(bare));
      Fold([Classify(lead), Classify(bare)], p) == ([c, Split(c, " ")[0] + " " + b], Split(c, " ")[0])
  {
    var t, u := Classify(lead), Classify(bare);
    FoldPair(t, u, p);
    assert t == Lead(Trim(lead), Split(Trim(lead), " ")[0]) && u == Bare(Trim(bare));
    assert Added(t, p) + Added(u, After(t, p)) == [Trim(lead), Split(Trim(lead), " ")[0] + " " + Trim(bare)];
  }

  /** A scraped course: its name, its description, the text from its
      requisite sentences on, and its parsed prerequisites and
      corequisites; any of them may be missing. */
  datatype Entry = Entry(name: Option<string>, desc: Option<string>, raw: Option<string>,
                         prereqs: Option<seq<seq<string>>>, coreqs: Option<seq<seq<string>>>)

  /** A card mapped to the subject and number of its course. */
  datatype Card = Card(subject: string, number: string, data: Entry)

  const PrereqWord: string := "Prerequisite"
  const CoreqWord: string := "Corequisite"

  /** The entry of a card whose description paragraph has text `text`:
      each requisite sentence found is parsed with the card's subject; the
      raw text starts at the prerequisite sentence, or at the corequisite
      sentence when there is none; the description is the text with the
      raw text replaced once, then trimmed. With no raw text the string
      replaced is "undefined". */
  function Described(name: Option<string>, text: string, subject: string): (e: Entry)
    ensures e.name == name && e.desc.Some?
    ensures e.prereqs.Some? <==> Sentence(text, PrereqWord, ColonRun).Some?
    ensures e.coreqs.Some? <==> Sentence(text, CoreqWord, ColonRun).Some?
    ensures e.raw.Some? <==> e.prereqs.Some? || e.coreqs.Some?
    ensures e.prereqs.Some? ==> e.prereqs.value == Requisites(Sentence(text, PrereqWord, ColonRun).value.1, subject)
    ensures e.coreqs.Some? ==> e.coreqs.value == Requisites(Sentence(text, CoreqWord, ColonRun).value.1, subject)
    ensures e.raw.Some? ==>
      exists i :: 0 <= i < |text| && e.raw.value == text[i..] && (OccursAt(text, PrereqWord, i) || OccursAt(text, CoreqWord, i))
    ensures e.raw.None? && !Contains(text, "undefined") ==> e.desc == Some(Trim(text))
  {
    var pre := Sentence(text, PrereqWord, ColonRun);
    var co := Sentence(text, CoreqWord, ColonRun);
    var raw := if pre.Some? then Some(text[pre.value.0..]) else if co.Some? then Some(text[co.value.0..]) else None;
    Entry(name,
          Some(Trim(ReplaceFirst(text, if raw.Some? then raw.value else "undefined", ""))),
          raw,
          if pre.Some? then Some(Requisites(pre.value.1, subject)) else None,
          if co.Some? then Some(Requisites(co.value.1, subject)) else None)
  }

  /** When the raw text is found first where it starts, the description is
      the text before it, trimmed. */
  lemma DescBeforeRaw(name: Option<string>, text: string, subject: string, i: nat)
    requires i < |text| && Described(name, text, subject).raw == Some(text[i..])
    requires IndexOf(text, text[i..], 0) == i
    ensures Described(name, text, subject).desc == Some(Trim(text[..i]))
  {
    ReplaceSuffix(text, i);
    DescOfRaw(name, text, subject);
  }

  /** Replacing a suffix found first where it starts leaves what precedes it. */
  lemma ReplaceSuffix(text: string, i: nat)
    requires i < |text| && IndexOf(text, text[i..], 0) == i
    ensures ReplaceFirst(text, text[i..], "") == text[..i]
  {
    assert text[..i] + "" + text[i + |text[i..]|..] == text[..i];
  }

  /** With raw text, the description is the text with it replaced once. */
  lemma DescOfRaw(name: Option<string>, text: string, subject: string)
    requires Described(name, text, subject).raw.Some?
    ensures var e := Described(name, text, subject); e.desc == Some(Trim(ReplaceFirst(text, e.raw.value, "")))
  {
  }

  /** The raw text always occurs in the text, no later than where it starts. */
  lemma RawFoundByStart(text: string, i: nat)
    requires i < |text|
    ensures 0 <= IndexOf(text, text[i..], 0) <= i
  {
    assert OccursAt(text, text[i..], i);
  }

  /** The per-card map: a card without a title is skipped; the title is
      trimmed and split on " - " into the code and the name; the code is
      split at its last space into subject and number; the description
      paragraph, when it has text, gives the rest of the entry. */
  function ParseCard(title: Option<string>, text: Option<string>): (r: Option<Card>)
    ensures r.Some? <==> title.Some?
    ensures r.Some? ==> var code := Split(Trim(title.value), " - ")[0];
      (LastIndexOf(code, " ") != -1 ==>
        r.value.subject + " " + r.value.number == code && !Contains(r.value.number, " ")) &&
      (LastIndexOf(code, " ") == -1 ==> r.value.subject == [] && r.value.number == code)
    ensures r.Some? ==> (r.value.data.name.Some? <==> Contains(Trim(title.value), " - "))
    ensures r.Some? && (text.None? || text.value == []) ==>
      r.value.data == Entry(r.value.data.name, None, None, None, None)
    ensures r.Some? && text.Some? && text.value != [] ==>
      r.value.data == Described(r.value.data.name, text.value, r.value.subject)
  {
    if title.None? then None
    else
      var parts := Split(Trim(title.value), " - ");
      var name := if |parts| > 1 then Some(parts[1]) else None;
      var (subject, number) := RSplit(parts[0]);
      var data := if text.None? || text.value == [] then Entry(name, None, None, None, None)
        else Described(name, text.value, subject);
      Some(Card(subject, number, data))
  }

  /** `cards.map(...)` */
  function ParseCourses(cards: seq<(Option<string>, Option<string>)>): (r: seq<Option<Card>>)
    ensures |r| == |cards|
    ensures forall i :: 0 <= i < |cards| ==> r[i] == ParseCard(cards[i].0, cards[i].1)
  {
    seq(|cards|, i requires 0 <= i < |cards| => ParseCard(cards[i].0, cards[i].1))
  }

  /** Courses by subject, then by number. */
  type Courses = map<string, map<string, Entry>>

  /** The grouping of the cards in order: a missing card is skipped, a
      subject's map is created on its first card, and each card's entry is
      stored under its number. */
  function Grouped(cards: seq<Option<Card>>): (r: Courses)
    ensures forall s :: s in r ==> r[s] != map[]
  {
    if cards == [] then map[]
    else
      var g := Grouped(cards[..|cards| - 1]);
      match cards[|cards| - 1]
      case None => g
      case Some(c) =>
        var m := (if c.subject in g then g[c.subject] else map[])[c.number := c.data];
        assert c.number in m;
        g[c.subject := m]
  }

  /** The grouping loop of `scrape_courses`. */
  method Group(cards: seq<Option<Card>>) returns (courses: Courses)
    ensures courses == Grouped(cards)
  {
    courses := map[];
    for i := 0 to |cards|
      invariant courses == Grouped(cards[..i])
    {
      assert cards[..i + 1][..i] == cards[..i];
      if cards[i].None? {
        continue;
      }
      var card := cards[i].value;
      if card.subject !in courses {
        courses := courses[card.subject := map[]];
      }
      courses := courses[card.subject := courses[card.subject][card.number := card.data]];
    }
    assert cards[..|cards|] == cards;
  }

  /** A card's course is in the grouping exactly when some card has its
      subject and number. */
  lemma {:induction false} GroupedHas(cards: seq<Option<Card>>, s: string, n: string)
    ensures (s in Grouped(cards) && n in Grouped(cards)[s]) <==>
      exists i :: 0 <= i < |cards| && cards[i].Some? && cards[i].value.subject == s && cards[i].value.number == n
    decreases |cards|
  {
    if cards != [] {
      var init := cards[..|cards| - 1];
      GroupedHas(init, s, n);
      assert forall i :: 0 <= i < |init| ==> init[i] == cards[i];
    }
  }

  /** A subject is in the grouping exactly when some card has it. */
  lemma {:induction false} GroupedSubjects(cards: seq<Option<Card>>, s: string)
    ensures s in Grouped(cards) <==> exists i :: 0 <= i < |cards| && cards[i].Some? && cards[i].value.subject == s
    decreases |cards|
  {
    if cards != [] {
      var init := cards[..|cards| - 1];
      GroupedSubjects(init, s);
      assert forall i :: 0 <= i < |init| ==> init[i] == cards[i];
    }
  }

  /** The entry stored for a course is the one of its last card: a later
      duplicate overwrites an earlier one. */
  lemma {:induction false} GroupedLastWins(cards: seq<Option<Card>>, i: nat)
    requires i < |cards| && cards[i].Some?
    requires forall j :: i < j < |cards| && cards[j].Some? ==>
      cards[j].value.subject != cards[i].value.subject || cards[j].value.number != cards[i].value.number
    ensures var c := cards[i].value;
      c.subject in Grouped(cards) && c.number in Grouped(cards)[c.subject] &&
      Grouped(cards)[c.subject][c.number] == c.data
    decreases |cards|
  {
    var init := cards[..|cards| - 1];
    if i < |cards| - 1 {
      assert forall j :: 0 <= j < |init| ==> init[j] == cards[j];
      GroupedLastWins(init, i);
    }
  }

  /** The phrases `log_errors` accepts without a code, as written. */
  const Allowed: set<string> := {
    "consent of instructor", "consent of the instructor", "by consent of instructor",
    "by consent of the instructor", "instructor consent", "consent of the instructors",
    "permission of instructor", "permission of the instructor",
    "written permission of instructor", "written permission of the instructor",
    "consent from the course coordinator", "consent from the course coordinators",
    "consent of the associate chair", "consent of department", "consent of the department",
    "consent of the department chair", "department consent", "departmental consent",
    "departmental permission", "permission of department", "permission of the department",
    "with consent of department", "with consent of the department", "consent of program",
    "consent of program coordinator", "consent of the program director",
    "with the consent of the program director(s)", "with the permission of the program director",
    "consent of faculty", "consent of the faculty", "with faculty consent", "consent of division",
    "equivalent", "equivalents", "equivalent knowledge", "varies according to topic",
    "based on audition", "are determined by the instructor in the course outline",
    "with a sufficient score on the on-line placement test",
    "consent of the instructor(s) based on successful completion of the selection process",
    "consent of the instructors based on successful completion of the selection process",
    "None", "other approved course", "consent of the Department of Medical Genetics"}

  /** The test of `log_errors` as written: a requisite that is not
      code-like is logged unless its lower-case form is one of the phrases
      as they are written. */
  predicate LoggedAsWritten(r: string) {
    !CodeLike(r) && Lower(r) !in Allowed
  }

  /** "None" is an accepted phrase, yet a requisite "None" is logged: its
      lower-case form "none" is not in the list. */
  lemma NoneLoggedAsWritten()
    ensures "None" in Allowed && LoggedAsWritten("None")
  {
    var r := "None";
    CodeLikeWindow(r);
    assert Lower(r) == "none";
  }

  /** The accepted phrases in lower case, as the comparison needs them. */
  const AllowedLower: set<string> := set a | a in Allowed :: Lower(a)

  /** The test of `log_errors` with the phrases compared in lower case. */
  predicate Logged(r: string) {
    !CodeLike(r) && Lower(r) !in AllowedLower
  }

  /** No spelling of an accepted phrase is logged, whatever its case. */
  lemma AllowedNotLogged(a: string, r: string)
    requires a in Allowed && Lower(r) == Lower(a)
    ensures !Logged(r)
  {
  }

  /** The corrected test logs only what the test as written logs. */
  lemma LoggedIsLoggedAsWritten(r: string)
    ensures Logged(r) ==> LoggedAsWritten(r)
  {
    if Lower(r) in Allowed {
      LowerLower(r);
      assert Lower(Lower(r)) in AllowedLower;
    }
  }

  lemma LowerLower(s: string)
    ensures Lower(Lower(s)) == Lower(s)
  {
    forall i | 0 <= i < |s| ensures Lower(Lower(s))[i] == Lower(s)[i] {
      LowerCharIdle(s[i]);
    }
  }

  lemma LowerCharIdle(c: char)
    ensures LowerChar(LowerChar(c)) == LowerChar(c)
  {
  }

  /** The line logged for a requisite of course `c` of subject `s`. */
  function Line(s: string, c: string, r: string): (l: string)
    ensures l != []
  {
    s + " " + c + " | " + r + "\n"
  }

  /** The lines of the logged requisites of one group, in order. */
  function GroupErrors(logged: string -> bool, s: string, c: string, group: seq<string>): string {
    if group == [] then []
    else
      var r := group[|group| - 1];
      GroupErrors(logged, s, c, group[..|group| - 1]) + (if logged(r) then Line(s, c, r) else [])
  }

  /** The lines of the groups of one requisite list, in order. */
  function ListErrors(logged: string -> bool, s: string, c: string, lists: seq<seq<string>>): string {
    if lists == [] then [] else ListErrors(logged, s, c, lists[..|lists| - 1]) + GroupErrors(logged, s, c, lists[|lists| - 1])
  }

  /** The lines of the requisite lists a course has, of the types in order. */
  function TypeErrors(logged: string -> bool, s: string, c: string, types: seq<Option<seq<seq<string>>>>): string {
    if types == [] then []
    else
      var t := types[|types| - 1];
      TypeErrors(logged, s, c, types[..|types| - 1]) + (if t.Some? then ListErrors(logged, s, c, t.value) else [])
  }

  /** The two requisite types of a course, prerequisites first. */
  function Types(e: Entry): seq<Option<seq<seq<string>>>> {
    [e.prereqs, e.coreqs]
  }

  /** The lines of the courses of one subject, in the order given. */
  function SubjectErrors(logged: string -> bool, s: string, courses: map<string, Entry>, numbers: seq<string>): string
    requires forall i :: 0 <= i < |numbers| ==> numbers[i] in courses
  {
    if numbers == [] then []
    else
      var c := numbers[|numbers| - 1];
      SubjectErrors(logged, s, courses, numbers[..|numbers| - 1]) + TypeErrors(logged, s, c, Types(courses[c]))
  }

  /** Orders that list the subjects and, per subject, the numbers. */
  predicate Orders(data: Courses, subjects: seq<string>, numbers: map<string, seq<string>>) {
    G.Enumerates(subjects, data.Keys) &&
    forall s :: s in data ==> s in numbers && G.Enumerates(numbers[s], data[s].Keys)
  }

  /** Every subject and number the orders give is in the data. */
  predicate Within(data: Courses, subjects: seq<string>, numbers: map<string, seq<string>>) {
    forall i :: 0 <= i < |subjects| ==> InData(data, subjects[i], numbers)
  }

  predicate InData(data: Courses, s: string, numbers: map<string, seq<string>>) {
    s in data && s in numbers && forall j :: 0 <= j < |numbers[s]| ==> numbers[s][j] in data[s]
  }

  /** The whole log, the subjects and numbers in the orders given. */
  function Errors(logged: string -> bool, data: Courses, subjects: seq<string>, numbers: map<string, seq<string>>): string
    requires Within(data, subjects, numbers)
  {
    if subjects == [] then []
    else
      var s := subjects[|subjects| - 1];
      Errors(logged, data, subjects[..|subjects| - 1], numbers) + SubjectErrors(logged, s, data[s], numbers[s])
  }

  /** `log_errors`: the loops over the subjects and their courses, in the
      orders in which the entries of the data are visited. */
  method LogErrors(data: Courses, subjects: seq<string>, numbers: map<string, seq<string>>) returns (errors: string)
    requires Orders(data, subjects, numbers)
    ensures Within(data, subjects, numbers)
    ensures errors == Errors(LoggedAsWritten, data, subjects, numbers)
  {
    errors := [];
    for i := 0 to |subjects|
      invariant Within(data, subjects[..i], numbers)
      invariant errors == Errors(LoggedAsWritten, data, subjects[..i], numbers)
    {
      assert subjects[..i + 1][..i] == subjects[..i];
      var s := subjects[i];
      var more := LogSubject(s, data[s], numbers[s]);
      errors := errors + more;
    }
    assert subjects[..|subjects|] == subjects;
  }

  /** The loop over the courses of one subject. */
  method LogSubject(s: string, courses: map<string, Entry>, order: seq<string>) returns (errors: string)
    requires forall j :: 0 <= j < |order| ==> order[j] in courses
    ensures errors == SubjectErrors(LoggedAsWritten, s, courses, order)
  {
    errors := [];
    for j := 0 to |order|
      invariant errors == SubjectErrors(LoggedAsWritten, s, courses, order[..j])
    {
      assert order[..j + 1][..j] == order[..j];
      var c := order[j];
      var more := LogCourse(s, c, courses[c]);
      errors := errors + more;
    }
    assert order[..|order|] == order;
  }

  /** The loop over the requisite types of one course: prerequisites, then
      corequisites, each only when the course has them. */
  method LogCourse(s: string, c: string, course: Entry) returns (errors: string)
    ensures errors == TypeErrors(LoggedAsWritten, s, c, Types(course))
  {
    var types := Types(course);
    errors := [];
    for t := 0 to |types|
      invariant errors == TypeErrors(LoggedAsWritten, s, c, types[..t])
    {
      assert types[..t + 1][..t] == types[..t];
      if types[t].Some? {
        var more := LogList(s, c, types[t].value);
        errors := errors + more;
      } else {
        assert errors + [] == errors;
      }
    }
    assert types[..|types|] == types;
  }

  /** The loop over the groups of one requisite list. */
  method LogList(s: string, c: string, lists: seq<seq<string>>) returns (errors: string)
    ensures errors == ListErrors(LoggedAsWritten, s, c, lists)
  {
    errors := [];
    for g := 0 to |lists|
      invariant errors == ListErrors(LoggedAsWritten, s, c, lists[..g])
    {
      assert lists[..g + 1][..g] == lists[..g];
      var more := LogGroup(s, c, lists[g]);
      errors := errors + more;
    }
    assert lists[..|lists|] == lists;
  }

  /** The loop over the requisites of one group: a code-like requisite is
      passed over, then one whose lower-case form is one of the accepted
      phrases as they are written; any other is logged. */
  method LogGroup(s: string, c: string, requisites: seq<string>) returns (errors: string)
    ensures errors == GroupErrors(LoggedAsWritten, s, c, requisites)
  {
    errors := [];
    for k := 0 to |requisites|
      invariant errors == GroupErrors(LoggedAsWritten, s, c, requisites[..k])
    {
      assert requisites[..k + 1][..k] == requisites[..k];
      var requisite := requisites[k];
      if CodeLike(requisite) {
        assert errors + [] == errors;
      } else if Lower(requisite) in Allowed {
        assert errors + [] == errors;
      } else {
        errors := errors + Line(s, c, requisite);
      }
    }
    assert requisites[..|requisites|] == requisites;
  }

  predicate GroupClean(logged: string -> bool, group: seq<string>) {
    forall k :: 0 <= k < |group| ==> !logged(group[k])
  }

  predicate ListClean(logged: string -> bool, lists: seq<seq<string>>) {
    forall g :: 0 <= g < |lists| ==> GroupClean(logged, lists[g])
  }

  predicate TypesClean(logged: string -> bool, types: seq<Option<seq<seq<string>>>>) {
    forall t :: 0 <= t < |types| && types[t].Some? ==> ListClean(logged, types[t].value)
  }

  /** No requisite of the course would be logged. */
  predicate Clean(logged: string -> bool, e: Entry) {
    TypesClean(logged, Types(e))
  }

  lemma {:induction false} GroupErrorsEmpty(logged: string -> bool, s: string, c: string, group: seq<string>)
    ensures GroupErrors(logged, s, c, group) == [] <==> GroupClean(logged, group)
    decreases |group|
  {
    if group != [] {
      var init := group[..|group| - 1];
      GroupErrorsEmpty(logged, s, c, init);
      assert forall k :: 0 <= k < |init| ==> init[k] == group[k];
    }
  }

  lemma {:induction false} ListErrorsEmpty(logged: string -> bool, s: string, c: string, lists: seq<seq<string>>)
    ensures ListErrors(logged, s, c, lists) == [] <==> ListClean(logged, lists)
    decreases |lists|
  {
    if lists != [] {
      var init := lists[..|lists| - 1];
      ListErrorsEmpty(logged, s, c, init);
      GroupErrorsEmpty(logged, s, c, lists[|lists| - 1]);
      assert forall g :: 0 <= g < |init| ==> init[g] == lists[g];
    }
  }

  lemma {:induction false} TypeErrorsEmpty(logged: string -> bool, s: string, c: string, types: seq<Option<seq<seq<string>>>>)
    ensures TypeErrors(logged, s, c, types) == [] <==> TypesClean(logged, types)
    decreases |types|
  {
    if types != [] {
      var init, last := types[..|types| - 1], types[|types| - 1];
      TypeErrorsEmpty(logged, s, c, init);
      assert forall t :: 0 <= t < |init| ==> init[t] == types[t];
      assert TypesClean(logged, types) <==> TypesClean(logged, init) && (last.Some? ==> ListClean(logged, last.value));
      if last.Some? {
        ListErrorsEmpty(logged, s, c, last.value);
      }
    }
  }

  lemma {:induction false} SubjectErrorsEmpty(logged: string -> bool, s: string, courses: map<string, Entry>, numbers: seq<string>)
    requires forall j :: 0 <= j < |numbers| ==> numbers[j] in courses
    ensures SubjectErrors(logged, s, courses, numbers) == [] <==> forall j :: 0 <= j < |numbers| ==> Clean(logged, courses[numbers[j]])
    decreases |numbers|
  {
    if numbers != [] {
      var init := numbers[..|numbers| - 1];
      var c := numbers[|numbers| - 1];
      SubjectErrorsEmpty(logged, s, courses, init);
      TypeErrorsEmpty(logged, s, c, Types(courses[c]));
      assert forall j :: 0 <= j < |init| ==> init[j] == numbers[j];
    }
  }

  lemma {:induction false} ErrorsEmptyPrefix(logged: string -> bool, data: Courses, subjects: seq<string>, numbers: map<string, seq<string>>)
    requires Within(data, subjects, numbers)
    ensures Errors(logged, data, subjects, numbers) == [] <==>
      forall i, j :: 0 <= i < |subjects| && 0 <= j < |numbers[subjects[i]]| ==>
        Clean(logged, data[subjects[i]][numbers[subjects[i]][j]])
    decreases |subjects|
  {
    if subjects != [] {
      var init := subjects[..|subjects| - 1];
      var s := subjects[|subjects| - 1];
      assert forall i :: 0 <= i < |init| ==> init[i] == subjects[i];
      ErrorsEmptyPrefix(logged, data, init, numbers);
      SubjectErrorsEmpty(logged, s, data[s], numbers[s]);
    }
  }

  /** A course clean under a test is clean under any test that logs less. */
  lemma CleanMono(p: string -> bool, q: string -> bool, e: Entry)
    requires forall r :: q(r) ==> p(r)
    requires Clean(p, e)
    ensures Clean(q, e)
  {
  }

  /** A course the log as written passes over is passed over by the
      corrected test too. */
  lemma CleanAsWrittenIsClean(e: Entry)
    requires Clean(LoggedAsWritten, e)
    ensures Clean(Logged, e)
  {
    forall r ensures Logged(r) ==> LoggedAsWritten(r) {
      LoggedIsLoggedAsWritten(r);
    }
    CleanMono(LoggedAsWritten, Logged, e);
  }

  /** The log is empty exactly when no requisite of any course would be
      logged. */
  lemma ErrorsEmpty(logged: string -> bool, data: Courses, subjects: seq<string>, numbers: map<string, seq<string>>)
    requires Orders(data, subjects, numbers)
    ensures Within(data, subjects, numbers)
    ensures Errors(logged, data, subjects, numbers) == [] <==>
      forall s, c :: s in data && c in data[s] ==> Clean(logged, data[s][c])
  {
    ErrorsEmptyPrefix(logged, data, subjects, numbers);
    if Errors(logged, data, subjects, numbers) == [] {
      forall s, c | s in data && c in data[s] ensures Clean(logged, data[s][c]) {
        var i :| 0 <= i < |subjects| && subjects[i] == s;
        var j :| 0 <= j < |numbers[s]| && numbers[s][j] == c;
      }
    }
  }
}
