/** The extractor run in the browser on a catalogue page: the requisite
    sentences of each course card parsed into lists of codes, one record per
    course number, and the records stored under a key derived from the
    page's address. Its requisite parser differs from the scraper's: the
    separators are plain substrings ("and ", "; ", ",", "or") with no word
    boundary, only "one of" and "One of" are removed, there are no generic
    phrases, and the subject of bare numbers starts empty in every list. */
module Extract {
  import opened Text
  import opened Util
  import opened Patterns
  import Scraper

  /** The test of `parse_reqlist` on one token, trimmed again: blank, a
      token starting with an ASCII letter, which is kept and whose first
      word becomes the subject of later bare tokens, or a bare token. */
  function Classify(code: string): (t: Scraper.Token)
    ensures !t.Generic? && Scraper.Sound(t)
    ensures t.Blank? <==> Trim(code) == []
    ensures t.Lead? ==> t.code == Trim(code) && IsLetter(t.code[0]) && t.subject == Split(t.code, " ")[0]
    ensures t.Bare? ==> t.code == Trim(code) && !IsLetter(t.code[0])
  {
    var c := Trim(code);
    if c == [] then Scraper.Blank
    else if IsLetter(c[0]) then Scraper.Lead(c, Before(c, " "))
    else Scraper.Bare(c)
  }

  /** The tokens of a list: split on "," and on the substring "or", each
      piece trimmed and classified. */
  function Tokens(reqlist: string): (r: seq<Scraper.Token>)
    ensures |r| == |Pieces(OrAny, reqlist)|
    ensures forall i :: 0 <= i < |r| ==> !r[i].Generic? && Scraper.Sound(r[i])
  {
    Classified(Scraper.TrimAll(Pieces(OrAny, reqlist)))
  }

  function Classified(codes: seq<string>): (r: seq<Scraper.Token>)
    ensures |r| == |codes|
    ensures forall i :: 0 <= i < |r| ==> r[i] == Classify(codes[i])
  {
    seq(|codes|, i requires 0 <= i < |codes| => Classify(codes[i]))
  }

  /** `parse_reqlist(reqlist)`: the tokens folded with the subject starting
      at "". */
  function ReqList(reqlist: string): seq<string> {
    Scraper.Fold(Tokens(reqlist), "").0
  }

  /** `parse_reqs(reqtext)`: one list per piece of the split on "and " or
      "; ", each trimmed and rid of its first "one of" or "One of". */
  function Reqs(reqtext: string): (r: seq<seq<string>>)
    ensures |r| == |Pieces(AndSpace, reqtext)|
  {
    Lists(Pieces(AndSpace, reqtext))
  }

  /** The list of each branch. */
  function Lists(branches: seq<string>): (r: seq<seq<string>>)
    ensures |r| == |branches|
    ensures forall i :: 0 <= i < |branches| ==> r[i] == ReqList(DropOneOf(SpelledOneOf, Trim(branches[i])))
  {
    seq(|branches|, i requires 0 <= i < |branches| => ReqList(DropOneOf(SpelledOneOf, Trim(branches[i]))))
  }

  /** `parse_reqlist`: the pieces trimmed, then the loop. */
  method ParseReqList(reqlist: string) returns (group: seq<string>)
    ensures group == ReqList(reqlist)
  {
    var codes := Scraper.TrimAll(Pieces(OrAny, reqlist));
    group := ParseCodes(codes);
  }

  /** The loop of `parse_reqlist`, with its mutable `prev`. */
  method ParseCodes(codes: seq<string>) returns (group: seq<string>)
    ensures group == Scraper.Fold(Classified(codes), "").0
  {
    ghost var tokens := Classified(codes);
    group := [];
    var prev := "";
    assert tokens[..0] == [];
    for c := 0 to |codes|
      invariant (group, prev) == Scraper.Fold(tokens[..c], "")
    {
      Scraper.FoldLast(tokens, c, "");
      group, prev := ListStep(codes[c], group, prev);
    }
    assert tokens[..|codes|] == tokens;
  }

  /** One token of `parse_reqlist`: trimmed, skipped when empty, kept and
      taken as the new subject when it starts with a letter, and put
      behind the subject otherwise. */
  method ListStep(token: string, group0: seq<string>, prev0: string) returns (group: seq<string>, prev: string)
    ensures group == group0 + Scraper.Added(Classify(token), prev0)
    ensures prev == Scraper.After(Classify(token), prev0)
  {
    group, prev := group0, prev0;
    var code := Trim(token);
    if |code| > 0 {
      if IsLetter(code[0]) {
        prev := Before(code, " ");
        group := group + [code];
      } else {
        group := group + [prev + " " + code];
      }
    } else {
      assert group + [] == group;
    }
  }

  /** The loop of `parse_reqs` over the branches. */
  method ParseReqs(reqtext: string) returns (reqs: seq<seq<string>>)
    ensures reqs == Reqs(reqtext)
  {
    reqs := ParseBranches(Pieces(AndSpace, reqtext));
  }

  method ParseBranches(branches: seq<string>) returns (reqs: seq<seq<string>>)
    ensures reqs == Lists(branches)
  {
    ghost var all := Lists(branches);
    reqs := [];
    for b := 0 to |branches|
      invariant reqs == all[..b]
    {
      var branch := DropOneOf(SpelledOneOf, Trim(branches[b]));
      var group := ParseReqList(branch);
      assert group == all[b];
      Snoc(all, b);
      reqs := reqs + [group];
    }
    assert all[..|branches|] == all;
  }

  lemma Snoc<T>(all: seq<T>, b: nat)
    requires b < |all|
    ensures all[..b] + [all[b]] == all[..b + 1]
  {
  }

  /** No requisite of any list is empty: blank tokens are dropped and a
      bare one keeps at least the space. */
  lemma ReqsNoBlank(reqtext: string)
    ensures forall i :: 0 <= i < |Reqs(reqtext)| ==> Scraper.NoBlank(Reqs(reqtext)[i])
  {
    var branches := Pieces(AndSpace, reqtext);
    forall i | 0 <= i < |branches| ensures Scraper.NoBlank(Reqs(reqtext)[i]) {
      var list := DropOneOf(SpelledOneOf, Trim(branches[i]));
      Scraper.FoldNoEmpty(Tokens(list), "");
    }
  }

  /** A bare token takes the first word of the last letter-initial token
      before it in the same list, and nothing but the space when there is
      none: the subject never crosses from one list into the next. */
  lemma BareTakesLeadOrNothing(reqlist: string, k: nat)
    requires k < |Tokens(reqlist)| && Tokens(reqlist)[k].Bare?
    ensures var ts := Tokens(reqlist); var q := Scraper.Fold(ts[..k], "").1;
      Scraper.Fold(ts[..k + 1], "").0 == Scraper.Fold(ts[..k], "").0 + [q + " " + ts[k].code] &&
      ((q == "" && forall i :: 0 <= i < k ==> !ts[i].Lead?) ||
       exists j :: 0 <= j < k && ts[j].Lead? && q == Split(ts[j].code, " ")[0] &&
         forall i :: j < i < k ==> !ts[i].Lead?)
  {
    var ts := Tokens(reqlist);
    Scraper.BareTakesLastLead(ts, "", k);
    var q := Scraper.Fold(ts[..k], "").1;
    if !(q == "" && forall i :: 0 <= i < k ==> !ts[i].Lead?) {
      var j :| 0 <= j < k && ts[j].Lead? && q == ts[j].subject && forall i :: j < i < k ==> !ts[i].Lead?;
      LeadSubject(reqlist, j);
    }
  }

  /** A letter-initial token's subject is the first word of its code. */
  lemma LeadSubject(reqlist: string, j: nat)
    requires j < |Tokens(reqlist)| && Tokens(reqlist)[j].Lead?
    ensures Tokens(reqlist)[j].subject == Split(Tokens(reqlist)[j].code, " ")[0]
  {
    TokenAt(reqlist, j);
  }

  /** A list that opens with a bare number: its first requisite is the
      number behind a lone space, so "174 or CMPUT 175" gives " 174" first. */
  lemma LeadingBare(reqlist: string)
    requires Tokens(reqlist)[0].Bare?
    ensures |ReqList(reqlist)| >= 1 && ReqList(reqlist)[0] == " " + Trim(Pieces(OrAny, reqlist)[0])
  {
    var piece := Trim(Pieces(OrAny, reqlist)[0]);
    TokenAt(reqlist, 0);
    TrimIdle(piece);
    FoldFirstBare(Tokens(reqlist), "");
  }

  /** Token `j` of a list is piece `j` trimmed and classified. */
  lemma TokenAt(reqlist: string, j: nat)
    requires j < |Tokens(reqlist)|
    ensures Tokens(reqlist)[j] == Classify(Trim(Pieces(OrAny, reqlist)[j]))
  {
    var codes := Scraper.TrimAll(Pieces(OrAny, reqlist));
    assert codes[j] == Trim(Pieces(OrAny, reqlist)[j]);
    assert Tokens(reqlist)[j] == Classified(codes)[j];
  }

  /** A fold that starts with a bare token starts with that token behind
      the starting subject. */
  lemma FoldFirstBare(ts: seq<Scraper.Token>, p: string)
    requires ts != [] && ts[0].Bare?
    ensures Scraper.Fold(ts, p).0 == [p + " " + ts[0].code] + Scraper.Fold(ts[1..], p).0
    ensures p == "" ==> Scraper.Fold(ts, p).0[0] == " " + ts[0].code
  {
    Scraper.FoldLast(ts, 0, p);
    assert ts[..0] == [];
    assert [] + Scraper.Added(ts[0], p) == [p + " " + ts[0].code];
    Scraper.FoldAppend(ts[..1], ts[1..], p);
    assert ts[..1] + ts[1..] == ts;
    assert p == "" ==> p + " " == " ";
  }

  /** The same for a branch of a requisite sentence: whatever the branches
      before it named, a branch opening with a bare number gives it
      behind a lone space. */
  lemma BranchStartsFresh(reqtext: string, i: nat)
    requires i < |Pieces(AndSpace, reqtext)|
    requires Tokens(DropOneOf(SpelledOneOf, Trim(Pieces(AndSpace, reqtext)[i])))[0].Bare?
    ensures var list := DropOneOf(SpelledOneOf, Trim(Pieces(AndSpace, reqtext)[i]));
      |Reqs(reqtext)[i]| >= 1 && Reqs(reqtext)[i][0] == " " + Trim(Pieces(OrAny, list)[0])
  {
    LeadingBare(DropOneOf(SpelledOneOf, Trim(Pieces(AndSpace, reqtext)[i])));
  }

  /** "or" splits wherever it occurs, inside words too: for a piece `a`
      with neither a comma nor an "o", `a + "or" + b` is cut right after
      `a`, so "Calculus for Engineers" gives "Calculus f" first. */
  lemma OrSplitsInsideWords(a: string, b: string)
    requires forall i :: 0 <= i < |a| ==> a[i] != ',' && a[i] != 'o'
    ensures var s := a + "or" + b;
      Pieces(OrAny, s) == [a] + PiecesFrom(Sep(OrAny), s, |a| + 2)
  {
    var s := a + "or" + b;
    assert a <= s;
    NoOrIn(s, a);
    assert s[|a|] == 'o' && s[|a| + 1] == 'r';
    OrAt(s, |a|);
    FirstPieceIs(Sep(OrAny), s, a, 2);
  }

  /** "and " splits inside words too: for a piece `a` with neither an "a"
      nor a ";", `a + "and " + b` is cut right after `a`, so "Band 3" gives
      "B" and "3". */
  lemma AndSplitsInsideWords(a: string, b: string)
    requires forall i :: 0 <= i < |a| ==> a[i] != ';' && a[i] != 'a'
    ensures var s := a + "and " + b;
      Pieces(AndSpace, s) == [a] + PiecesFrom(Sep(AndSpace), s, |a| + 4)
  {
    var s := a + "and " + b;
    AndJoined(a, b);
    NoAndIn(s, a);
    AndAt(s, |a|);
    assert Sep(AndSpace)(s, |a|) == 4;
    FirstPieceIs(Sep(AndSpace), s, a, 4);
  }

  /** `a + "and " + b` holds `a` and then the letters of "and ". */
  lemma AndJoined(a: string, b: string)
    ensures var s := a + "and " + b;
      a <= s && |a| + 4 <= |s| &&
      s[|a|] == 'a' && s[|a| + 1] == 'n' && s[|a| + 2] == 'd' && s[|a| + 3] == ' '
  {
    var s := a + "and " + b;
    assert s[..|a|] == a;
  }

  lemma NoOrIn(s: string, a: string)
    requires a <= s && forall i :: 0 <= i < |a| ==> a[i] != ',' && a[i] != 'o'
    ensures forall i :: 0 <= i < |a| ==> Sep(OrAny)(s, i) == 0
  {
    forall i | 0 <= i < |a| ensures Sep(OrAny)(s, i) == 0 {
      NoOrBefore(s, a, i);
    }
  }

  lemma NoAndIn(s: string, a: string)
    requires a <= s && forall i :: 0 <= i < |a| ==> a[i] != ';' && a[i] != 'a'
    ensures forall i :: 0 <= i < |a| ==> Sep(AndSpace)(s, i) == 0
  {
    forall i | 0 <= i < |a| ensures Sep(AndSpace)(s, i) == 0 {
      NoAndBefore(s, a, i);
    }
  }

  lemma NoOrBefore(s: string, a: string, i: nat)
    requires a <= s && i < |a| && a[i] != ',' && a[i] != 'o'
    ensures DelimLen(OrAny, s, i) == 0
  {
    NoMatchBefore(s, a, i, ',', 'o');
    assert !OccursAt(s, "or", i);
  }

  lemma NoAndBefore(s: string, a: string, i: nat)
    requires a <= s && i < |a| && a[i] != ';' && a[i] != 'a'
    ensures DelimLen(AndSpace, s, i) == 0
  {
    NoMatchBefore(s, a, i, ';', 'a');
    assert !OccursAt(s, "and ", i);
    NoMatchBefore(s, a, i, ';', ';');
    assert !OccursAt(s, "; ", i);
  }

  lemma OrAt(s: string, i: nat)
    requires i + 2 <= |s| && s[i] == 'o' && s[i + 1] == 'r'
    ensures DelimLen(OrAny, s, i) == 2
  {
    assert s[i..i + 2] == "or";
    assert s[i..i + 1] != ",";
  }

  lemma AndAt(s: string, i: nat)
    requires i + 4 <= |s| && s[i] == 'a' && s[i + 1] == 'n' && s[i + 2] == 'd' && s[i + 3] == ' '
    ensures DelimLen(AndSpace, s, i) == 4
  {
    assert s[i..i + 4] == "and ";
  }

  /** A character of `a` that is neither `c` nor `d` starts no one-character
      match of `c` and no longer match beginning with `d`. */
  lemma NoMatchBefore(s: string, a: string, i: nat, c: char, d: char)
    requires a <= s && i < |a| && a[i] != c && a[i] != d
    ensures !OccursAt(s, [c], i)
    ensures forall w: string :: w != [] && w[0] == d ==> !OccursAt(s, w, i)
  {
    assert s[i] == a[i];
    assert i + 1 <= |s| ==> s[i..i + 1][0] == s[i];
    forall w: string | w != [] && w[0] == d ensures !OccursAt(s, w, i) {
      if i + |w| <= |s| {
        assert s[i..i + |w|][0] == s[i];
      }
    }
  }

  /** The course number: the last piece of the code split on spaces. */
  function Number(code: string): (n: string)
    ensures !Contains(n, " ")
  {
    var words := Split(code, " ");
    SplitPiecesFree(code, " ", |words| - 1);
    words[|words| - 1]
  }

  /** The number is everything after the last space of the code. */
  lemma {:induction false} NumberAfterLastSpace(code: string)
    ensures LastIndexOf(code, " ") + 1 <= |code|
    ensures Number(code) == code[LastIndexOf(code, " ") + 1..]
    decreases |code|
  {
    var k := IndexOf(code, " ", 0);
    if k == -1 {
      NumberWithoutSpace(code);
    } else {
      var rest := code[k + 1..];
      NumberOfRest(code, k);
      NumberAfterLastSpace(rest);
      LastIndexStep(code, k);
      AfterLastSpaceOfRest(code, k);
    }
  }

  /** A code without a space is its own number. */
  lemma NumberWithoutSpace(code: string)
    requires IndexOf(code, " ", 0) == -1
    ensures LastIndexOf(code, " ") == -1 && Number(code) == code
  {
    assert Split(code, " ") == [code];
    assert forall j :: !OccursAt(code, " ", j);
  }

  /** What follows the last space of a code, past its first space `k`, is
      what follows the last space of the rest. */
  lemma AfterLastSpaceOfRest(code: string, k: nat)
    requires k < |code|
    requires var l := LastIndexOf(code[k + 1..], " ");
      l + 1 <= |code| - (k + 1) && LastIndexOf(code, " ") == if l == -1 then k else k + 1 + l
    ensures var l := LastIndexOf(code[k + 1..], " ");
      code[LastIndexOf(code, " ") + 1..] == code[k + 1..][l + 1..]
  {
  }

  /** The number of a code is the number of what follows its first space. */
  lemma NumberOfRest(code: string, k: int)
    requires k == IndexOf(code, " ", 0) && k != -1
    ensures Number(code) == Number(code[k + 1..])
  {
    var rest := code[k + 1..];
    var words := Split(rest, " ");
    assert Split(code, " ") == [code[..k]] + words;
    assert ([code[..k]] + words)[|words|] == words[|words| - 1];
  }

  /** The last space of a code is the last space after its first one. */
  lemma LastIndexStep(code: string, k: int)
    requires k == IndexOf(code, " ", 0) && k != -1
    ensures var l := LastIndexOf(code[k + 1..], " ");
      LastIndexOf(code, " ") == if l == -1 then k else k + 1 + l
  {
    var rest := code[k + 1..];
    var l := LastIndexOf(rest, " ");
    var last := if l == -1 then k else k + 1 + l;
    assert OccursAt(code, " ", last) by {
      if l != -1 {
        OccursShift(code, " ", k + 1, last);
      }
    }
    forall j | last < j ensures !OccursAt(code, " ", j) {
      OccursShift(code, " ", k + 1, j);
    }
    LastIndexIs(code, " ", last);
  }

  lemma LastIndexIs(s: string, pat: string, r: int)
    requires OccursAt(s, pat, r) && forall j :: r < j ==> !OccursAt(s, pat, j)
    ensures LastIndexOf(s, pat) == r
  {
  }

  /** The extractor and the scraper agree on a course's number: the last
      piece of the split on spaces is what `rsplit` puts after the last
      space. */
  lemma NumbersAgree(code: string)
    ensures Number(code) == RSplit(code).1
  {
    NumberAfterLastSpace(code);
    assert code[0..] == code;
  }

  /** One course card: the text of its heading and, when the card has a
      description paragraph, that paragraph's text. */
  datatype Card = Card(heading: string, text: Option<string>)

  /** What the extractor stores for a course: its name, when the heading
      has one, and the lists of each requisite sentence found. */
  datatype Record = Record(name: Option<string>, prereqs: Option<seq<seq<string>>>, coreqs: Option<seq<seq<string>>>)

  /** The number a card is stored under: the heading's first " - " piece
      is the code. */
  function NumberOf(card: Card): (n: string)
    ensures !Contains(n, " ")
  {
    Number(Split(Trim(card.heading), " - ")[0])
  }

  /** The name of a heading: the second " - " piece of the trimmed
      heading, when there is one. */
  function NameOf(heading: string): (r: Option<string>)
    ensures r.Some? <==> Contains(Trim(heading), " - ")
    ensures r.Some? ==> !Contains(r.value, " - ")
  {
    var parts := Split(Trim(heading), " - ");
    if |parts| > 1 then SplitPiecesFree(Trim(heading), " - ", 1); Some(parts[1]) else None
  }

  /** The lists of one requisite sentence, `Prerequisites*: ` or
      `Corequisites*: ` with exactly one colon and up to the first dot, when
      the card has a paragraph and the sentence is found in it. */
  function Found(text: Option<string>, word: string): (r: Option<seq<seq<string>>>)
    ensures text.None? ==> r.None?
    ensures text.Some? ==> var s := Sentence(text.value, word, OneColon);
      (r.Some? <==> s.Some?) && (s.Some? ==> r.value == Reqs(s.value.1))
  {
    if text.None? then None
    else
      var s := Sentence(text.value, word, OneColon);
      if s.Some? then Some(Reqs(s.value.1)) else None
  }

  /** A card's record. */
  function RecordOf(card: Card): Record {
    Record(NameOf(card.heading), Found(card.text, Scraper.PrereqWord), Found(card.text, Scraper.CoreqWord))
  }

  /** The records of a page, course number to record. */
  type Subject = map<string, Record>

  /** Each card under its number. */
  function Keyed(cards: seq<Card>): (r: seq<(string, Record)>)
    ensures |r| == |cards|
    ensures forall i :: 0 <= i < |cards| ==> r[i] == (NumberOf(cards[i]), RecordOf(cards[i]))
  {
    seq(|cards|, i requires 0 <= i < |cards| => (NumberOf(cards[i]), RecordOf(cards[i])))
  }

  /** Entries stored in order into an object: each one replaces whatever
      an earlier entry with the same key left. */
  function Stored<V>(entries: seq<(string, V)>): map<string, V> {
    if entries == [] then map[]
    else
      var (k, v) := entries[|entries| - 1];
      Stored(entries[..|entries| - 1])[k := v]
  }

  /** The records of a page's cards. */
  function Subjects(cards: seq<Card>): (r: Subject)
    ensures forall n :: n in r ==> !Contains(n, " ")
  {
    var keyed := Keyed(cards);
    assert forall n :: n in Stored(keyed) ==> exists i :: 0 <= i < |keyed| && keyed[i].0 == n by {
      forall n | n in Stored(keyed) ensures exists i :: 0 <= i < |keyed| && keyed[i].0 == n {
        StoredHas(keyed, n);
      }
    }
    Stored(keyed)
  }

  /** The loop over the cards. */
  method ExtractCards(cards: seq<Card>) returns (subject: Subject)
    ensures subject == Subjects(cards)
  {
    ghost var keyed := Keyed(cards);
    subject := map[];
    for i := 0 to |cards|
      invariant subject == Stored(keyed[..i])
    {
      StoredLast(keyed, i);
      subject := AddCard(subject, cards[i]);
    }
    assert keyed[..|cards|] == keyed;
  }

  /** The body of the loop over the cards: the record is created with the
      name alone and the requisites are attached to it afterwards; it is
      the object stored under the number, so the map ends up holding the
      record as filled in. */
  method AddCard(subject0: Subject, card: Card) returns (subject: Subject)
    ensures subject == subject0[NumberOf(card) := RecordOf(card)]
  {
    var number, name := ReadHeading(card.heading);
    var record := Record(name, None, None);
    record := Attach(record, card.text);
    subject := subject0[number := record];
  }

  /** The heading trimmed and split on " - " into the code and the name,
      and the number taken from the code. */
  method ReadHeading(heading: string) returns (number: string, name: Option<string>)
    ensures number == Number(Split(Trim(heading), " - ")[0]) && name == NameOf(heading)
  {
    var h4 := Trim(heading);
    var parts := Split(h4, " - ");
    var code := parts[0];
    name := if |parts| > 1 then Some(parts[1]) else None;
    number := Number(code);
  }

  /** A record with the requisites of a card's paragraph attached: each
      list whose sentence is found replaces the record's own, and a list
      whose sentence is missing is left as it was. */
  function Attached(record: Record, text: Option<string>): Record {
    var p := Found(text, Scraper.PrereqWord);
    var c := Found(text, Scraper.CoreqWord);
    record.(prereqs := if p.Some? then p else record.prereqs, coreqs := if c.Some? then c else record.coreqs)
  }

  /** The requisites attached to a record, when the card has a paragraph
      and the sentence is found in it. */
  method Attach(record0: Record, text: Option<string>) returns (record: Record)
    ensures record == Attached(record0, text)
  {
    record := record0;
    if text.Some? {
      var prereqtext := Sentence(text.value, Scraper.PrereqWord, OneColon);
      var coreqtext := Sentence(text.value, Scraper.CoreqWord, OneColon);
      if prereqtext.Some? {
        var reqs := ParseReqs(prereqtext.value.1);
        record := record.(prereqs := Some(reqs));
      }
      if coreqtext.Some? {
        var reqs := ParseReqs(coreqtext.value.1);
        record := record.(coreqs := Some(reqs));
      }
    }
  }

  /** The loop of the `.ts` extractor as written: it sets the name on
      `subjects[number]` without storing a record there first, so a card
      whose number has no record yet throws, and nothing after it runs. A
      card whose number has one renames it and attaches its requisites. */
  function FilledAsWritten(subject: Subject, cards: seq<Card>): Option<Subject>
    decreases |cards|
  {
    if cards == [] then Some(subject)
    else
      var n := NumberOf(cards[0]);
      if n !in subject then None
      else FilledAsWritten(subject[n := Attached(subject[n].(name := NameOf(cards[0].heading)), cards[0].text)], cards[1..])
  }

  /** The `.ts` loop throws exactly when the number of some card has no
      record when it starts: it never stores a record under a new number. */
  lemma {:induction false} FilledAsWrittenThrows(subject: Subject, cards: seq<Card>)
    ensures FilledAsWritten(subject, cards).None? <==> exists i :: 0 <= i < |cards| && NumberOf(cards[i]) !in subject
    decreases |cards|
  {
    if cards != [] {
      var n := NumberOf(cards[0]);
      if n in subject {
        var next := subject[n := Attached(subject[n].(name := NameOf(cards[0].heading)), cards[0].text)];
        assert next.Keys == subject.Keys;
        FilledAsWrittenThrows(next, cards[1..]);
        if exists i :: 0 <= i < |cards| && NumberOf(cards[i]) !in subject {
          var i :| 0 <= i < |cards| && NumberOf(cards[i]) !in subject;
          assert cards[1..][i - 1] == cards[i];
        }
        forall i | 0 <= i < |cards| - 1 && NumberOf(cards[1..][i]) !in next
          ensures NumberOf(cards[i + 1]) !in subject
        {
          assert cards[1..][i] == cards[i + 1];
        }
      }
    }
  }

  /** The `.ts` extractor starts from an empty object, so a page with any
      card at all throws on its first card and stores nothing. */
  lemma FirstCardThrows(cards: seq<Card>)
    requires cards != []
    ensures FilledAsWritten(map[], cards).None?
  {
    var empty: Subject := map[];
    FilledAsWrittenThrows(empty, cards);
    assert NumberOf(cards[0]) !in empty;
  }

  lemma StoredLast<V>(entries: seq<(string, V)>, i: nat)
    requires i < |entries|
    ensures Stored(entries[..i + 1]) == Stored(entries[..i])[entries[i].0 := entries[i].1]
  {
    assert entries[..i + 1][..i] == entries[..i];
  }

  /** A key is stored exactly when some entry has it. */
  lemma {:induction false} StoredHas<V>(entries: seq<(string, V)>, n: string)
    ensures n in Stored(entries) <==> exists i :: 0 <= i < |entries| && entries[i].0 == n
    decreases |entries|
  {
    if entries != [] {
      var init := entries[..|entries| - 1];
      StoredHas(init, n);
      assert forall i :: 0 <= i < |init| ==> init[i] == entries[i];
    }
  }

  /** The value of a key is the one of its last entry. */
  lemma {:induction false} StoredLastWins<V>(entries: seq<(string, V)>, i: nat)
    requires i < |entries|
    requires forall j :: i < j < |entries| ==> entries[j].0 != entries[i].0
    ensures entries[i].0 in Stored(entries) && Stored(entries)[entries[i].0] == entries[i].1
    decreases |entries|
  {
    var init := entries[..|entries| - 1];
    if i < |entries| - 1 {
      assert init[i] == entries[i];
      StoredLastWins(init, i);
    }
  }

  /** A number has a record exactly when some card has that number, and
      the record is the one of the last such card. */
  lemma SubjectsLastWins(cards: seq<Card>, i: nat)
    requires i < |cards|
    requires forall j :: i < j < |cards| ==> NumberOf(cards[j]) != NumberOf(cards[i])
    ensures NumberOf(cards[i]) in Subjects(cards) && Subjects(cards)[NumberOf(cards[i])] == RecordOf(cards[i])
  {
    StoredLastWins(Keyed(cards), i);
  }

  /** The last segment of the page address. */
  function Segment(href: string): (r: string)
    ensures !Contains(r, "/")
  {
    var slash := LastIndexOf(href, "/");
    if slash == -1 then href
    else SuffixFree(href, "/", slash); href[slash + 1..]
  }

  /** The key the page's records are stored under: the last segment of the
      address, upper-cased, with its first "_" removed. */
  function Key(href: string): string {
    ReplaceFirst(Upper(Segment(href)), "_", "")
  }

  /** The key holds no "/" and no lower-case ASCII letter, and it is one
      character shorter than the segment exactly when the segment has a
      "_". */
  lemma KeyShape(href: string)
    ensures forall i :: 0 <= i < |Key(href)| ==> Key(href)[i] != '/' && !('a' <= Key(href)[i] <= 'z')
    ensures |Key(href)| == |Segment(href)| - (if Contains(Upper(Segment(href)), "_") then 1 else 0)
  {
    var seg := Segment(href);
    var u := Upper(seg);
    forall i | 0 <= i < |u| ensures u[i] != '/' && !('a' <= u[i] <= 'z') {
      assert u[i] == UpperChar(seg[i]);
      OccursChar(seg, '/', i);
      assert !OccursAt(seg, "/", i);
    }
    var k := IndexOf(u, "_", 0);
    if k != -1 {
      forall i | 0 <= i < |Key(href)| ensures Key(href)[i] != '/' && !('a' <= Key(href)[i] <= 'z') {
        assert Key(href)[i] == if i < k then u[i] else u[i + 1];
      }
    }
  }

  /** Only the first "_" goes: a segment with two keeps the second. */
  lemma KeyKeepsLaterUnderscores(href: string, i: nat, j: nat)
    requires i < j < |Segment(href)| && Segment(href)[i] == '_' && Segment(href)[j] == '_'
    ensures Contains(Key(href), "_")
  {
    var u := Upper(Segment(href));
    assert u[i] == '_' && u[j] == '_';
    ReplaceKeepsLater(u, '_', i, j);
  }

  /** Replacing the first occurrence of a character keeps a later one. */
  lemma ReplaceKeepsLater(u: string, c: char, i: nat, j: nat)
    requires i < j < |u| && u[i] == c && u[j] == c
    ensures Contains(ReplaceFirst(u, [c], ""), [c])
  {
    OccursChar(u, c, i);
    var k := IndexOf(u, [c], 0);
    assert k <= i;
    var r := u[..k] + u[k + 1..];
    assert ReplaceFirst(u, [c], "") == u[..k] + "" + u[k + 1..] == r;
    assert r[j - 1] == c;
    OccursChar(r, c, j - 1);
  }

  /** All pages' records by key, as stored between runs. */
  type Datasets = map<string, Subject>

  /** The whole run: the stored datasets, or none when nothing is stored,
      gain the page's records under the page's key; every other key keeps
      its records. */
  method Run(stored: Option<Datasets>, href: string, cards: seq<Card>) returns (data: Datasets)
    ensures Key(href) in data && data[Key(href)] == Subjects(cards)
    ensures stored.None? ==> data.Keys == {Key(href)}
    ensures stored.Some? ==> data.Keys == stored.value.Keys + {Key(href)}
    ensures stored.Some? ==> forall k :: k in stored.value && k != Key(href) ==> data[k] == stored.value[k]
  {
    data := if stored.Some? then stored.value else map[];
    var subject := ExtractCards(cards);
    data := data[Key(href) := subject];
  }
}
