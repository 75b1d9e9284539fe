// A run of the decoder that leaves a mile stone behind: the text a' over a dictionary with one lemma of two
// characters. The splitter gets a match node with a stone, and is not accepted.

module Leak {
  import opened Limits
  import opened SpellingIds
  import opened Lattice
  import opened Beam
  import opened Decoder
  import opened Dictionaries
  import opened MatrixSearch
  import opened Typing
  import B = Dictionary
  import T = Trie
  import C = TrieCover
  import W = TrieWalk
  import D = DictTrie
  import L = Spellings
  import P = SpellingParser
  import ST = SpellingTrie

  // ---- The dictionary ----

  const LEMMAS: seq<T.Entry> := [T.Entry([FULL_START, FULL_START], 1)]

  lemma LemmasOk()
    ensures B.Buildable(LEMMAS, 1)
  {
    assert T.GroupEnd(LEMMAS, 0, 1, 0) == 1 && T.GroupEnd(LEMMAS, 0, 1, 1) == 1;
    assert T.Groups(LEMMAS, 0, 1, 0) == 1 && T.Groups(LEMMAS, 0, 1, 1) == 1;
    assert T.Own(LEMMAS, 0, 1, 0) == 0 && T.Own(LEMMAS, 0, 1, 1) == 1;
    assert T.OkEntry(LEMMAS[0]);
    assert T.Under(LEMMAS, 0, 1, 1) == 0;
    assert W.RootId(LEMMAS, 0) == FULL_START;
  }

  // No lemma has one character.
  lemma {:induction false} NoneOwn(gs: seq<C.Group>)
    requires C.AllIn(LEMMAS, gs)
    ensures C.Items(LEMMAS, gs, 1) == []
  {
    if gs != [] {
      assert gs[0] == C.Group(0, 1) && T.Own(LEMMAS, 0, 1, 0) == 0;
      NoneOwn(gs[1..]);
    }
  }

  // An id has a mile stone and no lemma.
  lemma StoneOnly(c: Dicts, x: nat)
    requires OkDicts(c) && c.es == LEMMAS && OkIds(c, [x]) && !c.user([x]).0
    ensures Asked(c, [x], true, true) == Look(true, false, [])
  {
    RootLayer(c, [x]);
    NoneOwn(Answered(c, [x]));
    hide OkDicts, OkIds, Layer, Answered;
  }

  // ---- The lattice ----

  // Behind the first row no row has a node.
  ghost predicate Bare(lat: Lat) {
    OkLat(lat) && lat.rows != [] && lat.rows[0] == ROOT_ROW
    && forall r :: 0 < r < |lat.rows| ==> lat.rows[r].ndNum == 0
  }

  lemma {:induction false} NothingShorter(w: World, s: string, lat: Lat, ext: nat, p: Plan)
    requires Bare(lat) && OkLat(lat) && ext < |s| == |lat.rows| && p.longest == 0
    ensures Extends(w, s, lat, ext, p) == p
  {
    hide OkLat, Matches;
    if ext > 0 {
      ExtendsStep(w, s, lat, ext, p);
      ExtendCases(w, s, lat, ext, p);
      NothingShorter(w, s, lat, ext - 1, p);
    }
  }

  lemma {:induction false} NothingLonger(w: World, s: string, lat: Lat, ext: nat, p: Plan)
    requires OkLat(lat) && 0 < |s| <= ext && |s| == |lat.rows|
    ensures Extends(w, s, lat, ext, p) == Extends(w, s, lat, |s|, p)
  {
    hide OkLat;
    if ext > |s| {
      ExtendsStep(w, s, lat, ext, p);
      NothingLonger(w, s, lat, ext - 1, p);
    }
  }

  // One match node for the whole text, with a stone and no lemma.
  lemma OneNode(w: World, s: string, lat: Lat, x: nat, pre: bool)
    requires Bare(lat) && OkLat(lat) && 0 < |s| == |lat.rows| <= MAX_PINYIN_SIZE && x != 0
    requires w.splid(s) == (x, pre) && w.look([x], true, true) == Look(true, false, [])
    ensures var p := PlanOf(w, s, lat);
            && |p.dmis| == 1 && p.dmis[0].sys && p.dmis[0].from == -1 && p.dmis[0].splId == x
            && p.offers == [] && p.matched == pre
  {
    var p0 := if pre then NO_PLAN.(matched := true) else NO_PLAN;
    PlanStart(w, s, lat);
    NothingLonger(w, s, lat, MAX_PINYIN_SIZE + 1, NO_PLAN);
    ExtendsStep(w, s, lat, |s|, NO_PLAN);
    ExtendCases(w, s, lat, |s|, NO_PLAN);
    assert s[0..] == s;
    var p := Match(w, s, lat, |s|, x, -1, p0);
    assert IdsWith(lat, -1, x) == [x];
    assert Matches(w, s, lat, |s|, x, 0, p0) == Matches(w, s, lat, |s|, x, 1, p) == p;
    NothingShorter(w, s, lat, |s| - 1, p);
  }

  // The row of the text's last character: one more stone, and no node.
  lemma OneRow(w: World, s: string, x: nat, pre: bool)
    requires OkWorld(w) && 0 < |s| <= MAX_PINYIN_SIZE && x != 0 && Bare(Run(w, s[..|s| - 1]))
    requires w.splid(s) == (x, pre) && w.look([x], true, true) == Look(true, false, [])
    ensures Bare(Run(w, s)) && Run(w, s).rows[|s|].ndNum == 0
    ensures exists d: Dmi :: Run(w, s).dmis == Run(w, s[..|s| - 1]).dmis + [d] && d.sys && d.from == -1 && d.splId == x
    ensures Accepted(w, s, Run(w, s[..|s| - 1])) <==> pre
  {
    hide *;
    var lat := Run(w, s[..|s| - 1]);
    RunSize(w, s[..|s| - 1]);
    OneNode(w, s, lat, x, pre);
    var row := RunRow(w, s, lat);
    RunSize(w, s);
    var p := PlanOf(w, s, lat);
    NoRow(lat, p.offers, |s|);
    assert p.dmis == [p.dmis[0]];
    WithRowBare(lat, row, p.dmis, p.hasFull);
  }

  lemma NoRow(lat: Lat, offers: seq<Offer>, step: nat)
    requires offers == []
    ensures RowOf(lat.rows, lat.nodes, offers, step) == []
  {}

  lemma WithRowBare(lat: Lat, row: seq<Node>, dmis: seq<Dmi>, hasFull: bool)
    requires Bare(lat) && row == [] && OkLat(WithRow(lat, row, dmis, hasFull))
    ensures var lat' := WithRow(lat, row, dmis, hasFull);
            Bare(lat') && lat'.dmis == lat.dmis + dmis && lat'.rows[|lat.rows|].ndNum == 0
  {
    hide OkLat;
  }

  const TEXT := "a'"

  // What the two characters do in a world that takes them for the same id.
  ghost predicate HearsTwice(w: World, x: nat) {
    && x != 0 && w.splid(TEXT[..1]) == (x, true) && w.splid(TEXT) == (x, false)
    && w.valid('a') && w.look([x], true, true) == Look(true, false, [])
  }

  // The splitter is not accepted, and its match node is the second one with a stone.
  lemma TwoRows(w: World, x: nat)
    requires OkWorld(w) && HearsTwice(w, x)
    ensures AcceptedLen(w, TEXT, 0) == 1 && TriedLen(w, TEXT) == 2 && SplNum(w, TEXT[..1]) == 0
    ensures exists d: Dmi, e: Dmi :: && Run(w, TEXT[..1]).dmis == [d] && Run(w, TEXT).dmis == [d, e]
                                      && d.sys && d.from == -1 && d.splId == x
                                      && e.sys && e.from == -1 && e.splId == x
  {
    hide *;
    TextFacts(w, x);
    var s := TEXT[..1];
    RunNothing(w, TEXT[..0]);
    BareStart();
    OneRow(w, s, x, true);
    OneRow(w, TEXT, x, false);
    AddedIs(w, TEXT, 0);
    AddedIs(w, TEXT, 1);
    AcceptedStep(w, TEXT, 0);
    AcceptedStep(w, TEXT, 1);
    TriedLenIs(w, TEXT, 1);
    RunSize(w, s);
    NoPath(w, s);
    var d: Dmi :| Run(w, s).dmis == Run(w, TEXT[..0]).dmis + [d] && d.sys && d.from == -1 && d.splId == x;
    var e: Dmi :| Run(w, TEXT).dmis == Run(w, s).dmis + [e] && e.sys && e.from == -1 && e.splId == x;
    assert Run(w, s).dmis == [d] && Run(w, TEXT).dmis == [d, e];
  }

  lemma TextFacts(w: World, x: nat)
    requires HearsTwice(w, x)
    ensures x != 0 && w.splid(TEXT[..1]) == (x, true) && w.splid(TEXT) == (x, false)
    ensures w.look([x], true, true) == Look(true, false, []) && Tried(w, TEXT, 0) && Tried(w, TEXT, 1)
    ensures |TEXT| == 2 && |TEXT[..1]| == 1 < 2 <= MAX_PINYIN_SIZE && TEXT[..2] == TEXT && TEXT[..2 - 1] == TEXT[..1]
    ensures TEXT[..1][..0] == TEXT[..0] == [] && TEXT[..1][..1 - 1] == TEXT[..0]
  {}

  lemma BareStart()
    ensures Bare(EMPTY_LAT)
  {}

  lemma AddedIs(w: World, s: string, k: nat)
    requires OkWorld(w) && k < |s|
    ensures Added(w, s, k) <==> Tried(w, s, k) && Accepted(w, s[..k + 1], Run(w, s[..k]))
  {
    hide OkWorld, Accepted, Tried;
  }

  // ---- The parser ----

  const SPELLINGS: seq<string> := ["A"]

  // The letter is read as an id, with or without a splitter behind it; only without it may it go on.
  lemma Heard(parser: P.SpellingParser)
    requires parser.trie.Built() && parser.trie.list == SPELLINGS
    ensures P.OkConf(parser.C())
    ensures var c := parser.C();
            && P.SplidOf(c, TEXT[..1]) == P.SplidOf(c, TEXT) != 0
            && P.PreOf(c, TEXT[..1], false) && !P.PreOf(c, TEXT, false)
  {
    parser.BuiltFacts();
    var c := parser.C();
    Munched(c);
    Named(parser);
    P.SplidIs(c, TEXT);
    P.SplidIs(c, TEXT[..1]);
  }

  lemma Munched(c: P.Conf)
    requires c.sp == SPELLINGS
    ensures L.Format(TEXT[..1]) == "A" && TEXT[..1][..1] == TEXT[..1]
    ensures P.Munch(c, TEXT, 0, 0) == 1 && P.Munch(c, TEXT[..1], 0, 0) == 1
    ensures P.Skip(TEXT, 1) == 2 && P.Skip(TEXT[..1], 1) == 1
  {
    assert L.Format(TEXT[..1]) == "A" && TEXT[..1] == "a" && TEXT[0..1] == TEXT[..1] == TEXT[..1][0..1];
    assert "A" <= SPELLINGS[0];
    assert L.Has(c.sp, "A");
  }

  lemma Named(parser: P.SpellingParser)
    requires parser.trie.Built() && parser.trie.list == SPELLINGS && P.OkConf(parser.C())
    ensures P.EndId(parser.C(), "A") != 0
  {
    parser.BuiltFacts();
    parser.RawRange("A");
    P.EndIdIs(parser.C(), "A");
    assert "A" <= SPELLINGS[0];
    assert L.Has(SPELLINGS, "A") && SPELLINGS[0] == "A" && "A" in SPELLINGS;
  }

  // ---- The run ----

  // The two dictionaries: the lemma above, and a user dictionary that has nothing.
  ghost predicate Prepared(parser: P.SpellingParser, c: Dicts)
    reads parser.trie
  {
    && parser.trie.Built() && parser.trie.list == SPELLINGS
    && c == Dicts(LEMMAS, 1, Halves(parser.trie.h2fStart, parser.trie.h2fNum), [], c.user)
    && forall ids :: c.user(ids) == (false, [])
  }

  lemma PreparedOk(parser: P.SpellingParser, c: Dicts)
    requires Prepared(parser, c)
    ensures SameIds(parser, c) && OkDicts(c) && Steady(IsHalf, c)
  {
    LemmasOk();
    parser.BuiltFacts();
    assert SameIds(parser, c) by {
      ST.RangesInside(parser.trie.Src(), parser.trie.h2fStart, parser.trie.h2fNum);
      assert forall h :: 0 <= h < FULL_START ==> parser.trie.h2fNum[h] < T.BYTE;
    }
    hide T.Ordered, W.AllRoots, ST.SpellingTrie.Built;
  }

  // The decoder hears the text as above.
  lemma PreparedHears(parser: P.SpellingParser, c: Dicts, sort: seq<Lpi> -> seq<Lpi>, xian: bool)
    requires Prepared(parser, c) && forall s :: SortedLpis(sort(s)) && multiset(sort(s)) == multiset(s)
    ensures P.OkConf(parser.C()) && OkDicts(c) && OkWorld(WorldOf(parser, c, sort, xian))
    ensures P.SplidOf(parser.C(), TEXT) > 0 && HearsTwice(WorldOf(parser, c, sort, xian), P.SplidOf(parser.C(), TEXT))
  {
    hide *;
    PreparedOk(parser, c);
    PreparedFacts(parser, c);
    Heard(parser);
    HalvesOk(c);
    WorldSpeaks(parser, c, sort, xian);
    WorldIs(parser, c, sort, xian);
    var w, x := WorldOf(parser, c, sort, xian), P.SplidOf(parser.C(), TEXT);
    ParsedOk(parser, c, TEXT);
    OneIdOk(c, x);
    StoneOnly(c, x);
    TextIs();
    LetterA();
    IsHeard(w, x);
  }

  lemma PreparedFacts(parser: P.SpellingParser, c: Dicts)
    requires Prepared(parser, c)
    ensures parser.trie.Built() && parser.trie.list == SPELLINGS && c.es == LEMMAS && c.num == 1
    ensures c.psbs == [] && c.h == Halves(parser.trie.h2fStart, parser.trie.h2fNum)
    ensures forall ids :: c.user(ids) == (false, [])
  {
    hide ST.SpellingTrie.Built;
  }

  lemma OneIdOk(c: Dicts, x: nat)
    requires OkDicts(c) && OkId(c, x)
    ensures OkIds(c, [x])
  {
    hide OkDicts, OkId;
  }

  lemma LetterA()
    ensures L.Letter('a')
  {}

  lemma IsHeard(w: World, x: nat)
    requires x != 0 && w.splid(TEXT[..1]) == (x, true) && w.splid(TEXT) == (x, false)
    requires w.valid('a') && w.look([x], true, true) == Look(true, false, [])
    ensures HearsTwice(w, x)
  {}

  // Two stones and two marks: there is room for them.
  lemma RoomForTwo(c: Dicts, dmis: seq<Dmi>)
    requires OkDicts(c) && |dmis| == 2 && dmis[0].sys && dmis[0].from == -1 && dmis[1].sys && dmis[1].from == -1
    ensures Linked(dmis) && Stones(dmis[..1]) == 1 && Stones(dmis) == 2 && Marks(c, dmis) == 2
  {
    assert dmis[..1][..0] == [] && Linked(dmis[..1]) && Linked(dmis);
    assert Ids(dmis[..1], 0) == [dmis[0].splId] && Ids(dmis, 1) == [dmis[1].splId];
    assert Stones(dmis[..1]) == 1 && Marks(c, dmis[..1]) == 1;
    hide OkDicts;
  }

  lemma TextIs()
    ensures Typed(TEXT) == TEXT && |TEXT| == 2 && CommonLen([], TEXT) == 0 && TEXT[..2] == TEXT
    ensures MAX_SPELLINGS == 9
  {}

  // At the start there is room for the search.
  lemma RoomAtStart(m: MatrixSearch, x: nat)
    requires OkWorld(m.w) && m.decodedLen <= |m.pys| && OkDicts(m.c) && HearsTwice(m.w, x) && m.decodedLen == 0
    ensures m.SearchRoom(TEXT)
  {
    hide *;
    TwoRows(m.w, x);
    TextIs();
    RoomForTwo(m.c, Run(m.w, TEXT).dmis);
    Caps();
    m.RoomFromScratch(TEXT);
  }

  lemma TwoStones(w: World, x: nat)
    requires OkWorld(w) && HearsTwice(w, x)
    ensures Stones(Run(w, TEXT[..1]).dmis) == 1 && Stones(Run(w, TEXT).dmis) == 2
  {
    hide *;
    TwoRows(w, x);
    CountTwo(Run(w, TEXT[..1]).dmis, Run(w, TEXT).dmis);
  }

  lemma CountTwo(a: seq<Dmi>, b: seq<Dmi>)
    requires exists d: Dmi, e: Dmi :: a == [d] && b == [d, e] && d.sys && e.sys
    ensures Stones(a) == 1 && Stones(b) == 2
  {
    assert b[..1] == a && a[..0] == [];
  }

  lemma Caps()
    ensures D.FIRST_HANDLE + 2 < D.MAX_MILE_STONE && 2 <= D.MAX_PARSING_MARK && 2 < DMI_POOL_SIZE
  {}

  // The trie of the one spelling.
  method NewParser() returns (parser: P.SpellingParser)
    ensures fresh(parser) && fresh(parser.trie) && parser.trie.Built() && parser.trie.list == SPELLINGS
  {
    hide ST.SpellingTrie.Built;
    var trie := new ST.SpellingTrie();
    var ok := trie.Construct(SPELLINGS, [0], 3);
    parser := new P.SpellingParser(trie);
  }

  // A decoder over these dictionaries.
  method NewDecoder(sort: seq<Lpi> -> seq<Lpi>, xian: bool) returns (m: MatrixSearch)
    requires forall s :: SortedLpis(sort(s)) && multiset(sort(s)) == multiset(s)
    ensures fresh(m) && m.Valid() && m.Hears() && m.decodedLen == 0 && Prepared(m.parser, m.c) && m.sort == sort
    ensures m.pys == [] && fresh(m.dict) && fresh(m.dict.marks) && fresh(m.dict.stones) && fresh(m.ndPool)
    ensures fresh(m.dmiPool) && fresh(m.splStart) && fresh(m.splId) && fresh(m.lmaStart) && fresh(m.lmaId)
    ensures fresh(m.lpiBuf)
  {
    hide ST.SpellingTrie.Built, OkDicts, Steady, SameIds, SortedLpis, B.Buildable, D.DictTrie.Valid;
    var parser := NewParser();
    LemmasOk();
    var dict := B.Build(LEMMAS, [], 1, []);
    var user := (ids: seq<nat>) => (false, []);
    var h := Halves(parser.trie.h2fStart, parser.trie.h2fNum);
    ghost var c := Dicts(LEMMAS, 1, h, [], user);
    PreparedOk(parser, c);
    m := new MatrixSearch(parser, dict, h, user, sort, xian, c);
  }

  // Searching a' over these dictionaries decodes one character; two stones are on the stack, but the match nodes
  // hold one. Going back to that character does not give the other back.
  method SearchThatLeaks(sort: seq<Lpi> -> seq<Lpi>, xian: bool) returns (m: MatrixSearch)
    requires forall s :: SortedLpis(sort(s)) && multiset(sort(s)) == multiset(s)
    ensures fresh(m) && m.Valid() && m.Hears() && !m.NoLeak()
    ensures OkWorld(m.w) && m.decodedLen == 1 <= |m.pys| && m.pys[..1] == TEXT[..1]
    ensures Stones(Run(m.w, m.pys[..1]).dmis) == 1 && m.dict.stonesPos == D.FIRST_HANDLE + 2
  {
    hide *;
    m := NewDecoder(sort, xian);
    m.HearsIs();
    m.ValidFacts();
    PreparedHears(m.parser, m.c, m.sort, m.xian);
    ghost var x := P.SplidOf(m.parser.C(), TEXT);
    TwoRows(m.w, x);
    TextIs();
    RoomAtStart(m, x);
    m.ExtraAtIs(TEXT, TEXT, 0);
    m.AfterIs(0);
    ghost var w := m.w;
    RunNothing(w, TEXT[..0]);
    NothingHeld(m.c);
    BesideIs(m.c, m.StonesAfter(0), m.MarksAfter(0), []);
    NothingShrunk(w, TEXT);
    var n := m.Search(TEXT);
    TwoStones(w, x);
    m.ExtraStones(Run(w, TEXT).dmis);
    m.ResetHandleIs(1);
    m.AfterIs(1);
    m.ResetCounts(1);
    m.ResetSearch(1);
  }
}
