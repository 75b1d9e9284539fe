// The decoder with nothing fixed: rows and two node pools in place, extended one
// character at a time and rewound to the common prefix of two searches.

module MatrixSearch {
  import opened Limits
  import opened Lattice
  import opened Beam
  import opened Decoder
  import opened Segment
  import opened Decoded
  import opened Dictionaries
  import opened Typing
  import D = DictTrie
  import S = SpellingIds
  import L = Spellings
  import P = SpellingParser

  // Plans only grow.
  lemma {:induction false} MatchesGrow(w: World, s: string, lat: Lat, ext: nat, idx: nat, pos: nat, p: Plan)
    requires OkLat(lat) && 0 < ext <= |s| == |lat.rows| && pos >= lat.rows[|s| - ext].dmiPos
    ensures p.dmis <= Matches(w, s, lat, ext, idx, pos, p).dmis
    decreases lat.rows[|s| - ext].dmiPos + lat.rows[|s| - ext].dmiNum + 1 - pos
  {
    var end := lat.rows[|s| - ext].dmiPos + lat.rows[|s| - ext].dmiNum;
    if pos <= end {
      var d: int := if pos == end then -1 else pos;
      assert p.dmis <= Match(w, s, lat, ext, idx, d, p).dmis;
      hide OkLat, Match;
      MatchesGrow(w, s, lat, ext, idx, pos + 1, Match(w, s, lat, ext, idx, d, p));
    }
  }

  lemma {:induction false} ExtendsGrow(w: World, s: string, lat: Lat, ext: nat, p: Plan)
    requires OkLat(lat) && |s| == |lat.rows|
    ensures p.dmis <= Extends(w, s, lat, ext, p).dmis
    decreases ext
  {
    hide OkLat, Matches;
    if ext > |s| {
      ExtendsGrow(w, s, lat, ext - 1, p);
    } else if ext > 0 {
      var oldRow := |s| - ext;
      if !(ext > 1 && p.longest != 0 && !lat.rows[oldRow].hasFull) {
        var (idx, pre) := w.splid(s[oldRow..]);
        MatchesGrow(w, s, lat, ext, idx, lat.rows[oldRow].dmiPos, if pre then p.(matched := true) else p);
        ExtendsGrow(w, s, lat, ext - 1, Extend(w, s, lat, ext, p));
      } else {
        ExtendsGrow(w, s, lat, ext - 1, p);
      }
    }
  }

  // The cached lists are those extend_dmi would compute.
  ghost predicate CacheOk(w: World, cache: map<nat, seq<Lpi>>) {
    forall id :: id in cache ==>
      w.half(id) && cache[id] != [] && cache[id] == Items(w, [id], w.look([id], true, true).items)
  }

  // add_char goes through the row of character k of s, whether or not it is accepted then.
  predicate Tried(w: World, s: string, k: nat) {
    k < |s| && k + 1 < MAX_ROW_NUM && (w.valid(s[k]) || s[k] == '\'')
  }

  // add_char accepts character k of s after the k characters before it.
  ghost predicate Added(w: World, s: string, k: nat)
    requires OkWorld(w) && k < |s|
  {
    Tried(w, s, k) && Accepted(w, s[..k + 1], Run(w, s[..k]))
  }

  ghost predicate AllAdded(w: World, s: string)
    requires OkWorld(w)
  {
    forall k: nat :: k < |s| ==> Added(w, s, k)
  }

  lemma AddedPrefix(w: World, s: string, t: string, k: nat)
    requires OkWorld(w) && k < |s| && k < |t| && s[..k + 1] == t[..k + 1]
    ensures Added(w, s, k) <==> Added(w, t, k)
  {
    assert s[k] == s[..k + 1][k] == t[..k + 1][k] == t[k];
    assert s[..k] == s[..k + 1][..k] == t[..k + 1][..k] == t[..k];
    hide OkWorld;
  }

  lemma AllAddedShorter(w: World, s: string, n: nat)
    requires OkWorld(w) && AllAdded(w, s) && n <= |s|
    ensures AllAdded(w, s[..n])
  {
    hide OkWorld, Added;
    forall k: nat | k < n
      ensures Added(w, s[..n], k)
    {
      assert s[..n][..k + 1] == s[..k + 1];
      AddedPrefix(w, s, s[..n], k);
    }
  }

  lemma AllAddedLonger(w: World, s: string, n: nat)
    requires OkWorld(w) && n < |s| && AllAdded(w, s[..n]) && Added(w, s, n)
    ensures AllAdded(w, s[..n + 1])
  {
    hide OkWorld, Added;
    var t := s[..n + 1];
    forall k: nat | k < n + 1
      ensures Added(w, t, k)
    {
      assert t[..k + 1] == s[..k + 1];
      AddedPrefix(w, s, t, k);
      if k < n {
        assert s[..n][..k + 1] == s[..k + 1];
        AddedPrefix(w, s, s[..n], k);
      }
    }
  }

  class MatrixSearch {
    ghost const w: World
    const parser: P.SpellingParser
    const sort: seq<Lpi> -> seq<Lpi>
    const xian: bool
    const dict: D.DictTrie
    const h: S.Halves
    const user: seq<nat> -> (bool, seq<Lpi>)
    ghost const c: Dicts
    const lpiBuf: array<D.Item>
    const ndPool: array<Node>
    const dmiPool: array<Dmi>
    const splStart: array<nat>
    const splId: array<nat>
    const lmaStart: array<nat>
    const lmaId: array<nat>
    var pys: string
    var decodedLen: nat
    var rows: seq<Row>
    var ndUsed: nat
    var dmiUsed: nat
    var cache: map<nat, seq<Lpi>>
    var handles: seq<nat>
    var splNum: nat
    var lmaNum: nat

    ghost predicate Shape()
      reads this
    {
      && OkWorld(w) && ndPool.Length == MTRX_ND_POOL_SIZE && dmiPool.Length == DMI_POOL_SIZE
      && splStart.Length == splId.Length == lmaStart.Length == lmaId.Length == MAX_ROW_NUM
      && splStart != splId && splStart != lmaStart && splStart != lmaId && splId != lmaStart && splId != lmaId
      && lmaStart != lmaId
      && |rows| == MAX_ROW_NUM && CacheOk(w, cache) && decodedLen <= |pys| && decodedLen < MAX_ROW_NUM
      && Speaks(w, c) && h == c.h && user == c.user && lpiBuf.Length == MAX_LPI && |handles| == DMI_POOL_SIZE
    }

    // w is the parser, the dictionaries and the sort routine.
    ghost predicate Hears()
      reads parser.trie
    {
      && SameIds(parser, c) && OkDicts(c) && P.OkConf(parser.C()) && w == WorldOf(parser, c, sort, xian)
    }

    lemma Heard()
      requires Hears()
      ensures SameIds(parser, c) && OkDicts(c) && P.OkConf(parser.C()) && w == WorldOf(parser, c, sort, xian)
      ensures w.sort == sort && w.xian == xian && (forall ch: char :: w.valid(ch) == L.Letter(ch))
      ensures forall id: nat :: w.half(id) == S.IsHalf(id)
    {
      hide *;
      HearsIs();
      HalvesOk(c);
      WorldIs(parser, c, sort, xian);
    }

    lemma HearsIs()
      ensures Hears() <==>
                SameIds(parser, c) && OkDicts(c) && P.OkConf(parser.C()) && w == WorldOf(parser, c, sort, xian)
    {
      hide SameIds, OkDicts, P.OkConf, WorldOf;
    }

    // The match nodes hold on to mile stones of the dictionary.
    ghost predicate Stack(dmis: seq<Dmi>)
      reads this`handles, dict, dict.root, dict.nodes, dict.idBuf, dict.splidIndex, dict.marks, dict.stones
    {
      && Same(dict, c) && Stacked(dict, c, handles, dmis) && |dmis| <= |handles|
      && Apart(dict.idBuf) && Apart(dict.splidIndex)
    }

    // An array of the dictionary, not one of the decoder's.
    ghost predicate Apart(a: array<nat>) { a != splStart && a != splId && a != lmaStart && a != lmaId }

    // Between the nodes now there and all nodes to come, nothing runs out.
    ghost predicate Roomy(now: seq<Dmi>, all: seq<Dmi>)
      reads dict
    {
      Room(c, dict.stonesPos, dict.marksPos, now, all)
    }

    // What lies on the stacks beside the nodes' mile stones and their marks.
    ghost function Extra(dmis: seq<Dmi>): (int, int)
      reads dict`stonesPos, dict`marksPos
    {
      Beside(c, dict.stonesPos, dict.marksPos, dmis)
    }

    lemma ExtraIs(dmis: seq<Dmi>)
      ensures Extra(dmis) == Beside(c, dict.stonesPos, dict.marksPos, dmis)
    {}

    // The first rows and the pools up to their end are those of lat.
    ghost predicate Shows(lat: Lat)
      reads this, ndPool, dmiPool
    {
      && |lat.rows| <= |rows| && rows[..|lat.rows|] == lat.rows
      && |lat.nodes| <= ndPool.Length && ndPool[..|lat.nodes|] == lat.nodes
      && |lat.dmis| <= dmiPool.Length && dmiPool[..|lat.dmis|] == lat.dmis
    }

    // Every decoded character was accepted, and the live part is its lattice.
    ghost predicate Valid()
      reads this, ndPool, dmiPool, dict, dict.root, dict.nodes, dict.idBuf, dict.splidIndex, dict.marks, dict.stones
    {
      && Shape() && AllAdded(w, pys[..decodedLen]) && Shows(Run(w, pys[..decodedLen]))
      && Stack(Run(w, pys[..decodedLen]).dmis)
    }

    // The pools are used exactly up to the end of the last row.
    ghost predicate Tight()
      reads this
    {
      && OkWorld(w) && decodedLen <= |pys|
      && ndUsed == |Run(w, pys[..decodedLen]).nodes| && dmiUsed == |Run(w, pys[..decodedLen]).dmis|
    }

    // The match nodes of the row under construction over lat are dmis.
    ghost predicate Counted(lat: Lat, dmis: seq<Dmi>, hasFull: bool)
      reads this, ndPool, dmiPool
    {
      && Shape() && Shows(lat) && |lat.rows| == decodedLen
      && dmiUsed == |lat.dmis| + |dmis| <= DMI_POOL_SIZE && dmiPool[|lat.dmis|..dmiUsed] == dmis
      && rows[decodedLen].dmiPos == |lat.dmis| && rows[decodedLen].dmiNum == |dmis|
      && rows[decodedLen].hasFull == hasFull
    }

    // The nodes of the row under construction over lat are `row`.
    ghost predicate InRow(lat: Lat, row: seq<Node>)
      reads this, ndPool
    {
      && Shape() && ndUsed == |lat.nodes| && |lat.nodes| + MAX_NODE_A_ROW < MTRX_ND_POOL_SIZE
      && ndPool[..|lat.nodes|] == lat.nodes
      && rows[decodedLen].ndPos == ndUsed && rows[decodedLen].ndNum == |row| <= MAX_NODE_A_ROW
      && ndPool[ndUsed..ndUsed + |row|] == row
    }

    // The row of the last character is under construction over lat, with plan p.
    ghost predicate Building(lat: Lat, p: Plan)
      reads this, ndPool, dmiPool, dict, dict.root, dict.nodes, dict.idBuf, dict.splidIndex, dict.marks, dict.stones
    {
      && Stack(lat.dmis + p.dmis)
      && OkLat(lat) && PlanOk(lat, p) && FitAll(lat, p.offers) && Counted(lat, p.dmis, p.hasFull)
      && InRow(lat, RowOf(lat.rows, lat.nodes, p.offers, decodedLen))
    }

    // Collecting the spelling ids of match node d, last to first.
    method CollectIds(d: nat, ghost lat: Lat) returns (ids: seq<nat>)
      requires Shape() && Shows(lat) && d < |lat.dmis| && forall i :: 0 <= i < |lat.dmis| ==> lat.dmis[i].from < i
      ensures ids == Ids(lat.dmis, d)
    {
      hide OkWorld, CacheOk, Speaks;
      ids := [];
      var e: int := d;
      while true
        invariant 0 <= e <= d && Ids(lat.dmis, e) + ids == Ids(lat.dmis, d)
        decreases e
      {
        assert dmiPool[e] == dmiPool[..|lat.dmis|][e] == lat.dmis[e];
        ids := [dmiPool[e].splId] + ids;
        if dmiPool[e].from < 0 {
          break;
        }
        e := dmiPool[e].from;
      }
    }

    // What is asked, and the match node it makes.
    ghost predicate Asking(lat: Lat, dmis: seq<Dmi>, d: int, ids: seq<nat>, dmi: (bool, bool) -> Dmi) {
      && d < |lat.dmis| && |ids| > 0 && (d < 0 <==> |ids| == 1) && Linked(lat.dmis + dmis)
      && OkDicts(c) && OkIds(c, ids) && ids == AskIds(lat.dmis + dmis, d, ids[|ids| - 1])
      && forall a, b :: dmi(a, b).sys == a && dmi(a, b).user == b && dmi(a, b).from == (if d < 0 then -1 else d)
                        && dmi(a, b).splId == ids[|ids| - 1] && dmi(a, b).level == |ids|
    }

    ghost function Answers(lat: Lat, d: int, ids: seq<nat>): Look
      requires d < |lat.dmis|
    {
      w.look(ids, d < 0 || lat.dmis[d].sys, d < 0 || lat.dmis[d].user)
    }

    // The next match node, if there is one, is among those to come.
    ghost predicate Coming(lat: Lat, dmis: seq<Dmi>, d: int, ids: seq<nat>, dmi: (bool, bool) -> Dmi, all: seq<Dmi>)
      requires d < |lat.dmis|
    {
      var found := Answers(lat, d, ids);
      found.sys || found.user ==> lat.dmis + dmis + [dmi(found.sys, found.user)] <= all
    }

    // The match nodes after asking.
    ghost function Now(lat: Lat, dmis: seq<Dmi>, d: int, ids: seq<nat>, dmi: (bool, bool) -> Dmi): seq<Dmi>
      requires d < |lat.dmis|
    {
      var found := Answers(lat, d, ids);
      if found.sys || found.user then lat.dmis + dmis + [dmi(found.sys, found.user)] else lat.dmis + dmis
    }

    lemma StackParts(dmis: seq<Dmi>)
      requires Stack(dmis)
      ensures Same(dict, c) && Stacked(dict, c, handles, dmis) && |dmis| <= |handles|
      ensures Apart(dict.idBuf) && Apart(dict.splidIndex)
    {
      hide Same, Stacked;
    }

    lemma IsStack(dmis: seq<Dmi>)
      requires Same(dict, c) && Stacked(dict, c, handles, dmis) && |dmis| <= |handles|
      requires Apart(dict.idBuf) && Apart(dict.splidIndex)
      ensures Stack(dmis)
    {
      hide Same, Stacked;
    }

    lemma AskingFacts(lat: Lat, dmis: seq<Dmi>, d: int, ids: seq<nat>, dmi: (bool, bool) -> Dmi, all: seq<Dmi>)
      requires Asking(lat, dmis, d, ids, dmi) && Coming(lat, dmis, d, ids, dmi, all) && Speaks(w, c)
      ensures d < |lat.dmis| && |ids| > 0 && (d < 0 <==> |ids| == 1) && OkDicts(c) && OkIds(c, ids) && S.OkHalves(c.h)
      ensures Linked(lat.dmis + dmis) && ids == AskIds(lat.dmis + dmis, d, ids[|ids| - 1])
      ensures var found := Answers(lat, d, ids);
              && found == Asked(c, ids, d < 0 || lat.dmis[d].sys, d < 0 || lat.dmis[d].user)
              && var x := dmi(found.sys, found.user);
                 && x.sys == found.sys && x.user == found.user && x.from == (if d < 0 then -1 else d)
                 && x.splId == ids[|ids| - 1] && x.level == |ids|
                 && (found.sys || found.user ==> lat.dmis + dmis + [x] <= all)
    {
      assert S.OkHalves(c.h);
      hide OkDicts, OkIds, Asked, AskIds;
    }

    // What asking demands.
    lemma BeforeAsk(lat: Lat, dmis: seq<Dmi>, d: int, ids: seq<nat>, dmi: (bool, bool) -> Dmi, all: seq<Dmi>, from: nat)
      requires Asking(lat, dmis, d, ids, dmi) && Coming(lat, dmis, d, ids, dmi, all) && Speaks(w, c)
      requires d < |lat.dmis| && Stack(lat.dmis + dmis) && Roomy(lat.dmis + dmis, all)
      requires if d >= 0 then d < |handles| && from == handles[d] else from == 0
      ensures OkDicts(c) && OkIds(c, ids) && S.OkHalves(c.h) && ids != [] && (d < 0 <==> |ids| == 1)
      ensures d >= 0 ==> (from > 0 <==> lat.dmis[d].sys)
      ensures |ids| > 1 && from > 0 ==> dict.HandleMeans(from, D.Ranges(c.h, ids[..|ids| - 1]))
      ensures dict.stonesPos < D.MAX_MILE_STONE
      ensures (|ids| == 1 || from > 0) && Layer(c, ids) != [] ==> dict.marksPos + Weight(c, ids) <= D.MAX_PARSING_MARK
      ensures forall i: nat :: i < |lat.dmis + dmis| && (lat.dmis + dmis)[i].sys ==> handles[i] < dict.stonesPos
    {
      hide *;
      AskingFacts(lat, dmis, d, ids, dmi, all);
      StackParts(lat.dmis + dmis);
      RoomyIs(lat.dmis + dmis, all);
      ghost var now, found := lat.dmis + dmis, Answers(lat, d, ids);
      RoomNow(c, dict.stonesPos, dict.marksPos, now, all);
      StackedBelow(dict, c, handles, now);
      if d >= 0 {
        assert now[d] == lat.dmis[d];
        StackedAt(dict, c, handles, now, d);
        AskIdsFront(now, d, ids[|ids| - 1]);
      }
      AskedSys(c, ids, d < 0 || lat.dmis[d].sys, d < 0 || lat.dmis[d].user);
      if found.sys {
        RoomForMarks(c, dict.stonesPos, dict.marksPos, now, dmi(found.sys, found.user), all);
        AskIdsRoot(now, d, ids[|ids| - 1]);
      }
    }

    lemma RoomyIs(now: seq<Dmi>, all: seq<Dmi>)
      ensures Roomy(now, all) <==> Room(c, dict.stonesPos, dict.marksPos, now, all)
    {}

    // Asking the dictionaries.
    method AskFor(ids: seq<nat>, d: int, cached: bool, ghost dmi: (bool, bool) -> Dmi, ghost lat: Lat,
                  ghost dmis: seq<Dmi>, ghost all: seq<Dmi>)
      returns (handle: nat, goOn: bool, raw: seq<Lpi>)
      requires Shape() && Shows(lat) && (cached ==> |ids| == 1 && w.half(ids[0]))
      requires Stack(lat.dmis + dmis) && Roomy(lat.dmis + dmis, all)
      requires Asking(lat, dmis, d, ids, dmi) && d < |lat.dmis| && Coming(lat, dmis, d, ids, dmi, all)
      modifies dict`marksPos, dict`stonesPos, dict.marks, dict.stones, lpiBuf
      ensures Stack(lat.dmis + dmis) && OkDicts(c) && ids != [] && S.OkHalves(c.h) && |lat.dmis + dmis| <= |handles|
      ensures var found := Answers(lat, d, ids);
              (handle > 0 <==> found.sys) && goOn == found.user && (!cached ==> raw == found.items)
      ensures dict.stonesPos == old(dict.stonesPos) + (if handle > 0 then 1 else 0)
      ensures dict.marksPos == old(dict.marksPos) + (if handle > 0 then Weight(c, ids) else 0)
      ensures handle > 0 ==> dict.HandleMeans(handle, D.Ranges(c.h, ids))
      ensures handle > 0 ==> forall i: nat :: i < |lat.dmis + dmis| && (lat.dmis + dmis)[i].sys ==> handles[i] < handle
    {
      hide *;
      ShapeFacts();
      ghost var now := lat.dmis + dmis;
      AskingFacts(lat, dmis, d, ids, dmi, all);
      var from, userOn := 0, true;
      StackParts(now);
      if d >= 0 {
        DmiShown(lat, d);
        from, userOn := handles[d], dmiPool[d].user;
      }
      BeforeAsk(lat, dmis, d, ids, dmi, all, from);
      SteadyFlag(w, c, ids, d < 0 || lat.dmis[d].sys, userOn, cached);
      handle, goOn, raw := AskKeeping(dict, from, userOn, ids, cached, h, user, lpiBuf, c, handles, now);
      IsStack(now);
    }

    // Asking, and filling in a match node with its handle.
    method AskAndFill(ids: seq<nat>, d: int, cached: bool, dmi: (bool, bool) -> Dmi, ghost lat: Lat,
                      ghost dmis: seq<Dmi>, ghost all: seq<Dmi>)
      returns (added: bool, raw: seq<Lpi>)
      requires Shape() && Shows(lat) && dmiUsed == |lat.dmis| + |dmis| < DMI_POOL_SIZE
      requires cached ==> |ids| == 1 && w.half(ids[0])
      requires Stack(lat.dmis + dmis) && Roomy(lat.dmis + dmis, all)
      requires Asking(lat, dmis, d, ids, dmi) && d < |lat.dmis| && Coming(lat, dmis, d, ids, dmi, all)
      modifies `handles, dmiPool, dict`marksPos, dict`stonesPos, dict.marks, dict.stones, lpiBuf
      ensures Shape() && dmiUsed < dmiPool.Length
      ensures var found := Answers(lat, d, ids);
              && (added <==> found.sys || found.user) && (!cached ==> raw == found.items)
              && dmiPool[..] == if added then old(dmiPool[..])[dmiUsed := dmi(found.sys, found.user)]
                   else old(dmiPool[..])
      ensures Stack(Now(lat, dmis, d, ids, dmi)) && Roomy(Now(lat, dmis, d, ids, dmi), all)
      ensures Extra(Now(lat, dmis, d, ids, dmi)) == old(Extra(lat.dmis + dmis))
    {
      hide *;
      ShapeFacts();
      ghost var now, stones0, marks0 := lat.dmis + dmis, dict.stonesPos, dict.marksPos;
      RoomyIs(now, all);
      ExtraIs(now);
      AskingFacts(lat, dmis, d, ids, dmi, all);
      NowIs(lat, dmis, d, ids, dmi);
      var handle, goOn;
      handle, goOn, raw := AskFor(ids, d, cached, dmi, lat, dmis, all);
      added := handle > 0 || goOn;
      StackParts(now);
      if added {
        ghost var x := dmi(handle > 0, goOn);
        AskIdsRoot(now, d, ids[|ids| - 1]);
        StackedMore(dict, c, handles, now, x, handle);
        RoomAfter(c, stones0, marks0, now, x, all, dict.stonesPos, dict.marksPos);
        BesideAfter(c, stones0, marks0, now, x, all, dict.stonesPos, dict.marksPos);
        FillDmi(dmi(handle > 0, goOn), handle);
        IsStack(now + [x]);
        RoomyIs(now + [x], all);
        ExtraIs(now + [x]);
      } else {
        RoomyIs(now, all);
        ExtraIs(now);
      }
    }

    lemma NowIs(lat: Lat, dmis: seq<Dmi>, d: int, ids: seq<nat>, dmi: (bool, bool) -> Dmi)
      requires d < |lat.dmis|
      ensures var found := Answers(lat, d, ids);
              Now(lat, dmis, d, ids, dmi) ==
                if found.sys || found.user then lat.dmis + dmis + [dmi(found.sys, found.user)] else lat.dmis + dmis
    {}

    lemma ShapeFacts()
      requires Shape()
      ensures Speaks(w, c) && h == c.h && user == c.user && lpiBuf.Length == MAX_LPI
      ensures |handles| == DMI_POOL_SIZE == dmiPool.Length
      ensures OkWorld(w) && CacheOk(w, cache)
    {
      hide OkWorld, CacheOk, Speaks;
    }

    lemma DmiShown(lat: Lat, d: nat)
      requires Shows(lat) && d < |lat.dmis|
      ensures d < dmiPool.Length && dmiPool[d] == lat.dmis[d]
    {
      assert dmiPool[d] == dmiPool[..|lat.dmis|][d];
    }

    method FillDmi(x: Dmi, handle: nat)
      requires Shape() && dmiUsed < DMI_POOL_SIZE
      modifies `handles, dmiPool
      ensures Shape() && handles == old(handles)[dmiUsed := handle] && dmiPool[..] == old(dmiPool[..])[dmiUsed := x]
    {
      hide OkWorld, CacheOk, Speaks;
      dmiPool[dmiUsed] := x;
      handles := handles[dmiUsed := handle];
    }

    // MatrixSearch::extend_dmi: asks the dictionaries, fills in a match node, and
    // returns the lemmas sorted, from the cache for a first half id seen before.
    method ExtendDmi(ids: seq<nat>, d: int, dmi: (bool, bool) -> Dmi, ghost lat: Lat, ghost dmis: seq<Dmi>,
                     ghost all: seq<Dmi>)
      returns (added: bool, items: seq<Lpi>)
      requires Hears()
      requires Shape() && Shows(lat) && dmiUsed == |lat.dmis| + |dmis| < DMI_POOL_SIZE
      requires Stack(lat.dmis + dmis) && Roomy(lat.dmis + dmis, all)
      requires Asking(lat, dmis, d, ids, dmi) && d < |lat.dmis| && Coming(lat, dmis, d, ids, dmi, all)
      modifies `cache, `handles, dmiPool, dict`marksPos, dict`stonesPos, dict.marks, dict.stones, lpiBuf
      ensures Shape() && dmiUsed < dmiPool.Length
      ensures var found := Answers(lat, d, ids);
              && (added <==> found.sys || found.user) && items == Items(w, ids, found.items)
              && dmiPool[..] == if added then old(dmiPool[..])[dmiUsed := dmi(found.sys, found.user)]
                   else old(dmiPool[..])
      ensures Stack(Now(lat, dmis, d, ids, dmi)) && Roomy(Now(lat, dmis, d, ids, dmi), all)
      ensures Extra(Now(lat, dmis, d, ids, dmi)) == old(Extra(lat.dmis + dmis))
    {
      hide *;
      Heard();
      ShapeFacts();
      AskingFacts(lat, dmis, d, ids, dmi, all);
      var splid := ids[|ids| - 1];
      var cached := d < 0 && splid in cache;
      if cached {
        CachedHalf(splid);
      }
      var raw;
      added, raw := AskAndFill(ids, d, cached, dmi, lat, dmis, all);
      ShapeFacts();
      RootAnswers(lat, d, ids);
      if cached {
        items := cache[splid];
        CachedItems(ids, splid);
      } else if raw == [] {
        NoLpis(w, ids);
        items := [];
      } else {
        items := sort(raw);
        SortedItems(w, ids, raw);
        if d < 0 && S.IsHalf(splid) {
          items := FirstItems(items);
          PutCache(ids, splid, items, raw);
        }
      }
    }

    lemma RootAnswers(lat: Lat, d: int, ids: seq<nat>)
      requires d < |lat.dmis|
      ensures d < 0 ==> Answers(lat, d, ids) == w.look(ids, true, true)
    {}

    lemma CachedHalf(splid: nat)
      requires CacheOk(w, cache) && splid in cache
      ensures w.half(splid)
    {}

    lemma CachedItems(ids: seq<nat>, splid: nat)
      requires CacheOk(w, cache) && splid in cache && |ids| == 1 && ids[0] == splid
      ensures cache[splid] == Items(w, ids, w.look(ids, true, true).items)
    {
      assert ids == [splid];
      hide Items;
    }

    method PutCache(ids: seq<nat>, splid: nat, items: seq<Lpi>, ghost raw: seq<Lpi>)
      requires Shape() && |ids| == 1 && ids[0] == splid && w.half(splid) && raw != []
      requires raw == w.look(ids, true, true).items
      requires items == Items(w, ids, raw) && items == FirstItems(w.sort(raw))
      modifies `cache
      ensures Shape()
    {
      hide OkWorld, Items, Speaks, FirstItems;
      assert ids == [splid];
      KeptItems(w, raw);
      cache := cache[splid := items];
    }

    // One call of extend_mtrx_nd
    method ExtendOne(at: nat, items: seq<Lpi>, dmiFr: nat, ghost lat: Lat, ghost row: seq<Node>)
      returns (ghost row': seq<Node>)
      requires InRow(lat, row) && at < |lat.nodes|
      modifies `rows, ndPool
      ensures row' == ExtendFrom(row, at, lat.nodes[at], items, dmiFr, decodedLen, 0) && InRow(lat, row')
      ensures |rows| == |old(rows)| && decodedLen < |rows| && rows == SetNum(old(rows), decodedLen, |row'|)
    {
      hide OkWorld, CacheOk, Speaks, ExtendFrom;
      assert ndPool[at] == ndPool[..|lat.nodes|][at] == lat.nodes[at];
      var num := ExtendMtrxNd(ndPool, ndUsed, rows[decodedLen].ndPos, rows[decodedLen].ndNum, at, items, dmiFr,
                              decodedLen);
      rows := SetNum(rows, decodedLen, num);
      row' := ndPool[ndUsed..ndUsed + num];
    }

    // Extending the row under construction by an offer, from every node of its source row.
    method ExtendRow(fr: nat, items: seq<Lpi>, dmiFr: nat, ext: nat, longest0: nat, ghost lat: Lat,
                     ghost row: seq<Node>)
      returns (longest: nat, ghost row': seq<Node>)
      requires InRow(lat, row) && Shows(lat) && |lat.rows| == decodedLen && ext > 0
      requires OfferFits(lat.rows, lat.nodes, Offer(fr, items, dmiFr))
      modifies `rows, ndPool
      ensures row' == ExtendOffer(row, lat.rows, lat.nodes, Offer(fr, items, dmiFr), decodedLen) && InRow(lat, row')
      ensures |rows| == |old(rows)| && decodedLen < |rows| && rows == SetNum(old(rows), decodedLen, |row'|)
      ensures longest == if longest0 == 0 && lat.rows[fr].ndNum > 0 then ext else longest0
    {
      hide *;
      OfferRow(lat, row, fr, Offer(fr, items, dmiFr));
      longest, row' := longest0, row;
      var o := Offer(fr, items, dmiFr);
      var begin, end: nat := rows[fr].ndPos, rows[fr].ndPos + rows[fr].ndNum;
      ghost var rows0 := rows;
      OfferNodes(row, lat, o, decodedLen);
      var at: nat := begin;
      while at < end
        invariant begin <= at <= end && InRow(lat, row') && |rows| == |rows0|
        invariant rows == SetNum(rows0, decodedLen, |row'|)
        invariant ExtendNodes(row', lat.nodes, at, end, o, decodedLen) ==
                    ExtendNodes(row, lat.nodes, begin, end, o, decodedLen)
        invariant longest == if longest0 == 0 && at > begin then ext else longest0
      {
        NodesStep(row', lat.nodes, at, end, o, decodedLen);
        ghost var before := |row'|;
        row' := ExtendOne(at, items, dmiFr, lat, row');
        SetNumTwice(rows0, decodedLen, before, |row'|);
        if longest == 0 {
          longest := ext;
        }
        at := at + 1;
      }
      NodesDone(row', lat.nodes, at, end, o, decodedLen);
    }

    lemma OfferRow(lat: Lat, row: seq<Node>, fr: nat, o: Offer)
      requires InRow(lat, row) && Shows(lat) && |lat.rows| == decodedLen && OfferFits(lat.rows, lat.nodes, o)
      requires fr == o.frRow
      ensures fr < |lat.rows| < |rows| && decodedLen < |rows| && rows[fr] == lat.rows[fr]
      ensures lat.rows[fr].ndPos + lat.rows[fr].ndNum <= |lat.nodes| && SetNum(rows, decodedLen, |row|) == rows
    {
      hide OkWorld, CacheOk, Speaks;
      assert rows[fr] == rows[..|lat.rows|][fr];
    }

    // What building tells before match node d of row decodedLen - ext is extended.
    lemma BuildFacts(lat: Lat, p: Plan, ext: nat, d: int)
      requires Building(lat, p) && 0 < ext <= decodedLen && MatchOf(lat, decodedLen - ext, d)
      ensures Shape() && Shows(lat) && OkLat(lat) && PlanOk(lat, p) && |lat.rows| == decodedLen <= |pys|
      ensures d < |lat.dmis|
      ensures |rows| == MAX_ROW_NUM > decodedLen && rows[decodedLen - ext] == lat.rows[decodedLen - ext]
      ensures |lat.dmis| <= dmiUsed == |lat.dmis| + |p.dmis| && d < dmiPool.Length
      ensures (d >= 0 ==> dmiPool[d] == lat.dmis[d])
      ensures forall i :: 0 <= i < |lat.dmis| ==> lat.dmis[i].from < i
      ensures d >= 0 ==> 0 < lat.dmis[d].len <= decodedLen - ext
    {
      MatchFacts(lat, decodedLen - ext, d);
      assert rows[decodedLen - ext] == rows[..|lat.rows|][decodedLen - ext];
      assert d >= 0 ==> dmiPool[d] == dmiPool[..|lat.dmis|][d];
    }

    lemma BuildParts(lat: Lat, p: Plan)
      requires Building(lat, p)
      ensures Counted(lat, p.dmis, p.hasFull) && OkLat(lat) && PlanOk(lat, p) && Shape() && Shows(lat)
      ensures FitAll(lat, p.offers) && forall o :: o in p.offers ==> OfferFits(lat.rows, lat.nodes, o)
      ensures InRow(lat, RowOf(lat.rows, lat.nodes, p.offers, decodedLen)) && Stack(lat.dmis + p.dmis)
    {
      hide Shape, Shows, RowOf, PlanOk, OkLat, InRow, Stack;
    }

    lemma Built(lat: Lat, p: Plan)
      requires OkLat(lat) && PlanOk(lat, p) && FitAll(lat, p.offers) && Counted(lat, p.dmis, p.hasFull)
      requires forall o :: o in p.offers ==> OfferFits(lat.rows, lat.nodes, o)
      requires InRow(lat, RowOf(lat.rows, lat.nodes, p.offers, decodedLen)) && Stack(lat.dmis + p.dmis)
      ensures Building(lat, p)
    {
      hide OkWorld, CacheOk, Speaks, RowOf, PlanOk, OkLat, InRow, Counted, Stack;
    }

    lemma CountedFacts(lat: Lat, dmis: seq<Dmi>, hasFull: bool)
      requires Counted(lat, dmis, hasFull)
      ensures Shape() && |lat.rows| == decodedLen < |rows| == MAX_ROW_NUM && rows[..decodedLen] == lat.rows
      ensures |lat.nodes| <= ndPool.Length && ndPool[..|lat.nodes|] == lat.nodes && dmiPool.Length == DMI_POOL_SIZE
      ensures dmiUsed == |lat.dmis| + |dmis| <= DMI_POOL_SIZE == |dmiPool[..]|
      ensures dmiPool[..][..|lat.dmis|] == lat.dmis && dmiPool[..][|lat.dmis|..dmiUsed] == dmis
      ensures rows[decodedLen].dmiPos == |lat.dmis| && rows[decodedLen].dmiNum == |dmis|
      ensures rows[decodedLen].hasFull == hasFull
      ensures Shows(lat)
    {
      hide OkWorld, CacheOk, Speaks;
    }

    lemma IsCounted(lat: Lat, dmis: seq<Dmi>, hasFull: bool)
      requires Shape() && |lat.rows| == decodedLen < |rows| == MAX_ROW_NUM && rows[..decodedLen] == lat.rows
      requires |lat.nodes| <= ndPool.Length && ndPool[..|lat.nodes|] == lat.nodes && dmiPool.Length == DMI_POOL_SIZE
      requires dmiUsed == |lat.dmis| + |dmis| <= DMI_POOL_SIZE == |dmiPool[..]|
      requires dmiPool[..][..|lat.dmis|] == lat.dmis && dmiPool[..][|lat.dmis|..dmiUsed] == dmis
      requires rows[decodedLen].dmiPos == |lat.dmis| && rows[decodedLen].dmiNum == |dmis|
      requires rows[decodedLen].hasFull == hasFull
      ensures Counted(lat, dmis, hasFull)
    {
      hide OkWorld, CacheOk, Speaks;
      assert dmiPool[..|lat.dmis|] == dmiPool[..][..|lat.dmis|];
      assert dmiPool[|lat.dmis|..dmiUsed] == dmiPool[..][|lat.dmis|..dmiUsed];
    }

    lemma InRowFacts(lat: Lat, row: seq<Node>)
      requires InRow(lat, row)
      ensures Shape() && ndUsed == |lat.nodes| && |lat.nodes| + MAX_NODE_A_ROW < MTRX_ND_POOL_SIZE == ndPool.Length
      ensures ndPool[..|lat.nodes|] == lat.nodes && decodedLen < |rows| && |row| <= MAX_NODE_A_ROW
      ensures rows[decodedLen].ndPos == ndUsed && rows[decodedLen].ndNum == |row|
      ensures ndPool[ndUsed..ndUsed + |row|] == row
    {
      hide OkWorld, CacheOk, Speaks;
    }

    lemma IsInRow(lat: Lat, row: seq<Node>)
      requires Shape() && ndUsed == |lat.nodes| && |lat.nodes| + MAX_NODE_A_ROW < MTRX_ND_POOL_SIZE == ndPool.Length
      requires ndPool[..|lat.nodes|] == lat.nodes && decodedLen < |rows| && |row| <= MAX_NODE_A_ROW
      requires rows[decodedLen].ndPos == ndUsed && rows[decodedLen].ndNum == |row|
      requires ndPool[ndUsed..ndUsed + |row|] == row
      ensures InRow(lat, row)
    {
      hide OkWorld, CacheOk, Speaks;
    }

    // The counters after a match node has been filled in.
    method CountDmi(full: bool)
      requires Shape() && |rows| == MAX_ROW_NUM && decodedLen < MAX_ROW_NUM
      modifies `rows, `dmiUsed
      ensures Shape() && dmiUsed == old(dmiUsed) + 1 && rows == AddDmi(old(rows), decodedLen, full)
    {
      hide OkWorld, CacheOk, Speaks;
      var row := rows[decodedLen];
      rows := rows[decodedLen := row.(dmiNum := row.dmiNum + 1, hasFull := row.hasFull || full)];
      dmiUsed := dmiUsed + 1;
    }

    // Filling in a match node for what the dictionaries answer, and their lemmas.
    method AddMatch(ids: seq<nat>, d: int, dmi: (bool, bool) -> Dmi, full: bool, ghost lat: Lat, ghost dmis: seq<Dmi>,
                    ghost hasFull: bool,
                    ghost row: seq<Node>, ghost all: seq<Dmi>)
      returns (added: bool, items: seq<Lpi>)
      requires Hears()
      requires Counted(lat, dmis, hasFull) && InRow(lat, row) && dmiUsed < DMI_POOL_SIZE
      requires Stack(lat.dmis + dmis) && Roomy(lat.dmis + dmis, all)
      requires Asking(lat, dmis, d, ids, dmi) && d < |lat.dmis| && Coming(lat, dmis, d, ids, dmi, all)
      modifies `rows, `dmiUsed, `cache, `handles, dmiPool, dict`marksPos, dict`stonesPos, dict.marks, dict.stones
      modifies lpiBuf
      ensures InRow(lat, row)
      ensures var found := Answers(lat, d, ids);
              var dmis' := if added then dmis + [dmi(found.sys, found.user)] else dmis;
              && (added <==> found.sys || found.user) && items == Items(w, ids, found.items)
              && Counted(lat, dmis', hasFull || (added && full)) && dmiUsed == |lat.dmis| + |dmis'|
              && Stack(lat.dmis + dmis') && Roomy(lat.dmis + dmis', all)
              && Extra(lat.dmis + dmis') == old(Extra(lat.dmis + dmis))
    {
      hide *;
      ghost var found := Answers(lat, d, ids);
      ghost var pool, rows0, n, used, dmis' := dmiPool[..], rows, decodedLen, dmiUsed, dmis;
      CountedFacts(lat, dmis, hasFull);
      InRowFacts(lat, row);
      added, items := ExtendDmi(ids, d, dmi, lat, dmis, all);
      NowIs(lat, dmis, d, ids, dmi);
      if added {
        dmis' := dmis + [dmi(found.sys, found.user)];
        Assoc1(lat.dmis, dmis, dmi(found.sys, found.user));
        PoolGrows(pool, lat.dmis, dmis, dmi(found.sys, found.user));
        CountDmi(full);
        AddDmiFacts(rows0, n, full);
      }
      IsCounted(lat, dmis', hasFull || (added && full));
      IsInRow(lat, row);
    }

    // Offering the lemmas found to the row.
    method OfferItems(fr: nat, items: seq<Lpi>, at: nat, ext: nat, longest0: nat, ghost lat: Lat,
                      ghost dmis: seq<Dmi>, ghost hasFull: bool, ghost row: seq<Node>)
      returns (longest: nat, ghost row': seq<Node>)
      requires Counted(lat, dmis, hasFull) && InRow(lat, row) && ext > 0
      requires OfferFits(lat.rows, lat.nodes, Offer(fr, items, at))
      modifies `rows, ndPool
      ensures Counted(lat, dmis, hasFull) && InRow(lat, row')
      ensures row' == ExtendOffer(row, lat.rows, lat.nodes, Offer(fr, items, at), decodedLen)
      ensures longest == if longest0 == 0 && lat.rows[fr].ndNum > 0 then ext else longest0
    {
      ghost var rows0, n := rows, decodedLen;
      hide OkWorld, CacheOk, Speaks, ExtendOffer, SetNum;
      longest, row' := ExtendRow(fr, items, at, ext, longest0, lat, row);
      SetNumFacts(rows0, n, |row'|);
    }

    lemma AskingIs(lat: Lat, p: Plan, d: int, idx: nat, ids: seq<nat>, dmi: (bool, bool) -> Dmi)
      requires Stack(lat.dmis + p.dmis) && d < |lat.dmis| && (forall i :: 0 <= i < |lat.dmis| ==> lat.dmis[i].from < i)
      requires OkDicts(c) && OkId(c, idx) && ids == IdsWith(lat, d, idx)
      requires (d >= 0 ==> lat.dmis[d].level < MAX_LEMMA_SIZE)
      requires forall a, b :: dmi(a, b).sys == a && dmi(a, b).user == b && dmi(a, b).from == (if d < 0 then -1 else d)
                        && dmi(a, b).splId == idx && dmi(a, b).level == (if d < 0 then 0 else lat.dmis[d].level) + 1
      ensures Asking(lat, p.dmis, d, ids, dmi)
    {
      StackParts(lat.dmis + p.dmis);
      var now := lat.dmis + p.dmis;
      StackLinked(dict, c, handles, now);
      if d >= 0 {
        StackedAt(dict, c, handles, now, d);
        IdsPrefix(now, |lat.dmis|, d);
        assert now[..|lat.dmis|] == lat.dmis;
      }
      hide Stack, Same, Stacked, Ids, OkDicts;
    }

    // Extending one match node, or the root: a new match node, then the row.
    method ExtendMatch(ids: seq<nat>, ext: nat, idx: nat, d: int, longest0: nat, ghost lat: Lat, ghost p: Plan,
                       ghost p': Plan, ghost all: seq<Dmi>)
      returns (longest: nat)
      requires OkLat(lat) && 0 < ext <= decodedLen == |lat.rows| && decodedLen <= |pys|
      requires d < |lat.dmis| && MatchOf(lat, decodedLen - ext, d)
      requires p' == Match(w, pys[..decodedLen], lat, ext, idx, d, p) && !Skipped(w, lat, decodedLen - ext, ext, d, p)
      requires forall i :: 0 <= i < |lat.dmis| ==> lat.dmis[i].from < i
      requires ids == IdsWith(lat, d, idx) && (d >= 0 ==> lat.dmis[d].level < MAX_LEMMA_SIZE)
      requires OkDicts(c) && OkId(c, idx) && lat.dmis + p'.dmis <= all && longest0 == p.longest
      requires Building(lat, p) && dmiUsed < DMI_POOL_SIZE && Roomy(lat.dmis + p.dmis, all) && Hears()
      modifies `rows, `dmiUsed, `cache, `handles, ndPool, dmiPool, dict`marksPos, dict`stonesPos, dict.marks
      modifies dict.stones, lpiBuf
      ensures Building(lat, p') && Roomy(lat.dmis + p'.dmis, all) && longest == p'.longest
      ensures Extra(lat.dmis + p'.dmis) == old(Extra(lat.dmis + p.dmis))
    {
      hide *;
      Heard();
      BuildFacts(lat, p, ext, d);
      BuildParts(lat, p);
      ghost var row := RowOf(lat.rows, lat.nodes, p.offers, decodedLen);
      var level, len, full := 0, 0, true;
      if d >= 0 {
        level, len, full := dmiPool[d].level, dmiPool[d].len, dmiPool[d].allFull;
      }
      var split, from, half := !L.Letter(pys[decodedLen - 1]), if d < 0 then -1 else d, S.IsHalf(idx);
      var dmi := (sys: bool, user: bool) => Dmi(sys, user, from, idx, level + 1, split, len + ext, !half && full);
      ghost var s := pys[..decodedLen];
      NewDmiIs(w, s, lat, ext, idx, d, Answers(lat, d, ids));
      MatchReady(s, lat, p, p', ext, idx, d, ids);
      AskingIs(lat, p, d, idx, ids, dmi);
      ComingIs(lat, p, p', d, ids, dmi, all);
      var added, items := AddMatch(ids, d, dmi, !half, lat, p.dmis, p.hasFull, row, all);
      SourceRowIs(lat, decodedLen - ext, d);
      longest := OfferFound(decodedLen - ext - len, items, dmiUsed - (if added then 1 else 0), ext, longest0, lat, p,
                            p', row);
    }

    // The plan after the match node, by what the dictionaries answer.
    lemma MatchReady(s: string, lat: Lat, p: Plan, p': Plan, ext: nat, idx: nat, d: int, ids: seq<nat>)
      requires OkWorld(w) && OkLat(lat) && 0 < ext <= |s| == |lat.rows| && MatchOf(lat, |s| - ext, d) && PlanOk(lat, p)
      requires d < |lat.dmis| && forall i :: 0 <= i < |lat.dmis| ==> lat.dmis[i].from < i
      requires ids == IdsWith(lat, d, idx) && !Skipped(w, lat, |s| - ext, ext, d, p)
      requires p' == Match(w, s, lat, ext, idx, d, p)
      ensures PlanOk(lat, p') && FitAll(lat, p'.offers)
      ensures var found := Answers(lat, d, ids);
              var items, added := Items(w, ids, found.items), found.sys || found.user;
              && p'.dmis == (if added then p.dmis + [NewDmi(w, s, lat, ext, idx, d, found)] else p.dmis)
              && p'.hasFull == (p.hasFull || (added && !w.half(idx)))
              && (items == [] ==> p'.offers == p.offers && p'.longest == p.longest)
              && (items != [] ==>
                   && 0 <= SourceRow(lat, |s| - ext, d) < |lat.rows|
                   && p'.offers == p.offers + [Offer(SourceRow(lat, |s| - ext, d), items, |lat.dmis| + |p.dmis|)]
                   && p'.longest ==
                        if p.longest == 0 && lat.rows[SourceRow(lat, |s| - ext, d)].ndNum > 0 then ext else p.longest)
    {
      hide *;
      MatchKeeps(w, s, lat, ext, idx, d, p);
      MatchParts(w, s, lat, ext, idx, d, p);
      OffersFit(lat, p');
      AnswersIs(lat, d, idx, ids);
    }

    // Offering what was found, if anything.
    method OfferFound(fr: nat, items: seq<Lpi>, at: nat, ext: nat, longest0: nat, ghost lat: Lat, ghost p: Plan,
                      ghost p': Plan, ghost row: seq<Node>)
      returns (longest: nat)
      requires Counted(lat, p'.dmis, p'.hasFull) && InRow(lat, row) && Stack(lat.dmis + p'.dmis) && PlanOk(lat, p')
      requires OkLat(lat)
      requires FitAll(lat, p.offers) && (forall o :: o in p.offers ==> OfferFits(lat.rows, lat.nodes, o))
      requires row == RowOf(lat.rows, lat.nodes, p.offers, decodedLen) && ext > 0 && longest0 == p.longest
      requires fr < |lat.rows|
      requires items == [] ==> p'.offers == p.offers && p'.longest == p.longest
      requires items != [] ==> p'.offers == p.offers + [Offer(fr, items, at)]
      requires items != [] ==> p'.longest == if p.longest == 0 && lat.rows[fr].ndNum > 0 then ext else p.longest
      modifies `rows, ndPool
      ensures Building(lat, p') && longest == p'.longest
    {
      hide *;
      CountedFacts(lat, p'.dmis, p'.hasFull);
      OffersFit(lat, p');
      longest := longest0;
      if items != [] {
        OneMoreOffer(lat, p.offers, Offer(fr, items, at), decodedLen);
        ghost var row';
        longest, row' := OfferItems(fr, items, at, ext, longest, lat, p'.dmis, p'.hasFull, row);
      }
      Built(lat, p');
    }

    lemma AnswersIs(lat: Lat, d: int, idx: nat, ids: seq<nat>)
      requires d < |lat.dmis| && (forall i :: 0 <= i < |lat.dmis| ==> lat.dmis[i].from < i)
      requires ids == IdsWith(lat, d, idx)
      ensures Answers(lat, d, ids) == Answer(w, lat, d, idx)
    {}

    lemma ComingIs(lat: Lat, p: Plan, p': Plan, d: int, ids: seq<nat>, dmi: (bool, bool) -> Dmi, all: seq<Dmi>)
      requires d < |lat.dmis| && lat.dmis + p'.dmis <= all
      requires var found := Answers(lat, d, ids);
               found.sys || found.user ==> p'.dmis == p.dmis + [dmi(found.sys, found.user)]
      ensures Coming(lat, p.dmis, d, ids, dmi, all)
    {
      var found := Answers(lat, d, ids);
      Assoc1(lat.dmis, p.dmis, dmi(found.sys, found.user));
    }

    // The body of the loop over match nodes.
    method MatchNode(ext: nat, idx: nat, d: int, longest0: nat, ghost lat: Lat, ghost p: Plan, ghost p': Plan,
                     ghost all: seq<Dmi>)
      returns (longest: nat)
      requires OkLat(lat) && 0 < ext <= decodedLen == |lat.rows| && decodedLen <= |pys|
      requires MatchOf(lat, decodedLen - ext, d)
      requires p' == Match(w, pys[..decodedLen], lat, ext, idx, d, p) && lat.dmis + p'.dmis <= all
      requires OkDicts(c) && OkId(c, idx) && longest0 == p.longest
      requires Building(lat, p) && dmiUsed < DMI_POOL_SIZE && Roomy(lat.dmis + p.dmis, all) && Hears()
      modifies `rows, `dmiUsed, `cache, `handles, ndPool, dmiPool, dict`marksPos, dict`stonesPos, dict.marks
      modifies dict.stones, lpiBuf
      ensures Building(lat, p') && Roomy(lat.dmis + p'.dmis, all) && longest == p'.longest
      ensures Extra(lat.dmis + p'.dmis) == old(Extra(lat.dmis + p.dmis))
    {
      hide *;
      Heard();
      BuildFacts(lat, p, ext, d);
      ghost var s := pys[..decodedLen];
      longest := longest0;
      var oldRow := decodedLen - ext;
      MatchCases(w, s, lat, ext, idx, d, p);
      // "g ao" is not allowed after "gao", nor "z h" after "zh".
      if longest > ext {
        if d < 0 && !rows[oldRow].hasFull {
          return;
        }
        if d >= 0 && S.IsHalf(dmiPool[d].splId) {
          return;
        }
      }
      var ids := [idx];
      IdsCases(lat, d, idx);
      if d >= 0 {
        if dmiPool[d].level >= MAX_LEMMA_SIZE {
          return;
        }
        var before := CollectIds(d, lat);
        ids := before + [idx];
      }
      longest := ExtendMatch(ids, ext, idx, d, longest, lat, p, p', all);
    }

    // The loop over the match nodes of an earlier row, and then the root.
    method MatchLoop(ext: nat, idx: nat, longest0: nat, ghost lat: Lat, ghost p0: Plan, ghost last: Plan,
                     ghost all: seq<Dmi>)
      returns (longest: nat)
      requires OkLat(lat) && 0 < ext <= decodedLen == |lat.rows| && decodedLen <= |pys|
      requires last == Matches(w, pys[..decodedLen], lat, ext, idx, lat.rows[decodedLen - ext].dmiPos, p0)
      requires OkDicts(c) && OkId(c, idx) && lat.dmis + last.dmis <= all && |all| < DMI_POOL_SIZE
      requires Building(lat, p0) && Roomy(lat.dmis + p0.dmis, all) && Hears() && longest0 == p0.longest
      modifies `rows, `dmiUsed, `cache, `handles, ndPool, dmiPool, dict`marksPos, dict`stonesPos, dict.marks
      modifies dict.stones, lpiBuf
      ensures Building(lat, last) && longest == last.longest && Roomy(lat.dmis + last.dmis, all)
      ensures Extra(lat.dmis + last.dmis) == old(Extra(lat.dmis + p0.dmis))
    {
      hide *;
      BuildFacts(lat, p0, ext, -1);
      ghost var s, p := pys[..decodedLen], p0;
      longest := longest0;
      var begin, end: nat := rows[decodedLen - ext].dmiPos,
            rows[decodedLen - ext].dmiPos + rows[decodedLen - ext].dmiNum;
      var pos: nat := begin;
      while pos < end + 1
        invariant begin <= pos <= end + 1 && Building(lat, p) && longest == p.longest
        invariant Matches(w, s, lat, ext, idx, pos, p) == last
        invariant Roomy(lat.dmis + p.dmis, all) && Extra(lat.dmis + p.dmis) == old(Extra(lat.dmis + p0.dmis))
        decreases end + 1 - pos
      {
        MatchesGrow(w, s, lat, ext, idx, pos, p);
        BuildFacts(lat, p, ext, -1);
        IsMatchOf(lat, decodedLen - ext, if pos == end then -1 else pos);
        MatchesStep(w, s, lat, ext, idx, pos, p);
        ghost var q := Match(w, s, lat, ext, idx, if pos == end then -1 else pos, p);
        MatchesGrow(w, s, lat, ext, idx, pos + 1, q);
        Prefixes(lat.dmis, q.dmis, last.dmis, all);
        Prefixes(lat.dmis, p.dmis, last.dmis, all);
        longest := MatchNode(ext, idx, if pos == end then -1 else pos, longest, lat, p, q, all);
        p := q;
        pos := pos + 1;
      }
      MatchesDone(w, s, lat, ext, idx, pos, p);
    }

    // The body of the loop over the lengths of a spelling.
    method ExtendBy(ext: nat, longest0: nat, matched0: bool, ghost s: string, ghost lat: Lat, ghost p0: Plan,
                    ghost p': Plan, ghost all: seq<Dmi>)
      returns (longest: nat, matched: bool)
      requires OkLat(lat) && 0 < ext <= |s| == |lat.rows| && p' == Extend(w, s, lat, ext, p0)
      requires longest0 == p0.longest && matched0 == p0.matched && lat.dmis + p'.dmis <= all && |all| < DMI_POOL_SIZE
      requires decodedLen == |s| && s <= pys && Building(lat, p0) && Roomy(lat.dmis + p0.dmis, all)
      requires Shape() && Hears()
      modifies `rows, `dmiUsed, `cache, `handles, ndPool, dmiPool, dict`marksPos, dict`stonesPos, dict.marks
      modifies dict.stones, lpiBuf
      ensures longest == p'.longest && matched == p'.matched
      ensures Building(lat, p') && Roomy(lat.dmis + p'.dmis, all) && Shape()
      ensures Extra(lat.dmis + p'.dmis) == old(Extra(lat.dmis + p0.dmis))
    {
      hide *;
      Heard();
      ShapeFacts();
      SpeaksDicts(w, c);
      BuildFacts(lat, p0, ext, -1);
      var oldRow := decodedLen - ext;
      ghost var p := p0;
      longest, matched := longest0, matched0;
      assert s == pys[..decodedLen];
      ExtendCases(w, s, lat, ext, p);
      if rows[oldRow].ndNum == 0 {
        return;
      }
      assert s[oldRow..] == pys[oldRow..decodedLen];
      var idx, pre := SplidAndPre(parser, pys[oldRow..decodedLen], c, sort, xian);
      if pre {
        matched := true;
        SetMatched(lat, p);
        p := p.(matched := true);
      }
      if idx == 0 {
        return;
      }
      MatchesKeepMatched(w, s, lat, ext, idx, lat.rows[oldRow].dmiPos, p);
      ParsedId(w, c, s[oldRow..]);
      longest := MatchLoop(ext, idx, longest, lat, p, p', all);
      BuildingShape(lat, p');
    }

    // MatrixSearch::add_char_qwerty
    method AddCharQwerty(ghost lat: Lat, ghost all: seq<Dmi>) returns (matched: bool, ghost p: Plan)
      requires OkLat(lat) && decodedLen <= |pys| && |lat.rows| == decodedLen
      requires lat.dmis + PlanOf(w, pys[..decodedLen], lat).dmis <= all && |all| < DMI_POOL_SIZE
      requires Building(lat, NO_PLAN) && Roomy(lat.dmis + NO_PLAN.dmis, all) && Shape()
      requires Hears()
      modifies `rows, `dmiUsed, `cache, `handles, ndPool, dmiPool, dict`marksPos, dict`stonesPos, dict.marks
      modifies dict.stones, lpiBuf
      ensures Building(lat, p) && p == PlanOf(w, pys[..decodedLen], lat) && matched == p.matched
      ensures Roomy(lat.dmis + p.dmis, all) && Extra(lat.dmis + p.dmis) == old(Extra(lat.dmis + NO_PLAN.dmis))
    {
      NoPlanIs();
      hide *;
      ghost var s, last := pys[..decodedLen], PlanOf(w, pys[..decodedLen], lat);
      Heard();
      PlanStart(w, s, lat);
      var longest := 0;
      matched, p := false, NO_PLAN;
      var ext: nat := MAX_PINYIN_SIZE + 1;
      while ext > 0
        invariant Building(lat, p) && longest == p.longest && matched == p.matched && Extends(w, s, lat, ext, p) == last
        invariant Roomy(lat.dmis + p.dmis, all) && Extra(lat.dmis + p.dmis) == old(Extra(lat.dmis + NO_PLAN.dmis))
        invariant Shape()
        decreases ext
      {
        ExtendsStep(w, s, lat, ext, p);
        if ext > decodedLen {
          ext := ext - 1;
          continue;
        }
        BuildFacts(lat, p, ext, -1);
        var oldRow := decodedLen - ext;
        if ext > 1 && longest != 0 && !rows[oldRow].hasFull {
          if xian {
            ext := ext - 1;
            continue;
          } else {
            break;
          }
        }
        ghost var q := Extend(w, s, lat, ext, p);
        ExtendsGrow(w, s, lat, ext - 1, q);
        Prefixes(lat.dmis, q.dmis, last.dmis, all);
        longest, matched := ExtendBy(ext, longest, matched, s, lat, p, q, all);
        p := q;
        ext := ext - 1;
      }
      ExtendsDone(w, s, lat, p);
    }

    lemma SetMatched(lat: Lat, p: Plan)
      requires Building(lat, p)
      ensures Building(lat, p.(matched := true))
    {
      hide Counted, InRow, OkLat, RowOf;
    }

    lemma StartRow(lat: Lat)
      requires Stack(lat.dmis) && Shape() && Shows(lat) && OkLat(lat) && |lat.rows| == decodedLen
      requires ndUsed == |lat.nodes| && |lat.nodes| + MAX_NODE_A_ROW < MTRX_ND_POOL_SIZE && dmiUsed == |lat.dmis|
      requires rows[decodedLen] == Row(ndUsed, 0, dmiUsed, 0, false)
      ensures Building(lat, NO_PLAN)
    {
      hide OkWorld, CacheOk, Speaks, OkLat, Stack;
      assert lat.dmis + [] == lat.dmis;
    }

    lemma EndRow(lat: Lat, p: Plan)
      requires Building(lat, p)
      ensures FitAll(lat, p.offers) && forall o :: o in p.offers ==> OfferFits(lat.rows, lat.nodes, o)
      ensures Shape() && Shows(lat) && ndUsed == |lat.nodes| && dmiUsed == |lat.dmis| + |p.dmis|
      ensures |lat.rows| == decodedLen < |rows| == MAX_ROW_NUM
      ensures var row := RowOf(lat.rows, lat.nodes, p.offers, decodedLen);
              Shows(WithRow(lat, row, p.dmis, p.hasFull)) && rows[decodedLen].ndNum == |row|
      ensures Stack(lat.dmis + p.dmis) && Stack(lat.dmis)
    {
      StackFront(lat.dmis, p.dmis);
      hide OkWorld, CacheOk, Speaks, OkLat, PlanOk, RowOf, Stack;
      var row := RowOf(lat.rows, lat.nodes, p.offers, decodedLen);
      var lat' := WithRow(lat, row, p.dmis, p.hasFull);
      assert rows[..decodedLen + 1] == rows[..decodedLen] + [rows[decodedLen]];
      assert ndPool[..|lat.nodes| + |row|] == ndPool[..|lat.nodes|] + ndPool[|lat.nodes|..|lat.nodes| + |row|];
      assert dmiPool[..|lat.dmis| + |p.dmis|] == dmiPool[..|lat.dmis|] + dmiPool[|lat.dmis|..|lat.dmis| + |p.dmis|];
    }

    lemma StackFront(dmis: seq<Dmi>, more: seq<Dmi>)
      requires Stack(dmis + more)
      ensures Stack(dmis)
    {
      StackParts(dmis + more);
      StackedPrefix(dict, c, handles, dmis + more, |dmis|);
      assert (dmis + more)[..|dmis|] == dmis;
      hide Same, Stacked;
    }

    // MatrixSearch::prepare_add_char
    method PrepareAddChar(ghost lat: Lat)
      requires Stack(lat.dmis) && Shape() && Shows(lat) && OkLat(lat) && |lat.rows| == decodedLen + 1 < MAX_ROW_NUM
      requires decodedLen < |pys|
      requires ndUsed == |lat.nodes| && |lat.nodes| + MAX_NODE_A_ROW < MTRX_ND_POOL_SIZE && dmiUsed == |lat.dmis|
      modifies `decodedLen, `rows
      ensures decodedLen == old(decodedLen) + 1 && Building(lat, NO_PLAN)
    {
      hide OkWorld, CacheOk, Speaks, OkLat, Building, Stack;
      decodedLen := decodedLen + 1;
      rows := rows[decodedLen := Row(ndUsed, 0, dmiUsed, 0, false)];
      StartRow(lat);
    }

    // The match nodes of the first k characters.
    ghost function NodesOf(k: nat): seq<Dmi>
      reads this`pys
    {
      if OkWorld(w) && k <= |pys| then Run(w, pys[..k]).dmis else []
    }

    // MatrixSearch::add_char, and the step back search takes when it fails.
    method AddChar(ch: char, ghost all: seq<Dmi>) returns (ok: bool)
      requires OkWorld(w) && decodedLen < |pys| && pys[decodedLen] == ch && |all| < DMI_POOL_SIZE
      requires Tried(w, pys, decodedLen) ==> NodesOf(decodedLen + 1) <= all
      requires Roomy(NodesOf(decodedLen), all) && Valid() && Tight() && Hears()
      modifies `decodedLen, `rows, `ndUsed, `dmiUsed, `cache, `handles, ndPool, dmiPool, dict`marksPos, dict`stonesPos
      modifies dict.marks, dict.stones, lpiBuf
      ensures decodedLen == (if ok then old(decodedLen) + 1 else old(decodedLen))
      ensures ok == Accepts(old(decodedLen))
      ensures var n := old(decodedLen);
              && Extra(NodesOf(if Tried(w, pys, n) then n + 1 else n)) == old(Extra(NodesOf(decodedLen)))
              && (NoLeak() <==>
                    && old(NoLeak())
                    && (ok || !Tried(w, pys, n) || Stones(NodesOf(n)) == Stones(NodesOf(n + 1))))
      ensures Valid() && (ok ==> Tight() && Roomy(NodesOf(decodedLen), all))
    {
      hide *;
      Heard();
      OpenUp();
      NodesAre(decodedLen);
      NodesAre(decodedLen + 1);
      AcceptsIs(decodedLen);
      ghost var n, stones0 := decodedLen, dict.stonesPos;
      NoLeakIs();
      ExtraStones(Run(w, pys[..n]).dmis);
      if Tried(w, pys, n) {
        StonesGrow(all);
      }
      ghost var s, lat := pys[..n + 1], Run(w, pys[..n]);
      ghost var row := RunStep(w, pys, n);
      if decodedLen >= MAX_ROW_NUM - 1 || (!L.Letter(ch) && ch != '\'') {
        return false;
      }
      if dmiUsed >= DMI_POOL_SIZE {
        return false;
      }
      PrepareAddChar(lat);
      var matched: bool;
      ghost var p;
      BuildingShape(lat, NO_PLAN);
      NoDmis(lat.dmis);
      WithRowDmis(lat, row, PlanOf(w, s, lat).dmis, PlanOf(w, s, lat).hasFull);
      matched, p := AddCharQwerty(lat, all);
      EndRow(lat, p);
      AdvancePool(rows[decodedLen].ndNum, lat, WithRow(lat, row, p.dmis, p.hasFull));
      ok := rows[decodedLen].ndNum != 0 || matched;
      WithRowDmis(lat, row, p.dmis, p.hasFull);
      ExtraStones(Run(w, s).dmis);
      if ok {
        AllAddedLonger(w, pys, n);
        CloseUp();
      } else {
        Retract(lat);
        CloseUp();
      }
      NoLeakIs();
    }

    // The next character is accepted.
    ghost predicate Accepts(k: nat)
      reads this`pys
    {
      OkWorld(w) && k < |pys| && Added(w, pys, k)
    }

    lemma AcceptsIs(k: nat)
      ensures OkWorld(w) && k < |pys| ==> (Accepts(k) <==> Added(w, pys, k))
    {
      hide OkWorld, Added;
    }

    lemma NodesAre(k: nat)
      ensures OkWorld(w) && k <= |pys| ==> NodesOf(k) == Run(w, pys[..k]).dmis
    {
      hide OkWorld, Run;
    }

    lemma ExtraStones(dmis: seq<Dmi>)
      ensures Extra(dmis).0 == dict.stonesPos - Stones(dmis)
    {}

    // The match nodes of the next row only add stones to those on the stack.
    lemma StonesGrow(all: seq<Dmi>)
      requires Valid() && OkWorld(w) && decodedLen < |pys| && Roomy(Run(w, pys[..decodedLen]).dmis, all)
      requires Run(w, pys[..decodedLen + 1]).dmis <= all
      ensures D.FIRST_HANDLE + Stones(Run(w, pys[..decodedLen]).dmis) <= dict.stonesPos
      ensures Stones(Run(w, pys[..decodedLen]).dmis) <= Stones(Run(w, pys[..decodedLen + 1]).dmis)
    {
      hide *;
      var now, next := Run(w, pys[..decodedLen]).dmis, Run(w, pys[..decodedLen + 1]).dmis;
      ValidFacts();
      StackParts(now);
      SameFacts(dict, c);
      StackedHandles(dict, c, handles, now);
      PackedCounts(handles, now, dict.stonesPos);
      RoomyIs(now, all);
      assert pys[..decodedLen + 1][..decodedLen] == pys[..decodedLen];
      RunGrows(w, pys[..decodedLen + 1], decodedLen);
      RoomLinked(c, dict.stonesPos, dict.marksPos, now, all);
      StacksGrow(c, next, all);
      StacksGrow(c, now, next);
    }

    lemma BuildingShape(lat: Lat, p: Plan)
      requires Building(lat, p)
      ensures Shape()
    {
      hide OkWorld, CacheOk, Speaks, Stack, OkLat, PlanOk, InRow;
    }

    method AdvancePool(num: nat, ghost lat: Lat, ghost lat': Lat)
      requires Shape() && Shows(lat) && Shows(lat')
      modifies `ndUsed
      ensures Shape() && Shows(lat) && Shows(lat') && ndUsed == old(ndUsed) + num
    {
      hide OkWorld, CacheOk, Speaks;
      ndUsed := ndUsed + num;
    }

    method Retract(ghost lat: Lat)
      requires Shape() && Shows(lat) && decodedLen > 0
      modifies `decodedLen
      ensures Shape() && Shows(lat) && decodedLen == old(decodedLen) - 1
    {
      hide OkWorld, CacheOk, Speaks;
      decodedLen := decodedLen - 1;
    }

    lemma OpenUp()
      requires Valid() && Tight()
      ensures Shape() && Shows(Run(w, pys[..decodedLen])) && AllAdded(w, pys[..decodedLen]) && OkWorld(w)
      ensures ndUsed == |Run(w, pys[..decodedLen]).nodes| && dmiUsed == |Run(w, pys[..decodedLen]).dmis|
      ensures |rows| == MAX_ROW_NUM == 40 && decodedLen < MAX_ROW_NUM && Stack(Run(w, pys[..decodedLen]).dmis)
    {
      hide OkWorld, CacheOk, Speaks, Shows, AllAdded, Stack;
    }

    lemma CloseUp()
      requires Shape() && Shows(Run(w, pys[..decodedLen])) && AllAdded(w, pys[..decodedLen])
      requires Stack(Run(w, pys[..decodedLen]).dmis)
      ensures Valid()
      ensures ndUsed == |Run(w, pys[..decodedLen]).nodes| && dmiUsed == |Run(w, pys[..decodedLen]).dmis| ==> Tight()
    {
      hide OkWorld, CacheOk, Speaks, Shows, AllAdded, Stack;
    }

    // The mile stone reset_search(k) hands back to: that of the first match node of row k + 1, if any.
    ghost function ResetHandle(k: nat): nat
      reads this
    {
      if k < decodedLen && k + 1 < |rows| && rows[k + 1].dmiNum > 0 && rows[k + 1].dmiPos < |handles| then
        handles[rows[k + 1].dmiPos] else 0
    }

    // The tops of the dictionary's stacks after reset_search(k).
    ghost function StonesAfter(k: nat): nat
      reads this, dict
    {
      if k == 0 then D.FIRST_HANDLE
      else if D.FIRST_HANDLE <= ResetHandle(k) < dict.stonesPos then ResetHandle(k)
      else dict.stonesPos
    }

    ghost function MarksAfter(k: nat): nat
      reads this, dict, dict.stones
    {
      if k == 0 then 0
      else if D.FIRST_HANDLE <= ResetHandle(k) < dict.stonesPos && ResetHandle(k) < dict.stones.Length then
        dict.stones[ResetHandle(k)].start
      else dict.marksPos
    }

    // The stack holds no stone but those of the match nodes.
    ghost predicate NoLeak()
      reads this, dict
    {
      && OkWorld(w) && decodedLen <= |pys|
      && dict.stonesPos == D.FIRST_HANDLE + Stones(Run(w, pys[..decodedLen]).dmis)
    }

    // The match nodes of the first k characters hold every stone that reset_search(k) leaves.
    ghost predicate HandsBack(k: nat)
      reads this, dict
    {
      && OkWorld(w) && k <= |pys| && |Run(w, pys[..k]).dmis| <= |handles|
      && (k == 0 || Packed(handles, Run(w, pys[..k]).dmis, StonesAfter(k)))
    }

    lemma NoLeakIs()
      ensures NoLeak() <==> && OkWorld(w) && decodedLen <= |pys|
                            && dict.stonesPos == D.FIRST_HANDLE + Stones(Run(w, pys[..decodedLen]).dmis)
    {}

    lemma HandsBackIs(k: nat)
      ensures HandsBack(k) <==>
                && OkWorld(w) && k <= |pys| && |Run(w, pys[..k]).dmis| <= |handles|
                && (k == 0 || Packed(handles, Run(w, pys[..k]).dmis, StonesAfter(k)))
    {}

    // No stone of a match node is ever given back, and no more is left exactly if the nodes hold them all.
    lemma ResetCounts(k: nat)
      requires Valid() && k <= decodedLen
      ensures OkWorld(w) && k <= |pys| && D.FIRST_HANDLE + Stones(Run(w, pys[..k]).dmis) <= StonesAfter(k)
      ensures StonesAfter(k) == D.FIRST_HANDLE + Stones(Run(w, pys[..k]).dmis) <==> HandsBack(k)
      ensures k == 0 ==> HandsBack(k)
    {
      hide *;
      ValidFacts();
      AfterIs(k);
      HandsBackIs(k);
      ghost var all, front := Run(w, pys[..decodedLen]).dmis, Run(w, pys[..k]).dmis;
      StackParts(all);
      SameFacts(dict, c);
      KeptFront(k);
      if k == 0 {
        RunNothing(w, pys[..k]);
        NoStones();
      } else {
        StackedHandles(dict, c, handles, all);
        StackedRises(dict, c, handles, all, |front|);
        ResetHandleOf(k);
        PackedCounts(handles, front, StonesAfter(k));
      }
    }

    // When nothing has leaked before, nothing does exactly if the next row begins with a match node that has a
    // stone, or no match node behind has one.
    lemma LeakCondition(k: nat)
      requires Valid() && NoLeak() && k <= decodedLen
      ensures OkWorld(w) && decodedLen <= |pys|
      ensures HandsBack(k) <==>
                k == 0 || ResetHandle(k) > 0
                || Stones(Run(w, pys[..k]).dmis) == Stones(Run(w, pys[..decodedLen]).dmis)
    {
      hide *;
      ValidFacts();
      NoLeakIs();
      ResetCounts(k);
      HandsBackIs(k);
      AfterIs(k);
      ghost var all, front := Run(w, pys[..decodedLen]).dmis, Run(w, pys[..k]).dmis;
      StackParts(all);
      SameFacts(dict, c);
      KeptFront(k);
      if k > 0 && ResetHandle(k) > 0 {
        assert all[..|front|] == front;
        ResetHandleOf(k);
        StackedHandles(dict, c, handles, all);
        PackedCounts(handles, all, dict.stonesPos);
        PackedFront(handles, all, |front|, dict.stonesPos);
      }
    }

    // reset_search(k) hands back to the stone of match node number |Run(..k).dmis|, if at all.
    lemma ResetHandleOf(k: nat)
      requires Valid() && k <= decodedLen && OkWorld(w) && decodedLen <= |pys|
      ensures var all, m := Run(w, pys[..decodedLen]).dmis, |Run(w, pys[..k]).dmis|;
              |all| <= |handles| && (ResetHandle(k) > 0 ==> m < |all| && ResetHandle(k) == handles[m])
    {
      hide *;
      ValidFacts();
      StackParts(Run(w, pys[..decodedLen]).dmis);
      ResetHandleIs(k);
      if k < decodedLen {
        NextRow(w, pys[..decodedLen], k);
        assert pys[..decodedLen][..k] == pys[..k];
        ShowsRow(Run(w, pys[..decodedLen]), k + 1);
      }
    }

    // The match nodes of a beginning are the first ones.
    lemma KeptFront(k: nat)
      requires OkWorld(w) && k <= decodedLen <= |pys|
      ensures Run(w, pys[..k]).dmis <= Run(w, pys[..decodedLen]).dmis
    {
      assert pys[..decodedLen][..k] == pys[..k];
      RunGrows(w, pys[..decodedLen], k);
    }

    // MatrixSearch::reset_search with nothing fixed and no clearing of the step.
    method ResetSearch(k: nat)
      requires Valid() && k <= decodedLen
      modifies `decodedLen, `rows, `ndUsed, `dmiUsed, ndPool, dict`marksPos, dict`stonesPos
      ensures Valid() && Tight() && decodedLen == k
      ensures dict.stonesPos == old(StonesAfter(k)) && dict.marksPos == old(MarksAfter(k))
      ensures NoLeak() <==> old(HandsBack(k))
    {
      hide *;
      ValidFacts();
      ResetCounts(k);
      ghost var p := pys[..decodedLen];
      RewindIsShorter(w, p, k);
      assert p[..k] == pys[..k];
      ghost var D0, lat := Run(w, p), Run(w, pys[..k]);
      ShowsTrunc(D0, k);
      AllAddedShorter(w, p, k);
      RunSize(w, p);
      ShowsRow(D0, k);
      AfterIs(k);
      FrontDmis(D0, lat, k);
      StackParts(D0.dmis);
      if k == 0 {
        RunNothing(w, pys[..k]);
        ResetStack(0, 0, D0.dmis, 0);
        Restart(lat);
      } else {
        var handle := HandleOf(k, D0, |lat.dmis|);
        ResetStack(k, handle, D0.dmis, |lat.dmis|);
        Rewind(k, lat);
      }
      RunEnd(w, p, k);
      CloseUp();
      NoLeakIs();
    }

    // The stacks go back; the match nodes before number m keep their mile stones.
    method ResetStack(k: nat, handle: nat, ghost dmis: seq<Dmi>, ghost m: nat)
      requires Stack(dmis) && m <= |dmis| && (k == 0 ==> m == 0)
      requires k > 0 && handle > 0 ==> m < |dmis| && m < |handles| && handle == handles[m]
      modifies dict`marksPos, dict`stonesPos
      ensures Stack(dmis[..m])
      ensures k == 0 ==> dict.stonesPos == D.FIRST_HANDLE && dict.marksPos == 0
      ensures k > 0 && D.FIRST_HANDLE <= handle < old(dict.stonesPos) ==>
                dict.stonesPos == handle && handle < dict.stones.Length && dict.marksPos == dict.stones[handle].start
      ensures k > 0 && !(D.FIRST_HANDLE <= handle < old(dict.stonesPos)) ==>
                dict.stonesPos == old(dict.stonesPos) && dict.marksPos == old(dict.marksPos)
    {
      hide *;
      StackParts(dmis);
      SameFacts(dict, c);
      dict.ValidFacts();
      D.StonesRoom(dict.stones[..], dict.stonesPos, dict.marksPos);
      StackedPrefix(dict, c, handles, dmis, m);
      StackedBelow(dict, c, handles, dmis);
      StackedRises(dict, c, handles, dmis, m);
      StackedOpen(dict, c, handles, dmis[..m]);
      assert forall i: nat :: i < |dmis[..m]| ==> dmis[..m][i] == dmis[i];
      dict.ResetMilestones(k, handle);
      StackedClose(dict, c, handles, dmis[..m]);
      IsSame(dict, c);
      IsStack(dmis[..m]);
    }

    // The handle reset_search hands back to, of match node m if there is one.
    method HandleOf(k: nat, ghost lat: Lat, ghost m: nat) returns (handle: nat)
      requires Shape() && Shows(lat) && lat == Run(w, pys[..decodedLen]) && k <= decodedLen
      requires m == |Run(w, pys[..decodedLen][..k]).dmis| && |lat.dmis| <= |handles|
      ensures handle == ResetHandle(k) && (handle > 0 ==> m < |lat.dmis| && handle == handles[m])
    {
      hide *;
      ShapeSizes();
      ResetHandleIs(k);
      handle := 0;
      if decodedLen > k {
        NextRow(w, pys[..decodedLen], k);
        ShowsRow(lat, k + 1);
        if rows[k + 1].dmiNum > 0 {
          handle := handles[rows[k + 1].dmiPos];
        }
      }
    }

    lemma ShapeSizes()
      requires Shape()
      ensures OkWorld(w) && |rows| == MAX_ROW_NUM && decodedLen < MAX_ROW_NUM && decodedLen <= |pys|
      ensures |handles| == DMI_POOL_SIZE
    {
      hide OkWorld, CacheOk, Speaks;
    }

    lemma ResetHandleIs(k: nat)
      ensures ResetHandle(k) ==
              if k < decodedLen && k + 1 < |rows| && rows[k + 1].dmiNum > 0 && rows[k + 1].dmiPos < |handles| then
                handles[rows[k + 1].dmiPos]
              else 0
    {}

    lemma AfterIs(k: nat)
      ensures k == 0 ==> StonesAfter(k) == D.FIRST_HANDLE && MarksAfter(k) == 0
      ensures var on := D.FIRST_HANDLE <= ResetHandle(k) < dict.stonesPos;
              && (k > 0 && !on ==> StonesAfter(k) == dict.stonesPos && MarksAfter(k) == dict.marksPos)
              && (k > 0 && on ==> StonesAfter(k) == ResetHandle(k))
              && (k > 0 && on && ResetHandle(k) < dict.stones.Length ==>
                   MarksAfter(k) == dict.stones[ResetHandle(k)].start)
    {}

    lemma ValidFacts()
      requires Valid()
      ensures Shape() && Shows(Run(w, pys[..decodedLen])) && AllAdded(w, pys[..decodedLen]) && OkWorld(w)
      ensures Stack(Run(w, pys[..decodedLen]).dmis)
      ensures |rows| == MAX_ROW_NUM == 40 && decodedLen < MAX_ROW_NUM && decodedLen <= |pys|
      ensures ndPool.Length == MTRX_ND_POOL_SIZE && dmiPool.Length == DMI_POOL_SIZE
    {
      hide OkWorld, CacheOk, Speaks, Shows, AllAdded, Stack;
    }

    lemma ShowsIs(lat: Lat)
      ensures Shows(lat) <==>
                && |lat.rows| <= |rows| && rows[..|lat.rows|] == lat.rows
                && |lat.nodes| <= ndPool.Length && ndPool[..|lat.nodes|] == lat.nodes
                && |lat.dmis| <= dmiPool.Length && dmiPool[..|lat.dmis|] == lat.dmis
    {}

    lemma ShowsTrunc(lat: Lat, k: nat)
      requires Shows(lat) && k < |lat.rows|
      requires lat.rows[k].ndPos + lat.rows[k].ndNum <= |lat.nodes|
      requires lat.rows[k].dmiPos + lat.rows[k].dmiNum <= |lat.dmis|
      ensures Shows(Trunc(lat, k))
    {
      var t := Trunc(lat, k);
      assert rows[..k + 1] == rows[..|lat.rows|][..k + 1];
      assert ndPool[..|t.nodes|] == ndPool[..|lat.nodes|][..|t.nodes|];
      assert dmiPool[..|t.dmis|] == dmiPool[..|lat.dmis|][..|t.dmis|];
    }

    lemma ShowsRow(lat: Lat, k: nat)
      requires Shows(lat) && k < |lat.rows|
      ensures k < |rows| && rows[k] == lat.rows[k]
    {
      assert rows[k] == rows[..|lat.rows|][k];
    }

    // reset_search0
    method Restart(ghost lat: Lat)
      requires Shape() && lat == EMPTY_LAT
      modifies `decodedLen, `rows, `ndUsed, `dmiUsed, ndPool
      ensures Shape() && Shows(lat) && decodedLen == 0 && ndUsed == |lat.nodes| && dmiUsed == |lat.dmis|
    {
      hide OkWorld, CacheOk, Speaks;
      decodedLen, ndUsed, dmiUsed := 0, 1, 0;
      rows := rows[0 := ROOT_ROW];
      ndPool[0] := ROOT_NODE;
    }

    // The pools are used up to the end of row k.
    method Rewind(k: nat, ghost lat: Lat)
      requires Shape() && Shows(lat) && k <= decodedLen && k < |rows|
      modifies `decodedLen, `ndUsed, `dmiUsed
      ensures Shape() && Shows(lat) && decodedLen == k
      ensures ndUsed == rows[k].ndPos + rows[k].ndNum && dmiUsed == rows[k].dmiPos + rows[k].dmiNum
    {
      hide OkWorld, CacheOk, Speaks;
      decodedLen := k;
      dmiUsed := rows[k].dmiPos + rows[k].dmiNum;
      ndUsed := rows[k].ndPos + rows[k].ndNum;
    }

    // The live part as a value.
    method Live(ghost p: string) returns (lat: Lat)
      requires Valid() && p == pys[..decodedLen]
      ensures lat == Run(w, p)
    {
      hide *;
      ValidFacts();
      RunSize(w, p);
      ShowsIs(Run(w, p));
      ShowsRow(Run(w, p), decodedLen);
      RunEnd(w, p, decodedLen);
      assert p[..decodedLen] == p;
      var last := rows[decodedLen];
      lat := Lat(rows[..decodedLen + 1], ndPool[..last.ndPos + last.ndNum], dmiPool[..last.dmiPos + last.dmiNum]);
    }

    lemma ArraySizes()
      requires Shape()
      ensures splStart.Length == splId.Length == lmaStart.Length == lmaId.Length == MAX_ROW_NUM == 40 && OkWorld(w)
      ensures splStart != splId && splStart != lmaStart && splStart != lmaId && splId != lmaStart && splId != lmaId
      ensures lmaStart != lmaId
    {}

    // Filling the segmentation arrays.
    method FillSegments(ghost p: string) returns (spls: nat, lmas: nat)
      requires Valid() && p == pys[..decodedLen]
      modifies splStart, splId, lmaStart, lmaId
      ensures OkWorld(w) && spls == SplNum(w, p) && lmas == |SegOf(w, p).lmaId|
      ensures Filled(splStart, splId, lmaStart, lmaId, SegOf(w, p))
    {
      hide *;
      ValidFacts();
      ArraySizes();
      RunSize(w, p);
      ShowsRow(Run(w, p), decodedLen);
      var lat := Live(p);
      lmaStart[0] := 0;
      splStart[0] := 0;
      NothingFilled(splStart, splId, lmaStart, lmaId);
      if decodedLen == 0 || rows[decodedLen].ndNum == 0 {
        NoPath(w, p);
        return 0, 0;
      }
      PathRoom(w, p);
      spls, lmas := Segment.GetSplStartId(lat, rows[decodedLen].ndPos, 0, 0, splStart, splId, lmaStart, lmaId, NO_SEG);
      PathIs(w, p);
    }

    // MatrixSearch::get_spl_start_id with nothing fixed.
    method GetSplStartId()
      requires Valid()
      modifies `splNum, `lmaNum, splStart, splId, lmaStart, lmaId
      ensures Valid() && splNum == SplNum(w, pys[..decodedLen])
      ensures Filled(splStart, splId, lmaStart, lmaId, SegOf(w, pys[..decodedLen]))
      ensures lmaNum == |SegOf(w, pys[..decodedLen]).lmaId|
    {
      hide *;
      ValidFacts();
      ArraysApart();
      var spls, lmas := FillSegments(pys[..decodedLen]);
      SetNums(spls, lmas);
    }

    lemma ArraysApart()
      requires Valid()
      ensures dict.idBuf != splStart && dict.idBuf != splId && dict.idBuf != lmaStart && dict.idBuf != lmaId
      ensures dict.splidIndex != splStart && dict.splidIndex != splId
      ensures dict.splidIndex != lmaStart && dict.splidIndex != lmaId
    {
      ValidFacts();
      StackParts(Run(w, pys[..decodedLen]).dmis);
      hide Valid, Run;
    }

    method SetNums(spls: nat, lmas: nat)
      requires Valid()
      modifies `splNum, `lmaNum
      ensures Valid() && splNum == spls && lmaNum == lmas
    {
      hide OkWorld, CacheOk, Speaks, Run, AllAdded, Stack;
      splNum, lmaNum := spls, lmas;
    }

    // The text replaced behind the decoded part.
    method SetText(q: string)
      requires Valid() && decodedLen <= |q| && q[..decodedLen] == pys[..decodedLen]
      modifies `pys
      ensures Valid() && pys == q && (old(Tight()) ==> Tight())
    {
      hide OkWorld, CacheOk, Speaks, Run, AllAdded;
      pys := q;
    }

    // The beginning the new text shares with what is decoded.
    method CommonPrefix(q: string) returns (k: nat)
      requires decodedLen <= |pys|
      ensures k <= decodedLen && k <= |q| && pys[..k] == q[..k] && k == CommonLen(pys[..decodedLen], q)
    {
      k := 0;
      ghost var p := pys[..decodedLen];
      assert p[0..] == p && q[0..] == q;
      while k < decodedLen && k < |q| && q[k] == pys[k]
        invariant k <= decodedLen && k <= |q| && pys[..k] == q[..k]
        invariant k + CommonLen(p[k..], q[k..]) == CommonLen(p, q)
      {
        assert pys[..k + 1] == pys[..k] + [pys[k]] && q[..k + 1] == q[..k] + [q[k]];
        assert p[k..][1..] == p[k + 1..] && q[k..][1..] == q[k + 1..];
        k := k + 1;
      }
    }

    // The loop of search that adds the characters behind the common prefix.
    method AddChars(q: string) returns (accepted: nat)
      requires Hears()
      requires Valid() && Tight() && pys == q && |q| < MAX_ROW_NUM && decodedLen <= |q|
      requires Roomy(Run(w, pys[..decodedLen]).dmis, Run(w, q[..TriedLen(w, q)]).dmis)
      modifies `decodedLen, `rows, `ndUsed, `dmiUsed, `cache, `handles, ndPool, dmiPool, dict`marksPos, dict`stonesPos
      modifies dict.marks, dict.stones, lpiBuf
      ensures Valid() && decodedLen == accepted == AcceptedLen(w, q, 0) <= |q|
      ensures TriedLen(w, q) <= |q|
      ensures Extra(Run(w, q[..TriedLen(w, q)]).dmis) == old(Extra(Run(w, pys[..decodedLen]).dmis))
    {
      hide *;
      ValidFacts();
      AcceptedFrom(w, q, decodedLen);
      ghost var all := Run(w, q[..TriedLen(w, q)]).dmis;
      RoomyIs(Run(w, pys[..decodedLen]).dmis, all);
      RoomSize(c, dict.stonesPos, dict.marksPos, Run(w, pys[..decodedLen]).dmis, all);
      accepted := decodedLen;
      while accepted < |q|
        invariant Valid() && Tight() && decodedLen == accepted <= |q|
        invariant AcceptedLen(w, q, accepted) == AcceptedLen(w, q, 0)
        invariant Roomy(Run(w, pys[..decodedLen]).dmis, all)
        invariant Extra(Run(w, pys[..decodedLen]).dmis) == old(Extra(Run(w, pys[..decodedLen]).dmis))
      {
        AcceptedStep(w, q, accepted);
        TriedIfAdded(w, q, accepted);
        if Tried(w, q, accepted) {
          WithinTried(w, q, accepted);
        }
        NodesAre(accepted);
        NodesAre(accepted + 1);
        AcceptsIs(accepted);
        var ok := AddChar(q[accepted], all);
        if !ok {
          TriedLenIs(w, q, accepted);
          return;
        }
        accepted := accepted + 1;
      }
      AcceptedStep(w, q, accepted);
      TriedLenIs(w, q, accepted);
    }

    // Up to the last row that is tried no pool and no stack runs out.
    ghost predicate SearchRoom(py: string)
      reads this, dict, dict.stones
    {
      && OkWorld(w) && decodedLen <= |pys|
      && var q := Typed(py);
         var k := CommonLen(pys[..decodedLen], q);
         Room(c, StonesAfter(k), MarksAfter(k), Run(w, q[..k]).dmis, Run(w, q[..TriedLen(w, q)]).dmis)
    }

    // What is on the stacks beside the nodes' own when search has rewound to what py shares with the text.
    ghost function ExtraAt(py: string): (int, int)
      reads this, dict, dict.stones
    {
      if OkWorld(w) && decodedLen <= |pys| then
        var q := Typed(py);
        var k := CommonLen(pys[..decodedLen], q);
        Beside(c, StonesAfter(k), MarksAfter(k), Run(w, q[..k]).dmis)
      else (0, 0)
    }

    lemma ExtraAtIs(py: string, q: string, k: nat)
      requires OkWorld(w) && decodedLen <= |pys| && q == Typed(py) && k == CommonLen(pys[..decodedLen], q)
      ensures ExtraAt(py) == Beside(c, StonesAfter(k), MarksAfter(k), Run(w, q[..k]).dmis)
    {
      hide OkWorld, Run, Beside, StonesAfter, MarksAfter, Typed, CommonLen;
    }

    // A text that shares nothing with what is decoded starts with empty stacks: whether there is room
    // depends on the text alone.
    lemma RoomFromScratch(py: string)
      requires OkWorld(w) && decodedLen <= |pys| && OkDicts(c) && CommonLen(pys[..decodedLen], Typed(py)) == 0
      ensures var all := Run(w, Typed(py)[..TriedLen(w, Typed(py))]).dmis;
              SearchRoom(py) <==>
                && Linked(all) && |all| < DMI_POOL_SIZE && D.FIRST_HANDLE + Stones(all) < D.MAX_MILE_STONE
                && Marks(c, all) <= D.MAX_PARSING_MARK
    {
      var q := Typed(py);
      RunNothing(w, q[..0]);
      AfterIs(0);
      hide OkWorld, OkDicts, Run, Stones, Marks, Linked, StonesAfter, MarksAfter;
      NothingHeld(c);
      RoomIs(c, StonesAfter(0), MarksAfter(0), [], Run(w, q[..TriedLen(w, q)]).dmis);
    }

    // MatrixSearch::search with nothing fixed. Whatever was searched before, the
    // state afterwards is that of the text alone.
    method Search(py: string) returns (accepted: nat)
      requires Valid() && Hears() && SearchRoom(py)
      modifies `pys, `decodedLen, `rows, `ndUsed, `dmiUsed, `cache, `handles, `splNum, `lmaNum
      modifies ndPool, dmiPool, splStart, splId, lmaStart, lmaId, dict`marksPos, dict`stonesPos, dict.marks
      modifies dict.stones, lpiBuf
      ensures Valid() && accepted == AcceptedLen(w, Typed(py), 0)
      ensures decodedLen == FinalLen(w, Typed(py)) <= |Typed(py)| && pys[..decodedLen] == Typed(py)[..decodedLen]
      ensures splNum == SplNum(w, pys[..decodedLen]) <= MAX_SPELLINGS
      ensures Filled(splStart, splId, lmaStart, lmaId, SegOf(w, pys[..decodedLen]))
      ensures lmaNum == |SegOf(w, pys[..decodedLen]).lmaId|
      ensures decodedLen < |rows| && (rows[decodedLen].ndNum > 0 ==> Cut())
      ensures SplNum(w, Typed(py)[..accepted]) <= MAX_SPELLINGS ==>
                && Extra(Run(w, Typed(py)[..TriedLen(w, Typed(py))]).dmis) == old(ExtraAt(py))
                && (NoLeak() <==>
                      && old(HandsBack(CommonLen(pys[..decodedLen], Typed(py))))
                      && Stones(Run(w, Typed(py)[..accepted]).dmis) ==
                         Stones(Run(w, Typed(py)[..TriedLen(w, Typed(py))]).dmis))
    {
      TypedIs(py);
      hide *;
      var q := if |py| > MAX_ROW_NUM - 1 then py[..MAX_ROW_NUM - 1] else py;
      ValidFacts();
      GoBack(py, q);
      ghost var k := decodedLen;
      ExtraStones(Run(w, pys[..k]).dmis);
      accepted := AddChars(q);
      ExtraIs(Run(w, q[..TriedLen(w, q)]).dmis);
      ShrinkText(q);
      ExtraIs(Run(w, q[..TriedLen(w, q)]).dmis);
      ExtraStones(Run(w, q[..TriedLen(w, q)]).dmis);
      StonesTried(w, q);
      if SplNum(w, q[..accepted]) <= MAX_SPELLINGS {
        NothingShrunk(w, q);
      }
      NoLeakIs();
      CutUp();
    }

    // The first part of search: back to what the new text shares with the old one.
    method GoBack(ghost py: string, q: string)
      requires OkWorld(w) && q == Typed(py) && Valid() && SearchRoom(py)
      modifies `pys, `decodedLen, `rows, `ndUsed, `dmiUsed, ndPool, dict`marksPos, dict`stonesPos
      ensures pys == q && decodedLen == CommonLen(old(pys[..decodedLen]), q) <= |q|
      ensures Valid() && Tight() && Roomy(Run(w, pys[..decodedLen]).dmis, Run(w, q[..TriedLen(w, q)]).dmis)
      ensures Extra(Run(w, pys[..decodedLen]).dmis) == old(ExtraAt(py))
      ensures D.FIRST_HANDLE + Stones(Run(w, pys[..decodedLen]).dmis) <= dict.stonesPos
      ensures dict.stonesPos == D.FIRST_HANDLE + Stones(Run(w, pys[..decodedLen]).dmis) <==>
              old(HandsBack(CommonLen(pys[..decodedLen], Typed(py))))
    {
      hide *;
      ValidFacts();
      var k := CommonPrefix(q);
      SearchRoomIs(py, q, k);
      ExtraAtIs(py, q, k);
      ResetCounts(k);
      ResetSearch(k);
      NoLeakIs();
      SetText(q);
      ExtraIs(Run(w, pys[..decodedLen]).dmis);
      RoomyIs(Run(w, pys[..decodedLen]).dmis, Run(w, q[..TriedLen(w, q)]).dmis);
    }

    // search drops characters behind until the spellings fit.
    method ShrinkText(q: string)
      requires Valid() && pys == q && decodedLen <= |q| && OkWorld(w) && decodedLen == AcceptedLen(w, q, 0)
      modifies `pys, `decodedLen, `rows, `ndUsed, `dmiUsed, `splNum, `lmaNum
      modifies ndPool, splStart, splId, lmaStart, lmaId, dict`marksPos, dict`stonesPos
      ensures Valid() && OkWorld(w) && decodedLen == FinalLen(w, q) <= |q| && decodedLen <= |pys|
      ensures pys[..decodedLen] == q[..decodedLen]
      ensures splNum == SplNum(w, pys[..decodedLen]) <= MAX_SPELLINGS
      ensures Filled(splStart, splId, lmaStart, lmaId, SegOf(w, pys[..decodedLen]))
      ensures lmaNum == |SegOf(w, pys[..decodedLen]).lmaId|
      ensures SplNum(w, q[..old(decodedLen)]) <= MAX_SPELLINGS ==>
                dict.stonesPos == old(dict.stonesPos) && dict.marksPos == old(dict.marksPos)
    {
      hide *;
      ValidFacts();
      GetSplStartId();
      var len: nat := |q|;
      ShrinkStart(w, q);
      assert q[..len] == q;
      while splNum > MAX_SPELLINGS
        invariant Valid() && decodedLen <= len <= |q| && pys == q[..len]
        invariant Shrink(w, q, decodedLen, len) == FinalLen(w, q) && splNum == SplNum(w, pys[..decodedLen])
        invariant Filled(splStart, splId, lmaStart, lmaId, SegOf(w, pys[..decodedLen]))
        invariant lmaNum == |SegOf(w, pys[..decodedLen]).lmaId|
        invariant SplNum(w, q[..old(decodedLen)]) <= MAX_SPELLINGS ==>
                    && splNum <= MAX_SPELLINGS
                    && dict.stonesPos == old(dict.stonesPos) && dict.marksPos == old(dict.marksPos)
        decreases len
      {
        assert pys[..decodedLen] == q[..decodedLen];
        ShrinkStep(w, q, decodedLen, len);
        len := len - 1;
        if len <= decodedLen {
          ResetSearch(len);
        }
        assert q[..len][..decodedLen] == pys[..decodedLen];
        SetText(q[..len]);
        GetSplStartId();
      }
      assert pys[..decodedLen] == q[..decodedLen];
      ShrinkDone(w, q, decodedLen, len);
    }

    // The spellings start at 0, one behind the other, and reach the end of what is decoded; so do the
    // words, counted in spellings.
    ghost predicate Cut()
      reads this, splStart, lmaStart
    {
      && splNum < splStart.Length && splStart[0] == 0 && Tiles(splStart[1..splNum + 1], 0, decodedLen)
      && lmaNum < lmaStart.Length && lmaStart[0] == 0 && Tiles(lmaStart[1..lmaNum + 1], 0, splNum)
    }

    lemma CutUp()
      requires Valid() && OkWorld(w) && decodedLen <= |pys| && splNum == SplNum(w, pys[..decodedLen])
      requires var g := SegOf(w, pys[..decodedLen]); Filled(splStart, splId, lmaStart, lmaId, g) && lmaNum == |g.lmaId|
      ensures decodedLen < |rows| && (rows[decodedLen].ndNum > 0 ==> Cut())
    {
      hide *;
      ghost var p := pys[..decodedLen];
      ValidFacts();
      RunSize(w, p);
      ShowsRow(Run(w, p), decodedLen);
      if rows[decodedLen].ndNum > 0 {
        SegTiles(w, p);
        SegSize(w, p);
        CutIs(SegOf(w, p));
      }
    }

    lemma CutIs(g: Seg)
      requires Filled(splStart, splId, lmaStart, lmaId, g) && splNum == |g.splId| && lmaNum == |g.lmaId|
      requires |g.splStart| == |g.splId| + 1 && g.splStart[0] == 0 && Tiles(g.splStart[1..], 0, decodedLen)
      requires |g.lmaStart| == |g.lmaId| + 1 && g.lmaStart[0] == 0 && Tiles(g.lmaStart[1..], 0, |g.splId|)
      ensures Cut()
    {
      hide Tiles;
      assert splStart[0] == splStart[..splNum + 1][0] && lmaStart[0] == lmaStart[..lmaNum + 1][0];
      assert splStart[1..splNum + 1] == splStart[..splNum + 1][1..];
      assert lmaStart[1..lmaNum + 1] == lmaStart[..lmaNum + 1][1..];
    }

    lemma SearchRoomIs(py: string, q: string, k: nat)
      requires SearchRoom(py) && q == Typed(py) && k == CommonLen(pys[..decodedLen], q) && OkWorld(w) && k <= |q|
      ensures Room(c, StonesAfter(k), MarksAfter(k), Run(w, q[..k]).dmis, Run(w, q[..TriedLen(w, q)]).dmis)
    {
      hide OkWorld, Run, Room, StonesAfter, MarksAfter;
    }

    // A decoder in its initial state over a loaded dictionary.
    constructor (parser: P.SpellingParser, dict: D.DictTrie, h: S.Halves, user: seq<nat> -> (bool, seq<Lpi>),
                 sort: seq<Lpi> -> seq<Lpi>, xian: bool, ghost c: Dicts)
      requires SameIds(parser, c) && OkDicts(c) && Steady(S.IsHalf, c) && Same(dict, c) && h == c.h && user == c.user
      requires forall s :: SortedLpis(sort(s)) && multiset(sort(s)) == multiset(s)
      ensures Valid() && Hears() && this.dict == dict && this.c == c && decodedLen == 0 && pys == []
      ensures this.parser == parser && this.sort == sort && this.xian == xian
      ensures fresh(ndPool) && fresh(dmiPool) && fresh(splStart) && fresh(splId) && fresh(lmaStart) && fresh(lmaId)
      ensures fresh(lpiBuf)
    {
      hide OkWorld, Speaks, Same, Valid, SameIds, WorldOf, Steady, OkDicts, SortedLpis;
      OkParser(parser, c);
      this.w := WorldOf(parser, c, sort, xian);
      this.parser, this.sort, this.xian := parser, sort, xian;
      this.dict, this.h, this.user, this.c := dict, h, user, c;
      var nd, dmi, lpi := NewPools();
      var spls, sids, lmas, lids := NewStarts();
      ndPool, dmiPool, lpiBuf, splStart, splId, lmaStart, lmaId := nd, dmi, lpi, spls, sids, lmas, lids;
      pys, decodedLen, rows, ndUsed, dmiUsed := [], 0, seq(MAX_ROW_NUM, _ => ROOT_ROW), 1, 0;
      handles := seq(DMI_POOL_SIZE, _ => 0);
      cache, splNum, lmaNum := map[], 0, 0;
      new;
      assert Apart(dict.idBuf) && Apart(dict.splidIndex) && rows[0] == ROOT_ROW;
      hide *;
      WorldSpeaks(parser, c, sort, xian);
      HearsIs();
      Started();
    }

    static method NewPools() returns (nd: array<Node>, dmi: array<Dmi>, lpi: array<D.Item>)
      ensures fresh(nd) && nd.Length == MTRX_ND_POOL_SIZE > 0 && nd[0] == ROOT_NODE
      ensures fresh(dmi) && dmi.Length == DMI_POOL_SIZE && fresh(lpi) && lpi.Length == MAX_LPI
    {
      nd := new Node[MTRX_ND_POOL_SIZE](_ => ROOT_NODE);
      dmi, lpi := new Dmi[DMI_POOL_SIZE], new D.Item[MAX_LPI];
    }

    static method NewStarts() returns (splStart: array<nat>, splId: array<nat>, lmaStart: array<nat>, lmaId: array<nat>)
      ensures fresh(splStart) && fresh(splId) && fresh(lmaStart) && fresh(lmaId)
      ensures splStart.Length == splId.Length == lmaStart.Length == lmaId.Length == MAX_ROW_NUM
      ensures splStart != splId && splStart != lmaStart && splStart != lmaId && splId != lmaStart && splId != lmaId
      ensures lmaStart != lmaId
    {
      splStart, splId := new nat[MAX_ROW_NUM], new nat[MAX_ROW_NUM];
      lmaStart, lmaId := new nat[MAX_ROW_NUM], new nat[MAX_ROW_NUM];
    }

    lemma Started()
      requires OkWorld(w) && Speaks(w, c) && Same(dict, c) && h == c.h && user == c.user && lpiBuf.Length == MAX_LPI
      requires ndPool.Length == MTRX_ND_POOL_SIZE && dmiPool.Length == DMI_POOL_SIZE && |handles| == DMI_POOL_SIZE
      requires splStart.Length == splId.Length == lmaStart.Length == lmaId.Length == MAX_ROW_NUM == |rows|
      requires splStart != splId && splStart != lmaStart && splStart != lmaId && splId != lmaStart && splId != lmaId
      requires lmaStart != lmaId
      requires pys == [] && decodedLen == 0 && rows[0] == ROOT_ROW && ndPool[0] == ROOT_NODE && cache == map[]
      requires Apart(dict.idBuf) && Apart(dict.splidIndex)
      ensures Valid()
    {
      RunNothing(w, pys[..0]);
      SpeaksDicts(w, c);
      NothingStacked(dict, c, handles);
      hide OkWorld, Speaks, Same, Stacked;
      assert rows[..1] == [ROOT_ROW] && ndPool[..1] == [ROOT_NODE] && dmiPool[..0] == [];
    }
  }

  lemma OkParser(parser: P.SpellingParser, c: Dicts)
    requires SameIds(parser, c)
    ensures P.OkConf(parser.C())
  {
    SameBuilt(parser, c);
    parser.BuiltFacts();
    hide SameIds, P.OkConf;
  }

  lemma SpeaksDicts(w: World, c: Dicts)
    requires Speaks(w, c)
    ensures OkDicts(c) && S.OkHalves(c.h)
  {
    hide Asked;
  }

  // The user dictionary's flag does not depend on the cache.
  lemma SteadyFlag(w: World, c: Dicts, ids: seq<nat>, sys: bool, user: bool, cached: bool)
    requires Speaks(w, c) && S.OkHalves(c.h) && OkIds(c, ids) && (cached ==> |ids| == 1 && w.half(ids[0]))
    ensures OkDicts(c) && UserOn(c, ids, sys, user, cached) == Asked(c, ids, sys, user).user
  {
    hide OkDicts, OkId, Layer, SysLpis;
    if cached {
      assert ids == [ids[0]];
      assert OkId(c, ids[0]);
    }
  }

  lemma ParsedId(w: World, c: Dicts, s: string)
    requires Speaks(w, c)
    ensures S.OkHalves(c.h) && (w.splid(s).0 != 0 ==> OkId(c, w.splid(s).0))
  {
    hide Asked, OkId;
  }

  lemma RoomLinked(c: Dicts, stonesPos: nat, marksPos: nat, now: seq<Dmi>, all: seq<Dmi>)
    requires Room(c, stonesPos, marksPos, now, all)
    ensures OkDicts(c) && Linked(all)
  {
    hide OkDicts;
  }

  lemma {:induction false} StonesFront(now: seq<Dmi>, all: seq<Dmi>)
    requires now <= all
    ensures Stones(now) <= Stones(all)
    decreases |all|
  {
    if now != all {
      StonesFront(now, all[..|all| - 1]);
    }
  }

  // A character that is not accepted only adds stones.
  lemma StonesTried(w: World, q: string)
    requires OkWorld(w)
    ensures AcceptedLen(w, q, 0) <= TriedLen(w, q) <= |q|
    ensures Stones(Run(w, q[..AcceptedLen(w, q, 0)]).dmis) <= Stones(Run(w, q[..TriedLen(w, q)]).dmis)
  {
    var k, n := AcceptedLen(w, q, 0), TriedLen(w, q);
    assert q[..n][..k] == q[..k];
    hide *;
    TriedLenIs(w, q, k);
    RunGrows(w, q[..n], k);
    StonesFront(Run(w, q[..k]).dmis, Run(w, q[..n]).dmis);
  }

  lemma NothingShrunk(w: World, q: string)
    requires OkWorld(w) && SplNum(w, q[..AcceptedLen(w, q, 0)]) <= MAX_SPELLINGS
    ensures FinalLen(w, q) == AcceptedLen(w, q, 0)
  {
    ShrinkStart(w, q);
    ShrinkDone(w, q, AcceptedLen(w, q, 0), |q|);
  }

  lemma NoStones()
    ensures Stones([]) == 0
  {}

  // The handles of the match nodes rise, and lie on the stack.
  lemma StackedHandles(dict: D.DictTrie, c: Dicts, handles: seq<nat>, dmis: seq<Dmi>)
    requires Stacked(dict, c, handles, dmis)
    ensures |dmis| <= |handles| && forall i: nat :: i < |dmis| ==> (dmis[i].sys <==> handles[i] > 0)
    ensures forall i: nat :: i < |dmis| && dmis[i].sys ==> D.FIRST_HANDLE <= handles[i] < dict.stonesPos
    ensures forall i: nat, j: nat :: i < j < |dmis| && dmis[i].sys && dmis[j].sys ==> handles[i] < handles[j]
  {
    forall i: nat | i < |dmis|
      ensures dmis[i].sys <==> handles[i] > 0
      ensures dmis[i].sys ==> D.FIRST_HANDLE <= handles[i] < dict.stonesPos
    {
      StackedAt(dict, c, handles, dmis, i);
      if dmis[i].sys {
        dict.HandleFacts(handles[i], D.Ranges(c.h, Ids(dmis, i)));
      }
    }
    hide OkDicts, Backed, Linked;
  }

  // Below the stone of a match node lie only those of the nodes before it.
  lemma PackedFront(handles: seq<nat>, dmis: seq<Dmi>, m: nat, top: nat)
    requires m < |dmis| <= |handles| && dmis[m].sys && handles[m] < top && Packed(handles, dmis, top)
    requires forall i: nat, j: nat :: i < j < |dmis| && dmis[i].sys && dmis[j].sys ==> handles[i] < handles[j]
    ensures Packed(handles, dmis[..m], handles[m])
  {
    forall x: nat | D.FIRST_HANDLE <= x < handles[m]
      ensures Holds(handles, dmis[..m], x)
    {
      assert Holds(handles, dmis, x);
      var i: nat :| i < |dmis| && dmis[i].sys && handles[i] == x;
      assert i < m && dmis[..m][i] == dmis[i];
    }
  }

  lemma NothingStacked(dict: D.DictTrie, c: Dicts, handles: seq<nat>)
    requires OkDicts(c)
    ensures Stacked(dict, c, handles, [])
  {}

  lemma StackLinked(dict: D.DictTrie, c: Dicts, handles: seq<nat>, dmis: seq<Dmi>)
    requires Stacked(dict, c, handles, dmis)
    ensures OkDicts(c) && Linked(dmis) && |dmis| <= |handles|
  {
    hide OkDicts, Linked;
  }

  // Handles rise along the pool.
  lemma StackedRises(dict: D.DictTrie, c: Dicts, handles: seq<nat>, dmis: seq<Dmi>, m: nat)
    requires Stacked(dict, c, handles, dmis) && m <= |dmis|
    ensures |dmis| <= |handles|
    ensures m < |dmis| && handles[m] > 0 ==> forall i: nat :: i < m && dmis[i].sys ==> handles[i] < handles[m]
    ensures forall i: nat :: i < m ==> dmis[..m][i] == dmis[i]
  {
    if m < |dmis| {
      StackedAt(dict, c, handles, dmis, m);
    }
    hide OkDicts, Backed, Linked;
  }

  lemma NoDmis(dmis: seq<Dmi>)
    ensures dmis + NO_PLAN.dmis == dmis
  {}

  lemma Assoc1(a: seq<Dmi>, b: seq<Dmi>, x: Dmi)
    ensures a + (b + [x]) == a + b + [x]
  {}

  lemma Prefixes(a: seq<Dmi>, b: seq<Dmi>, b': seq<Dmi>, all: seq<Dmi>)
    requires b <= b' && a + b' <= all
    ensures a + b <= all && |a| + |b| <= |all|
  {
    assert a + b == all[..|a| + |b|];
  }

  lemma WithRowDmis(lat: Lat, row: seq<Node>, dmis: seq<Dmi>, hasFull: bool)
    ensures WithRow(lat, row, dmis, hasFull).dmis == lat.dmis + dmis
  {}

  lemma FrontDmis(lat: Lat, t: Lat, k: nat)
    requires k < |lat.rows| && lat.rows[k].ndPos + lat.rows[k].ndNum <= |lat.nodes|
    requires lat.rows[k].dmiPos + lat.rows[k].dmiNum <= |lat.dmis| && t == Trunc(lat, k)
    ensures |t.dmis| <= |lat.dmis| && lat.dmis[..|t.dmis|] == t.dmis
  {}

  // Where the match nodes of the next row start.
  lemma NextRow(w: World, p: string, k: nat)
    requires OkWorld(w) && k < |p|
    ensures var lat := Run(w, p);
            && k + 1 < |lat.rows| && lat.rows[k + 1].dmiPos == |Run(w, p[..k]).dmis|
            && lat.rows[k + 1].dmiPos + lat.rows[k + 1].dmiNum <= |lat.dmis|
  {
    RunEnd(w, p, k);
    RowsEnd(Run(w, p), k + 1);
    hide OkWorld, Run;
  }

  // The match nodes of a longer text begin with those of a shorter one.
  lemma RunGrows(w: World, q: string, k: nat)
    requires OkWorld(w) && k <= |q|
    ensures Run(w, q[..k]).dmis <= Run(w, q).dmis
  {
    RewindIsShorter(w, q, k);
    hide OkWorld, Run;
  }

  lemma RoomSize(c: Dicts, stonesPos: nat, marksPos: nat, now: seq<Dmi>, all: seq<Dmi>)
    requires Room(c, stonesPos, marksPos, now, all)
    ensures |all| < DMI_POOL_SIZE
  {
    hide OkDicts;
  }

  // How many characters two texts share at the front.
  function CommonLen(a: string, b: string): (n: nat)
    ensures n <= |a| && n <= |b|
  {
    if a == "" || b == "" || a[0] != b[0] then 0 else 1 + CommonLen(a[1..], b[1..])
  }

  lemma NoLpis(w: World, ids: seq<nat>)
    ensures Items(w, ids, []) == []
  {}

  lemma SortedItems(w: World, ids: seq<nat>, raw: seq<Lpi>)
    requires ids != [] && raw != []
    ensures Items(w, ids, raw) == if |ids| == 1 && w.half(ids[0]) then FirstItems(w.sort(raw)) else w.sort(raw)
  {
    hide FirstItems;
  }

  lemma AskIdsFront(now: seq<Dmi>, d: nat, splId: nat)
    requires Linked(now) && d < |now|
    ensures var ids := AskIds(now, d, splId); ids[..|ids| - 1] == Ids(now, d)
  {
    hide Ids;
  }

  lemma AskIdsRoot(now: seq<Dmi>, d: int, splId: nat)
    requires Linked(now) && d < |now|
    ensures AskIds(now, d, splId) == AskIds(now, if d < 0 then -1 else d, splId)
    ensures AskIds(now, d, splId) == if d < 0 then [splId] else Ids(now, d) + [splId]
  {
    hide Ids;
  }

  lemma AskedSys(c: Dicts, ids: seq<nat>, sys: bool, user: bool)
    requires OkDicts(c) && ids != []
    ensures Asked(c, ids, sys, user).sys <==> sys && Layer(c, ids) != []
  {
    hide OkDicts, Layer, SysLpis;
  }

  const MAX_SPELLINGS := 9

  // The characters search looks at.
  function Typed(py: string): string {
    if |py| > MAX_ROW_NUM - 1 then py[..MAX_ROW_NUM - 1] else py
  }

  lemma TypedIs(py: string)
    ensures Typed(py) == (if |py| > 39 then py[..39] else py) && |Typed(py)| < 40 && MAX_ROW_NUM == 40
  {}

  // How many characters of q are accepted from character k on.
  ghost function AcceptedLen(w: World, q: string, k: nat): (n: nat)
    requires OkWorld(w) && k <= |q|
    ensures k <= n <= |q|
    decreases |q| - k
  {
    if k < |q| && Added(w, q, k) then AcceptedLen(w, q, k + 1) else k
  }

  // How many characters of q get a row; the last of them may not be accepted.
  ghost function TriedLen(w: World, q: string): (n: nat)
    requires OkWorld(w)
    ensures n <= |q|
  {
    var k := AcceptedLen(w, q, 0);
    if k < |q| && Tried(w, q, k) then k + 1 else k
  }

  lemma TriedLenIs(w: World, q: string, k: nat)
    requires OkWorld(w) && k <= |q| && AcceptedLen(w, q, 0) == k
    ensures TriedLen(w, q) == if k < |q| && Tried(w, q, k) then k + 1 else k
  {
    hide OkWorld;
  }

  // The next row, if it is tried, is one of those reached.
  lemma WithinTried(w: World, q: string, k: nat)
    requires OkWorld(w) && k < |q| && AcceptedLen(w, q, k) == AcceptedLen(w, q, 0) && Tried(w, q, k)
    ensures Run(w, q[..k + 1]).dmis <= Run(w, q[..TriedLen(w, q)]).dmis
  {
    var n := TriedLen(w, q);
    hide *;
    TriedLenIs(w, q, AcceptedLen(w, q, 0));
    AcceptedStep(w, q, k);
    assert k + 1 <= n && q[..n][..k + 1] == q[..k + 1];
    RunGrows(w, q[..n], k + 1);
  }

  lemma TriedIfAdded(w: World, q: string, k: nat)
    requires OkWorld(w) && k < |q|
    ensures Added(w, q, k) ==> Tried(w, q, k)
  {
    hide OkWorld, Accepted;
  }

  lemma AcceptedStep(w: World, q: string, k: nat)
    requires OkWorld(w) && k <= |q|
    ensures AcceptedLen(w, q, k) == if k < |q| && Added(w, q, k) then AcceptedLen(w, q, k + 1) else k
  {
    hide OkWorld, Added;
  }

  // Characters accepted before need not be added again.
  lemma {:induction false} AcceptedFrom(w: World, q: string, k: nat)
    requires OkWorld(w) && k <= |q| && AllAdded(w, q[..k])
    ensures AcceptedLen(w, q, 0) == AcceptedLen(w, q, k)
  {
    hide OkWorld, Added;
    if k > 0 {
      assert q[..k][..k - 1] == q[..k - 1];
      AllAddedShorter(w, q[..k], k - 1);
      AcceptedFrom(w, q, k - 1);
      var j := k - 1;
      assert q[..k][..j + 1] == q[..j + 1];
      AddedPrefix(w, q[..k], q, j);
      assert Added(w, q[..k], j);
    }
  }

  // Cutting the text until its best path has at most nine spellings: n characters
  // are decoded, len are left.
  ghost function Shrink(w: World, q: string, n: nat, len: nat): (r: nat)
    requires OkWorld(w) && n <= len <= |q|
    ensures r <= n
    decreases len
  {
    if SplNum(w, q[..n]) <= MAX_SPELLINGS || len == 0 then n
    else Shrink(w, q, if len - 1 <= n then len - 1 else n, len - 1)
  }

  // How much of q a search decodes.
  ghost function FinalLen(w: World, q: string): nat
    requires OkWorld(w)
  {
    Shrink(w, q, AcceptedLen(w, q, 0), |q|)
  }

  lemma ShrinkStart(w: World, q: string)
    requires OkWorld(w)
    ensures FinalLen(w, q) == Shrink(w, q, AcceptedLen(w, q, 0), |q|)
  {
    hide OkWorld;
  }

  lemma ShrinkStep(w: World, q: string, n: nat, len: nat)
    requires OkWorld(w) && n <= len <= |q| && SplNum(w, q[..n]) > MAX_SPELLINGS
    ensures len > 0
    ensures Shrink(w, q, n, len) == Shrink(w, q, if len - 1 <= n then len - 1 else n, len - 1)
  {
    NothingSpelled(w, q[..0]);
    hide OkWorld, SplNum;
  }

  lemma NothingSpelled(w: World, p: string)
    requires OkWorld(w) && p == []
    ensures SplNum(w, p) == 0
  {
    RunNothing(w, p);
    NoPath(w, p);
  }

  lemma ShrinkDone(w: World, q: string, n: nat, len: nat)
    requires OkWorld(w) && n <= len <= |q| && SplNum(w, q[..n]) <= MAX_SPELLINGS
    ensures Shrink(w, q, n, len) == n
  {
    hide OkWorld, SplNum;
  }

  const NO_SEG := Seg([0], [], [0], [])

  lemma NothingFilled(splStart: array<nat>, splId: array<nat>, lmaStart: array<nat>, lmaId: array<nat>)
    requires 0 < splStart.Length && 0 < lmaStart.Length && splStart[0] == 0 && lmaStart[0] == 0
    ensures Filled(splStart, splId, lmaStart, lmaId, NO_SEG)
    ensures |NO_SEG.splId| == 0 && |NO_SEG.lmaId| == 0 && |NO_SEG.splStart| == 1 && |NO_SEG.lmaStart| == 1
    ensures NO_SEG.splStart[0] == 0 && NO_SEG.lmaStart[0] == 0
  {}

  lemma NoPath(w: World, p: string)
    requires OkWorld(w) && |Run(w, p).rows| == |p| + 1 && (p == [] || Run(w, p).rows[|p|].ndNum == 0)
    ensures SplNum(w, p) == 0 && SegOf(w, p) == NO_SEG
  {
    RunWords(w, p);
    EmptyPath(w, p);
    var lat := Run(w, p);
    NoWords(lat);
    assert PathSplEnds(lat, []) == [] && PathLmaIds(lat, []) == [] && Counts(lat, [], 0) == [];
    assert NO_SEG.splStart + [] == NO_SEG.splStart && NO_SEG.splId + [] == NO_SEG.splId;
    assert NO_SEG.lmaStart + [] == NO_SEG.lmaStart && NO_SEG.lmaId + [] == NO_SEG.lmaId;
    hide OkWorld, WordsOk, BestPath, Run;
  }

  lemma EmptyPath(w: World, p: string)
    requires OkWorld(w) && |Run(w, p).rows| == |p| + 1 && (p == [] || Run(w, p).rows[|p|].ndNum == 0)
    ensures BestPath(w, p) == []
  {
    hide OkWorld, WordsOk;
    if p == [] {
      assert Run(w, p) == EMPTY_LAT;
    }
  }

  lemma {:induction false} ThroughZero(lat: Lat, nd: nat)
    requires WordsOk(lat) && nd < |lat.nodes|
    ensures Through(lat, nd, 0)
  {
    if lat.nodes[nd].step > 0 {
      assert WordOk(lat, nd);
      ThroughZero(lat, lat.nodes[nd].from);
    }
  }

  // The best node of the last row ends the string.
  lemma BestEnd(w: World, p: string)
    requires OkWorld(w) && |Run(w, p).rows| == |p| + 1 && Run(w, p).rows[|p|].ndNum > 0
    ensures var lat, nd := Run(w, p), Run(w, p).rows[|p|].ndPos;
            && WordsOk(lat) && nd < |lat.nodes| && lat.nodes[nd].step == |p| && Through(lat, nd, 0)
  {
    var lat, nd := Run(w, p), Run(w, p).rows[|p|].ndPos;
    RunWords(w, p);
    RowsEnd(lat, |p|);
    StepIsRow(lat, HistOf(w, p), |p|, nd);
    ThroughZero(lat, nd);
    hide OkWorld, Run, WordsOk, Through;
  }

  // The best path has no more spellings than the string has characters.
  lemma PathRoom(w: World, p: string)
    requires OkWorld(w) && |p| < MAX_ROW_NUM && |Run(w, p).rows| == |p| + 1 && Run(w, p).rows[|p|].ndNum > 0
    ensures WordsOk(Run(w, p)) && Run(w, p).rows[|p|].ndPos < |Run(w, p).nodes|
    ensures |PathSplIds(Run(w, p), Path(Run(w, p), Run(w, p).rows[|p|].ndPos, NO_SEG.splStart[0]))| <= |p|
    ensures |Path(Run(w, p), Run(w, p).rows[|p|].ndPos, NO_SEG.splStart[0])| <= |p|
  {
    var lat, nd := Run(w, p), Run(w, p).rows[|p|].ndPos;
    BestEnd(w, p);
    PathTiles(lat, nd, 0);
    TilesFew(PathSplEnds(lat, Path(lat, nd, 0)), 0, lat.nodes[nd].step);
    hide OkWorld, Run, WordsOk, Path, PathSplIds, PathSplEnds;
  }

  // The segmentation of a string whose last row has a node: its spellings start at 0, one behind the
  // other, and reach the end; its words start at spelling 0, one behind the other, and reach the last.
  lemma SegTiles(w: World, p: string)
    requires OkWorld(w) && |p| < MAX_ROW_NUM && |Run(w, p).rows| == |p| + 1 && Run(w, p).rows[|p|].ndNum > 0
    ensures var g := SegOf(w, p);
            && |g.splStart| == |g.splId| + 1 && g.splStart[0] == 0 && Tiles(g.splStart[1..], 0, |p|)
            && |g.lmaStart| == |g.lmaId| + 1 && g.lmaStart[0] == 0 && Tiles(g.lmaStart[1..], 0, |g.splId|)
  {
    hide *;
    var lat, nd, g := Run(w, p), Run(w, p).rows[|p|].ndPos, SegOf(w, p);
    BestEnd(w, p);
    PathIs(w, p);
    NoSegIs();
    PathTiles(lat, nd, 0);
    CountsTile(lat, Path(lat, nd, 0));
    SegmentedFacts(lat, Path(lat, nd, 0));
  }

  lemma SegSize(w: World, p: string)
    requires OkWorld(w)
    ensures SplNum(w, p) == |SegOf(w, p).splId|
  {
    NoSegIs();
    hide OkWorld, Run, BestPath, PathSplIds, PathSplEnds, Counts, PathLmaIds;
  }

  lemma NoSegIs()
    ensures |NO_SEG.splStart| == 1 && NO_SEG.splStart[0] == 0 && NO_SEG.splId == []
  {}

  lemma SegmentedFacts(lat: Lat, path: seq<nat>)
    requires WordsOk(lat) && OnLat(lat, path)
    ensures var g := Segmented(lat, path, 0, NO_SEG);
            && |g.splStart| == |g.splId| + 1 && g.splStart[0] == 0 && g.splStart[1..] == PathSplEnds(lat, path)
            && |g.lmaStart| == |g.lmaId| + 1 && g.lmaStart[0] == 0 && g.lmaStart[1..] == Counts(lat, path, 0)
            && |g.splId| == |PathSplIds(lat, path)|
  {
    hide WordsOk, PathSplIds, PathSplEnds, Counts, PathLmaIds;
  }

  lemma PathIs(w: World, p: string)
    requires OkWorld(w) && |Run(w, p).rows| == |p| + 1 && Run(w, p).rows[|p|].ndNum > 0
    requires WordsOk(Run(w, p)) && Run(w, p).rows[|p|].ndPos < |Run(w, p).nodes|
    ensures BestPath(w, p) == Path(Run(w, p), Run(w, p).rows[|p|].ndPos, NO_SEG.splStart[0])
    ensures SplNum(w, p) == |PathSplIds(Run(w, p), BestPath(w, p))|
    ensures SegOf(w, p) == Segmented(Run(w, p), BestPath(w, p), 0, NO_SEG) && |SegOf(w, p).lmaId| == |BestPath(w, p)|
  {
    hide OkWorld, WordsOk, Path;
  }

  lemma RunSize(w: World, p: string)
    requires OkWorld(w)
    ensures |Run(w, p).rows| == |p| + 1 && OkLat(Run(w, p))
  {
    hide OkWorld;
  }

  lemma RunNothing(w: World, p: string)
    requires OkWorld(w) && p == []
    ensures Run(w, p) == EMPTY_LAT && Run(w, p).dmis == []
  {
    hide OkWorld;
  }

  // Where the pools of the lattice of p[..k] end.
  lemma RunEnd(w: World, p: string, k: nat)
    requires OkWorld(w) && k <= |p|
    ensures var lat, t := Run(w, p), Run(w, p[..k]);
            && k < |lat.rows| && |t.nodes| == lat.rows[k].ndPos + lat.rows[k].ndNum
            && |t.dmis| == lat.rows[k].dmiPos + lat.rows[k].dmiNum
  {
    RewindIsShorter(w, p, k);
    hide OkWorld, Run;
  }

  // The best path of a decoded string, empty if its last row has no node.
  ghost function BestPath(w: World, p: string): (path: seq<nat>)
    requires OkWorld(w)
    ensures WordsOk(Run(w, p)) && OnLat(Run(w, p), path)
  {
    RunWords(w, p);
    var lat := Run(w, p);
    if lat.rows[|p|].ndNum == 0 then []
    else
      RowsEnd(lat, |p|);
      Path(lat, lat.rows[|p|].ndPos, 0)
  }

  ghost function SplNum(w: World, p: string): nat
    requires OkWorld(w)
  {
    var path := BestPath(w, p);
    |PathSplIds(Run(w, p), path)|
  }

  // The segmentation of a decoded string.
  ghost function SegOf(w: World, p: string): Seg
    requires OkWorld(w)
  {
    var path := BestPath(w, p);
    Segmented(Run(w, p), path, 0, NO_SEG)
  }

  // The lattice of one more character, and whether it is accepted.
  lemma RunStep(w: World, s: string, n: nat) returns (row: seq<Node>)
    requires OkWorld(w) && n < |s|
    ensures OkLat(Run(w, s[..n])) && |Run(w, s[..n]).rows| == n + 1
    ensures n + 1 < MAX_ROW_NUM ==> |Run(w, s[..n]).nodes| + MAX_NODE_A_ROW < MTRX_ND_POOL_SIZE
    ensures var lat, p := Run(w, s[..n]), PlanOf(w, s[..n + 1], Run(w, s[..n]));
            && (forall o :: o in p.offers ==> OfferFits(lat.rows, lat.nodes, o))
            && row == RowOf(lat.rows, lat.nodes, p.offers, n + 1)
            && Run(w, s[..n + 1]) == WithRow(lat, row, p.dmis, p.hasFull)
            && (Accepted(w, s[..n + 1], lat) <==> |row| != 0 || p.matched)
    ensures |Run(w, s[..n + 1]).dmis| == |Run(w, s[..n]).dmis| + |PlanOf(w, s[..n + 1], Run(w, s[..n])).dmis|
    ensures |Run(w, s[..n + 1]).nodes| == |Run(w, s[..n]).nodes| + |row|
    ensures Added(w, s, n) <==>
              Tried(w, s, n) && Accepted(w, s[..n + 1], Run(w, s[..n]))
    ensures Tried(w, s, n) <==> n + 1 < MAX_ROW_NUM && (w.valid(s[n]) || s[n] == '\'')
  {
    var lat := Run(w, s[..n]);
    assert s[..n + 1][..n] == s[..n];
    if n + 1 < MAX_ROW_NUM {
      PoolUse(lat, n);
    }
    row := RunRow(w, s[..n + 1], lat);
    hide OkWorld, OkLat, PlanOf, RowOf, PlanOk, OfferFits, Accepted, Run;
  }

  lemma RunRow(w: World, s: string, lat: Lat) returns (row: seq<Node>)
    requires OkWorld(w) && |s| > 0 && lat == Run(w, s[..|s| - 1])
    ensures var p := PlanOf(w, s, lat);
            && (forall o :: o in p.offers ==> OfferFits(lat.rows, lat.nodes, o))
            && row == RowOf(lat.rows, lat.nodes, p.offers, |s|)
            && Run(w, s) == WithRow(lat, row, p.dmis, p.hasFull)
            && (Accepted(w, s, lat) <==> |row| != 0 || p.matched)
  {
    PlanIsOk(w, s, lat);
    row := RowOf(lat.rows, lat.nodes, PlanOf(w, s, lat).offers, |s|);
    hide OkWorld, OkLat, PlanOf, RowOf, PlanOk;
  }

  lemma NoPlanIs()
    ensures NO_PLAN == Plan([], false, 0, false, [])
  {}

  lemma PlanStart(w: World, s: string, lat: Lat)
    requires OkLat(lat) && |s| == |lat.rows|
    ensures PlanOf(w, s, lat) == Extends(w, s, lat, MAX_PINYIN_SIZE + 1, NO_PLAN) && MAX_PINYIN_SIZE == 6
  {
    hide OkLat, Extends;
  }

  // One step of Extends.
  lemma ExtendsStep(w: World, s: string, lat: Lat, ext: nat, p: Plan)
    requires OkLat(lat) && |s| == |lat.rows| && ext > 0
    ensures ext > |s| ==> Extends(w, s, lat, ext, p) == Extends(w, s, lat, ext - 1, p)
    ensures ext <= |s| ==>
              var stop := ext > 1 && p.longest != 0 && !lat.rows[|s| - ext].hasFull;
              && (stop ==> Extends(w, s, lat, ext, p) == if w.xian then Extends(w, s, lat, ext - 1, p) else p)
              && (!stop ==> Extends(w, s, lat, ext, p) == Extends(w, s, lat, ext - 1, Extend(w, s, lat, ext, p)))
  {
    hide OkLat, Extend;
  }

  lemma ExtendsDone(w: World, s: string, lat: Lat, p: Plan)
    requires OkLat(lat) && |s| == |lat.rows|
    ensures Extends(w, s, lat, 0, p) == p
  {
    hide OkLat;
  }

  lemma ExtendCases(w: World, s: string, lat: Lat, ext: nat, p: Plan)
    requires OkLat(lat) && 0 < ext <= |s| == |lat.rows|
    ensures var oldRow := |s| - ext;
            var (idx, pre) := w.splid(s[oldRow..]);
            var p1 := if pre then p.(matched := true) else p;
            Extend(w, s, lat, ext, p) ==
              if lat.rows[oldRow].ndNum == 0 then p
              else if idx == 0 then p1
              else Matches(w, s, lat, ext, idx, lat.rows[oldRow].dmiPos, p1)
  {
    hide OkLat, Matches;
  }

  lemma {:induction false} MatchesKeepMatched(w: World, s: string, lat: Lat, ext: nat, idx: nat, pos: nat, p: Plan)
    requires OkLat(lat) && 0 < ext <= |s| == |lat.rows| && pos >= lat.rows[|s| - ext].dmiPos
    ensures Matches(w, s, lat, ext, idx, pos, p).matched == p.matched
    decreases lat.rows[|s| - ext].dmiPos + lat.rows[|s| - ext].dmiNum + 1 - pos
  {
    var end := lat.rows[|s| - ext].dmiPos + lat.rows[|s| - ext].dmiNum;
    if pos <= end {
      var d: int := if pos == end then -1 else pos;
      assert Match(w, s, lat, ext, idx, d, p).matched == p.matched;
      hide OkLat, Match;
      MatchesKeepMatched(w, s, lat, ext, idx, pos + 1, Match(w, s, lat, ext, idx, d, p));
    }
  }

  lemma IsMatchOf(lat: Lat, oldRow: nat, d: int)
    ensures MatchOf(lat, oldRow, d) <==>
              oldRow < |lat.rows| && d >= -1
                && (d >= 0 ==> lat.rows[oldRow].dmiPos <= d < lat.rows[oldRow].dmiPos + lat.rows[oldRow].dmiNum)
  {}

  lemma MatchesStep(w: World, s: string, lat: Lat, ext: nat, idx: nat, pos: nat, p: Plan)
    requires OkLat(lat) && 0 < ext <= |s| == |lat.rows|
    requires lat.rows[|s| - ext].dmiPos <= pos <= lat.rows[|s| - ext].dmiPos + lat.rows[|s| - ext].dmiNum
    ensures var d: int := if pos == lat.rows[|s| - ext].dmiPos + lat.rows[|s| - ext].dmiNum then -1 else pos;
            && MatchOf(lat, |s| - ext, d)
            && Matches(w, s, lat, ext, idx, pos, p) ==
                 Matches(w, s, lat, ext, idx, pos + 1, Match(w, s, lat, ext, idx, d, p))
  {
    hide OkLat, Match;
  }

  lemma MatchesDone(w: World, s: string, lat: Lat, ext: nat, idx: nat, pos: nat, p: Plan)
    requires OkLat(lat) && 0 < ext <= |s| == |lat.rows| && pos > lat.rows[|s| - ext].dmiPos + lat.rows[|s| - ext].dmiNum
    ensures Matches(w, s, lat, ext, idx, pos, p) == p
  {
    hide OkLat;
  }

  function AddDmi(rows: seq<Row>, n: nat, full: bool): (r: seq<Row>)
    requires n < |rows|
    ensures |r| == |rows|
  {
    rows[n := rows[n].(dmiNum := rows[n].dmiNum + 1, hasFull := rows[n].hasFull || full)]
  }

  // Sequences under the writes above.
  lemma PoolGrows(pool: seq<Dmi>, a: seq<Dmi>, b: seq<Dmi>, x: Dmi)
    requires |a| + |b| < |pool| && pool[..|a|] == a && pool[|a|..|a| + |b|] == b
    ensures pool[|a| + |b| := x][..|a|] == a && pool[|a| + |b| := x][|a|..|a| + |b| + 1] == b + [x]
  {}

  lemma AddDmiFacts(rows: seq<Row>, n: nat, full: bool)
    requires n < |rows|
    ensures AddDmi(rows, n, full)[..n] == rows[..n]
    ensures AddDmi(rows, n, full)[n] == rows[n].(dmiNum := rows[n].dmiNum + 1, hasFull := rows[n].hasFull || full)
  {}

  lemma SetNumFacts(rows: seq<Row>, n: nat, k: nat)
    requires n < |rows|
    ensures SetNum(rows, n, k)[..n] == rows[..n] && SetNum(rows, n, k)[n] == rows[n].(ndNum := k)
  {}

  lemma OneMoreOffer(lat: Lat, offers: seq<Offer>, o: Offer, step: nat)
    requires (forall q :: q in offers ==> OfferFits(lat.rows, lat.nodes, q))
    requires (forall q :: q in offers + [o] ==> OfferFits(lat.rows, lat.nodes, q))
    ensures OfferFits(lat.rows, lat.nodes, o)
    ensures RowOf(lat.rows, lat.nodes, offers + [o], step) ==
            ExtendOffer(RowOf(lat.rows, lat.nodes, offers, step), lat.rows, lat.nodes, o, step)
  {
    assert o in offers + [o];
    assert (offers + [o])[..|offers|] == offers;
  }

  lemma SourceRowIs(lat: Lat, oldRow: nat, d: int)
    requires d < |lat.dmis|
    ensures SourceRow(lat, oldRow, d) == if d < 0 then oldRow else oldRow - lat.dmis[d].len
  {}

  lemma NewDmiIs(w: World, s: string, lat: Lat, ext: nat, idx: nat, d: int, found: Look)
    requires d < |lat.dmis| && |s| > 0
    ensures NewDmi(w, s, lat, ext, idx, d, found) ==
            Dmi(found.sys, found.user, if d < 0 then -1 else d, idx, (if d < 0 then 0 else lat.dmis[d].level) + 1,
                !w.valid(s[|s| - 1]), (if d < 0 then 0 else lat.dmis[d].len) + ext,
                !w.half(idx) && (d < 0 || lat.dmis[d].allFull))
  {}

  lemma IdsCases(lat: Lat, d: int, idx: nat)
    requires d < |lat.dmis| && forall i :: 0 <= i < |lat.dmis| ==> lat.dmis[i].from < i
    ensures IdsWith(lat, d, idx) == if d < 0 then [idx] else Ids(lat.dmis, d) + [idx]
  {}

  lemma OffersFit(lat: Lat, p: Plan)
    requires PlanOk(lat, p)
    ensures FitAll(lat, p.offers) && forall o :: o in p.offers ==> OfferFits(lat.rows, lat.nodes, o)
  {}

  // The plan after match node d has been extended.
  lemma MatchParts(w: World, s: string, lat: Lat, ext: nat, idx: nat, d: int, p: Plan)
    requires OkLat(lat) && 0 < ext <= |s| == |lat.rows| && MatchOf(lat, |s| - ext, d)
    requires d < |lat.dmis| && (forall i :: 0 <= i < |lat.dmis| ==> lat.dmis[i].from < i)
    requires !Skipped(w, lat, |s| - ext, ext, d, p)
    ensures var found, p' := Answer(w, lat, d, idx), Match(w, s, lat, ext, idx, d, p);
            var items, added := Items(w, IdsWith(lat, d, idx), found.items), found.sys || found.user;
            && p'.matched == p.matched
            && p'.dmis == (if added then p.dmis + [NewDmi(w, s, lat, ext, idx, d, found)] else p.dmis)
            && p'.hasFull == (p.hasFull || (added && !w.half(idx)))
            && (items == [] ==> p'.offers == p.offers && p'.longest == p.longest)
            && (items != [] ==>
                  && 0 <= SourceRow(lat, |s| - ext, d) < |lat.rows|
                  && p'.offers == p.offers + [Offer(SourceRow(lat, |s| - ext, d), items, |lat.dmis| + |p.dmis|)]
                  && p'.longest == if p.longest == 0 && lat.rows[SourceRow(lat, |s| - ext, d)].ndNum > 0 then ext
                       else p.longest)
  {
    MatchFacts(lat, |s| - ext, d);
    hide Skipped, Answer, Items, NewDmi, IdsWith, OkLat;
  }

  // Match by cases.
  lemma MatchCases(w: World, s: string, lat: Lat, ext: nat, idx: nat, d: int, p: Plan)
    requires OkLat(lat) && 0 < ext <= |s| == |lat.rows| && MatchOf(lat, |s| - ext, d)
    ensures d < |lat.dmis| && forall i :: 0 <= i < |lat.dmis| ==> lat.dmis[i].from < i
    ensures d >= 0 ==> 0 < lat.dmis[d].len <= |s| - ext
    ensures Skipped(w, lat, |s| - ext, ext, d, p) <==>
            || (p.longest > ext && if d < 0 then !lat.rows[|s| - ext].hasFull else w.half(lat.dmis[d].splId))
            || (d >= 0 && lat.dmis[d].level >= MAX_LEMMA_SIZE)
    ensures Skipped(w, lat, |s| - ext, ext, d, p) ==> Match(w, s, lat, ext, idx, d, p) == p
  {
    MatchFacts(lat, |s| - ext, d);
  }

  // rows with row n holding k nodes.
  function SetNum(rows: seq<Row>, n: nat, k: nat): (r: seq<Row>)
    requires n < |rows|
    ensures |r| == |rows|
  {
    rows[n := rows[n].(ndNum := k)]
  }

  lemma SetNumTwice(rows: seq<Row>, n: nat, a: nat, b: nat)
    requires n < |rows|
    ensures SetNum(SetNum(rows, n, a), n, b) == SetNum(rows, n, b)
  {}

  lemma OfferNodes(row: seq<Node>, lat: Lat, o: Offer, step: nat)
    requires OfferFits(lat.rows, lat.nodes, o)
    ensures ExtendOffer(row, lat.rows, lat.nodes, o, step) ==
            ExtendNodes(row, lat.nodes, lat.rows[o.frRow].ndPos, lat.rows[o.frRow].ndPos + lat.rows[o.frRow].ndNum, o,
              step)
  {}

  lemma NodesStep(row: seq<Node>, nodes: seq<Node>, at: nat, end: nat, o: Offer, step: nat)
    requires at < end <= |nodes|
    ensures ExtendNodes(row, nodes, at, end, o, step) ==
            ExtendNodes(ExtendFrom(row, at, nodes[at], o.items, o.dmi, step, 0), nodes, at + 1, end, o, step)
  {}

  lemma NodesDone(row: seq<Node>, nodes: seq<Node>, at: nat, end: nat, o: Offer, step: nat)
    requires at >= end && end <= |nodes|
    ensures ExtendNodes(row, nodes, at, end, o, step) == row
  {}

  lemma KeptItems(w: World, raw: seq<Lpi>)
    requires OkWorld(w) && raw != []
    ensures FirstItems(w.sort(raw)) != []
  {
    ItemsSorted(w, [], raw);
  }

  ghost predicate FitAll(lat: Lat, offers: seq<Offer>) {
    forall o :: o in offers ==> OfferFits(lat.rows, lat.nodes, o)
  }
}
