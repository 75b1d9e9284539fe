// What adding one character does to the decoding lattice, as a function of the
// rows before it (MatrixSearch::add_char_qwerty), and that truncating a decoded
// lattice gives the lattice of the shorter string.

module Decoder {
  import opened Limits
  import opened Lattice
  import opened Beam

  const DMI_POOL_SIZE := 800
  const MAX_LPI_CACHE_PER_ID := 15

  // A dictionary's answer: whether the system and the user dictionary can go on
  // from here, and the lemmas that end here.
  datatype Look = Look(sys: bool, user: bool, items: seq<Lpi>)

  // What the decoder asks of the spelling parser, the dictionaries and the sort
  // routine. look's flags say which dictionaries the match so far is alive in.
  datatype World = World(valid: char -> bool, splid: string -> (nat, bool), half: nat -> bool,
                         look: (seq<nat>, bool, bool) -> Look, sort: seq<Lpi> -> seq<Lpi>, xian: bool)

  ghost predicate OkWorld(w: World) {
    && (forall s :: SortedLpis(w.sort(s)) && multiset(w.sort(s)) == multiset(s))
    && (forall ids, a, b :: w.look(ids, a, b).items != [] ==> w.look(ids, a, b).sys || w.look(ids, a, b).user)
  }

  function FirstItems(s: seq<Lpi>): seq<Lpi> {
    if |s| > MAX_LPI_CACHE_PER_ID then s[..MAX_LPI_CACHE_PER_ID] else s
  }

  // The lemmas extend_dmi leaves in lpi_items_: sorted, and cut for a first half id.
  function Items(w: World, ids: seq<nat>, raw: seq<Lpi>): seq<Lpi> {
    if raw == [] then []
    else if |ids| == 1 && w.half(ids[0]) then FirstItems(w.sort(raw))
    else w.sort(raw)
  }

  lemma ItemsSorted(w: World, ids: seq<nat>, raw: seq<Lpi>)
    requires OkWorld(w)
    ensures SortedLpis(Items(w, ids, raw)) && (Items(w, ids, raw) == [] <==> raw == [])
  {
    if raw != [] {
      var s := w.sort(raw);
      assert SortedLpis(s) && multiset(s) == multiset(raw);
      assert |s| == |multiset(s)| == |multiset(raw)| == |raw|;
    }
  }

  // The spelling ids from the root to match node d.
  function Ids(dmis: seq<Dmi>, d: nat): (ids: seq<nat>)
    requires d < |dmis| && forall i :: 0 <= i < |dmis| ==> dmis[i].from < i
    ensures |ids| > 0
  {
    if dmis[d].from < 0 then [dmis[d].splId] else Ids(dmis, dmis[d].from) + [dmis[d].splId]
  }

  // Progress on the row being built: its match nodes and offers so far.
  datatype Plan = Plan(dmis: seq<Dmi>, hasFull: bool, longest: nat, matched: bool, offers: seq<Offer>)

  const NO_PLAN := Plan([], false, 0, false, [])

  // Match nodes of row r come from the row where their last spelling starts.
  ghost predicate DmiOk(lat: Lat, r: nat, dmi: Dmi) {
    && 0 < dmi.len <= r && dmi.level > 0 && dmi.from < |lat.dmis|
    && (dmi.from < 0 ==> dmi.level == 1 && dmi.from == -1)
    && (dmi.from >= 0 ==>
      var f := lat.dmis[dmi.from];
      && dmi.level == f.level + 1 && f.len < dmi.len && r - (dmi.len - f.len) < |lat.rows|
      && var q := r - (dmi.len - f.len);
         lat.rows[q].dmiPos <= dmi.from < lat.rows[q].dmiPos + lat.rows[q].dmiNum)
  }

  // If i is a match node of row r, it is one in order.
  ghost predicate DmiIn(lat: Lat, r: nat, i: nat) {
    r < |lat.rows| && lat.rows[r].dmiPos <= i < lat.rows[r].dmiPos + lat.rows[r].dmiNum ==>
      i < |lat.dmis| && DmiOk(lat, r, lat.dmis[i])
  }

  ghost predicate DmisOk(lat: Lat) {
    && (forall i :: 0 <= i < |lat.dmis| ==> lat.dmis[i].from < i)
    && forall r: nat, i: nat :: DmiIn(lat, r, i)
  }

  ghost predicate OkLat(lat: Lat) { Tiled(lat) && DmisOk(lat) }

  lemma DmiAt(lat: Lat, r: nat, d: nat)
    requires OkLat(lat) && r < |lat.rows| && lat.rows[r].dmiPos <= d < lat.rows[r].dmiPos + lat.rows[r].dmiNum
    ensures d < |lat.dmis| && DmiOk(lat, r, lat.dmis[d]) && 0 < lat.dmis[d].len <= r
    ensures forall i :: 0 <= i < |lat.dmis| ==> lat.dmis[i].from < i
  {
    hide Tiled;
    assert DmiIn(lat, r, d);
  }

  // The match node that extends node d of row n - ext (or the root) by spelling idx.
  function NewDmi(w: World, s: string, lat: Lat, ext: nat, idx: nat, d: int, found: Look): Dmi
    requires d < |lat.dmis| && |s| > 0
  {
    var split := !w.valid(s[|s| - 1]);
    if d < 0 then Dmi(found.sys, found.user, -1, idx, 1, split, ext, !w.half(idx))
    else Dmi(found.sys, found.user, d, idx, lat.dmis[d].level + 1, split, lat.dmis[d].len + ext,
             !w.half(idx) && lat.dmis[d].allFull)
  }

  // d is a match node of row oldRow, or the root.
  ghost predicate MatchOf(lat: Lat, oldRow: nat, d: int) {
    oldRow < |lat.rows| && d >= -1
      && (d >= 0 ==> lat.rows[oldRow].dmiPos <= d < lat.rows[oldRow].dmiPos + lat.rows[oldRow].dmiNum)
  }

  lemma MatchFacts(lat: Lat, oldRow: nat, d: int)
    requires OkLat(lat) && MatchOf(lat, oldRow, d)
    ensures d < |lat.dmis| && (forall i :: 0 <= i < |lat.dmis| ==> lat.dmis[i].from < i)
    ensures d >= 0 ==> DmiOk(lat, oldRow, lat.dmis[d]) && 0 < lat.dmis[d].len <= oldRow
  {
    if d >= 0 {
      DmiAt(lat, oldRow, d);
    }
  }

  // Match node d is not extended by ext characters.
  predicate Skipped(w: World, lat: Lat, oldRow: nat, ext: nat, d: int, p: Plan)
    requires oldRow < |lat.rows| && d < |lat.dmis|
  {
    || (p.longest > ext && if d < 0 then !lat.rows[oldRow].hasFull else w.half(lat.dmis[d].splId))
    || (d >= 0 && lat.dmis[d].level >= MAX_LEMMA_SIZE)
  }

  function IdsWith(lat: Lat, d: int, idx: nat): (ids: seq<nat>)
    requires d < |lat.dmis| && forall i :: 0 <= i < |lat.dmis| ==> lat.dmis[i].from < i
    ensures |ids| > 0
  {
    (if d < 0 then [] else Ids(lat.dmis, d)) + [idx]
  }

  function Answer(w: World, lat: Lat, d: int, idx: nat): Look
    requires d < |lat.dmis| && forall i :: 0 <= i < |lat.dmis| ==> lat.dmis[i].from < i
  {
    w.look(IdsWith(lat, d, idx), d < 0 || lat.dmis[d].sys, d < 0 || lat.dmis[d].user)
  }

  // The row the offered lemmas start from.
  function SourceRow(lat: Lat, oldRow: nat, d: int): int
    requires d < |lat.dmis|
  {
    if d < 0 then oldRow else oldRow - lat.dmis[d].len
  }

  function Match(w: World, s: string, lat: Lat, ext: nat, idx: nat, d: int, p: Plan): Plan
    requires OkLat(lat) && 0 < ext <= |s| == |lat.rows| && MatchOf(lat, |s| - ext, d)
  {
    var oldRow := |s| - ext;
    MatchFacts(lat, oldRow, d);
    if Skipped(w, lat, oldRow, ext, d, p) then p
    else
      var found := Answer(w, lat, d, idx);
      var items := Items(w, IdsWith(lat, d, idx), found.items);
      var at := |lat.dmis| + |p.dmis|;
      var p1 :=
        if found.sys || found.user
        then p.(dmis := p.dmis + [NewDmi(w, s, lat, ext, idx, d, found)], hasFull := p.hasFull || !w.half(idx))
        else p;
      if items == [] then p1
      else
        var fr := SourceRow(lat, oldRow, d);
        p1.(offers := p1.offers + [Offer(fr, items, at)],
            longest := if p1.longest == 0 && lat.rows[fr].ndNum > 0 then ext else p1.longest)
  }

  // The match nodes of row n - ext from pos on, and then the root.
  function Matches(w: World, s: string, lat: Lat, ext: nat, idx: nat, pos: nat, p: Plan): Plan
    requires OkLat(lat) && 0 < ext <= |s| == |lat.rows| && pos >= lat.rows[|s| - ext].dmiPos
    decreases lat.rows[|s| - ext].dmiPos + lat.rows[|s| - ext].dmiNum + 1 - pos
  {
    var end := lat.rows[|s| - ext].dmiPos + lat.rows[|s| - ext].dmiNum;
    if pos > end then p
    else Matches(w, s, lat, ext, idx, pos + 1, Match(w, s, lat, ext, idx, if pos == end then -1 else pos, p))
  }

  // Extending by the last ext characters.
  function Extend(w: World, s: string, lat: Lat, ext: nat, p: Plan): Plan
    requires OkLat(lat) && 0 < ext <= |s| == |lat.rows|
  {
    var oldRow := |s| - ext;
    if lat.rows[oldRow].ndNum == 0 then p
    else
      var (idx, pre) := w.splid(s[oldRow..]);
      var p1 := if pre then p.(matched := true) else p;
      if idx == 0 then p1 else Matches(w, s, lat, ext, idx, lat.rows[oldRow].dmiPos, p1)
  }

  // All extension lengths from ext down to 1.
  function Extends(w: World, s: string, lat: Lat, ext: nat, p: Plan): Plan
    requires OkLat(lat) && |s| == |lat.rows|
    decreases ext
  {
    if ext == 0 then p
    else if ext > |s| then Extends(w, s, lat, ext - 1, p)
    else if ext > 1 && p.longest != 0 && !lat.rows[|s| - ext].hasFull then
      if w.xian then Extends(w, s, lat, ext - 1, p) else p
    else Extends(w, s, lat, ext - 1, Extend(w, s, lat, ext, p))
  }

  function PlanOf(w: World, s: string, lat: Lat): Plan
    requires OkLat(lat) && |s| == |lat.rows|
  {
    Extends(w, s, lat, MAX_PINYIN_SIZE + 1, NO_PLAN)
  }

  // ---- Plans fit the lattice ----

  // The offer's match node is one of the new row and covers the rows from the source row on.
  ghost predicate Covers(lat: Lat, p: Plan, o: Offer) {
    && |lat.dmis| <= o.dmi < |lat.dmis| + |p.dmis|
    && o.frRow + p.dmis[o.dmi - |lat.dmis|].len == |lat.rows|
  }

  ghost predicate PlanOk(lat: Lat, p: Plan) {
    && (forall o :: o in p.offers ==> OfferOk(lat.rows, lat.nodes, o) && Covers(lat, p, o))
    && forall i :: 0 <= i < |p.dmis| ==> DmiOk(lat, |lat.rows|, p.dmis[i])
  }

  lemma NewDmiOk(w: World, s: string, lat: Lat, ext: nat, idx: nat, d: int, found: Look)
    requires OkLat(lat) && 0 < ext <= |s| == |lat.rows| && MatchOf(lat, |s| - ext, d) && d < |lat.dmis|
    requires d >= 0 ==> DmiOk(lat, |s| - ext, lat.dmis[d])
    ensures DmiOk(lat, |lat.rows|, NewDmi(w, s, lat, ext, idx, d, found))
  {
    hide OkLat;
  }

  lemma NewOfferOk(w: World, lat: Lat, fr: nat, ids: seq<nat>, raw: seq<Lpi>, at: nat)
    requires OkWorld(w) && OkLat(lat) && fr < |lat.rows|
    ensures Items(w, ids, raw) != [] ==> OfferOk(lat.rows, lat.nodes, Offer(fr, Items(w, ids, raw), at))
  {
    ItemsSorted(w, ids, raw);
    RowsEnd(lat, fr);
  }

  lemma MatchKeeps(w: World, s: string, lat: Lat, ext: nat, idx: nat, d: int, p: Plan)
    requires OkWorld(w) && OkLat(lat) && 0 < ext <= |s| == |lat.rows| && MatchOf(lat, |s| - ext, d) && PlanOk(lat, p)
    ensures PlanOk(lat, Match(w, s, lat, ext, idx, d, p))
  {
    var oldRow := |s| - ext;
    MatchFacts(lat, oldRow, d);
    var found := Answer(w, lat, d, idx);
    NewDmiOk(w, s, lat, ext, idx, d, found);
    NewOfferOk(w, lat, SourceRow(lat, oldRow, d), IdsWith(lat, d, idx), found.items, |lat.dmis| + |p.dmis|);
    ItemsSorted(w, IdsWith(lat, d, idx), found.items);
    assert found.items != [] ==> found.sys || found.user;
    var added := found.sys || found.user;
    var items := Items(w, IdsWith(lat, d, idx), found.items);
    var dmi := NewDmi(w, s, lat, ext, idx, d, found);
    assert SourceRow(lat, oldRow, d) + dmi.len == |s|;
    hide OkWorld, SortedLpis, Items, Answer, OkLat, OfferOk, DmiOk, NewDmi, Skipped, SourceRow, IdsWith;
    if added {
      PlanGrows(lat, p, dmi, SourceRow(lat, oldRow, d), items);
    }
  }

  // One more match node, and an offer that uses it.
  lemma PlanGrows(lat: Lat, p: Plan, dmi: Dmi, fr: nat, items: seq<Lpi>)
    requires PlanOk(lat, p) && DmiOk(lat, |lat.rows|, dmi) && fr + dmi.len == |lat.rows|
    requires items != [] ==> OfferOk(lat.rows, lat.nodes, Offer(fr, items, |lat.dmis| + |p.dmis|))
    ensures forall q: Plan :: q.dmis == p.dmis + [dmi] && q.offers == p.offers ==> PlanOk(lat, q)
    ensures items != [] ==>
              forall q: Plan ::
                q.dmis == p.dmis + [dmi] && q.offers == p.offers + [Offer(fr, items, |lat.dmis| + |p.dmis|)] ==>
                  PlanOk(lat, q)
  {
    hide OfferOk, DmiOk;
  }

  lemma {:induction false} MatchesKeeps(w: World, s: string, lat: Lat, ext: nat, idx: nat, pos: nat, p: Plan)
    requires OkWorld(w) && OkLat(lat) && 0 < ext <= |s| == |lat.rows| && pos >= lat.rows[|s| - ext].dmiPos
    requires PlanOk(lat, p)
    ensures PlanOk(lat, Matches(w, s, lat, ext, idx, pos, p))
    decreases lat.rows[|s| - ext].dmiPos + lat.rows[|s| - ext].dmiNum + 1 - pos
  {
    var end := lat.rows[|s| - ext].dmiPos + lat.rows[|s| - ext].dmiNum;
    hide OkWorld, OkLat, PlanOk, Match;
    if pos <= end {
      var d: int := if pos == end then -1 else pos;
      MatchKeeps(w, s, lat, ext, idx, d, p);
      MatchesKeeps(w, s, lat, ext, idx, pos + 1, Match(w, s, lat, ext, idx, d, p));
    }
  }

  lemma ExtendKeeps(w: World, s: string, lat: Lat, ext: nat, p: Plan)
    requires OkWorld(w) && OkLat(lat) && 0 < ext <= |s| == |lat.rows| && PlanOk(lat, p)
    ensures PlanOk(lat, Extend(w, s, lat, ext, p))
  {
    var oldRow := |s| - ext;
    var (idx, pre) := w.splid(s[oldRow..]);
    var p1 := if pre then p.(matched := true) else p;
    assert PlanOk(lat, p1);
    hide OkWorld, OkLat, PlanOk, Matches;
    if lat.rows[oldRow].ndNum != 0 && idx != 0 {
      MatchesKeeps(w, s, lat, ext, idx, lat.rows[oldRow].dmiPos, p1);
    }
  }

  lemma {:induction false} ExtendsKeeps(w: World, s: string, lat: Lat, ext: nat, p: Plan)
    requires OkWorld(w) && OkLat(lat) && |s| == |lat.rows| && PlanOk(lat, p)
    ensures PlanOk(lat, Extends(w, s, lat, ext, p))
    decreases ext
  {
    hide OkWorld, OkLat, PlanOk, Extend;
    if ext > |s| {
      ExtendsKeeps(w, s, lat, ext - 1, p);
    } else if ext > 0 {
      if !(ext > 1 && p.longest != 0 && !lat.rows[|s| - ext].hasFull) {
        ExtendKeeps(w, s, lat, ext, p);
        ExtendsKeeps(w, s, lat, ext - 1, Extend(w, s, lat, ext, p));
      } else {
        ExtendsKeeps(w, s, lat, ext - 1, p);
      }
    }
  }

  lemma PlanIsOk(w: World, s: string, lat: Lat)
    requires OkWorld(w) && OkLat(lat) && |s| == |lat.rows|
    ensures PlanOk(lat, PlanOf(w, s, lat))
    ensures forall o :: o in PlanOf(w, s, lat).offers ==>
              OfferOk(lat.rows, lat.nodes, o) && OfferFits(lat.rows, lat.nodes, o)
  {
    assert PlanOk(lat, NO_PLAN);
    ExtendsKeeps(w, s, lat, MAX_PINYIN_SIZE + 1, NO_PLAN);
    hide OkWorld, OkLat, SortedLpis;
  }

  // ---- One character ----

  // The lattice of s, given the lattice of s without its last character.
  ghost function AddChar(w: World, s: string, lat: Lat): Lat
    requires OkWorld(w) && OkLat(lat) && |s| == |lat.rows|
  {
    PlanIsOk(w, s, lat);
    var p := PlanOf(w, s, lat);
    WithRow(lat, RowOf(lat.rows, lat.nodes, p.offers, |lat.rows|), p.dmis, p.hasFull)
  }

  // add_char's result: the new row is a word boundary, or some spelling may still go on.
  ghost predicate Accepted(w: World, s: string, lat: Lat)
    requires OkWorld(w) && OkLat(lat) && |s| == |lat.rows|
  {
    AddChar(w, s, lat).rows[|s|].ndNum != 0 || PlanOf(w, s, lat).matched
  }

  lemma DmiStays(lat: Lat, row: seq<Node>, dmis: seq<Dmi>, hasFull: bool, r: nat, dmi: Dmi)
    requires DmiOk(lat, r, dmi)
    ensures DmiOk(WithRow(lat, row, dmis, hasFull), r, dmi)
  {}

  lemma WithRowTiled(lat: Lat, row: seq<Node>, dmis: seq<Dmi>, hasFull: bool)
    requires Tiled(lat) && |row| <= MAX_NODE_A_ROW
    ensures Tiled(WithRow(lat, row, dmis, hasFull))
  {
    var lat', n := WithRow(lat, row, dmis, hasFull), |lat.rows|;
    assert lat'.rows[n] == Row(|lat.nodes|, |row|, |lat.dmis|, |dmis|, hasFull);
    assert forall r :: 0 <= r < n ==> lat'.rows[r] == lat.rows[r];
    hide WithRow;
  }

  lemma WithRowOk(lat: Lat, row: seq<Node>, dmis: seq<Dmi>, hasFull: bool)
    requires OkLat(lat) && |row| <= MAX_NODE_A_ROW
    requires forall i :: 0 <= i < |dmis| ==> DmiOk(lat, |lat.rows|, dmis[i])
    ensures OkLat(WithRow(lat, row, dmis, hasFull))
  {
    var lat' := WithRow(lat, row, dmis, hasFull);
    WithRowTiled(lat, row, dmis, hasFull);
    forall i | 0 <= i < |lat'.dmis|
      ensures lat'.dmis[i].from < i
    {
      if i >= |lat.dmis| {
        assert lat'.dmis[i] == dmis[i - |lat.dmis|] && DmiOk(lat, |lat.rows|, dmis[i - |lat.dmis|]);
      }
    }
    hide Tiled, DmiOk;
    forall r: nat, i: nat
      ensures DmiIn(lat', r, i)
    {
      if r < |lat.rows| {
        RowsEnd(lat, r);
        assert DmiIn(lat, r, i);
        if lat.rows[r].dmiPos <= i < lat.rows[r].dmiPos + lat.rows[r].dmiNum {
          DmiStays(lat, row, dmis, hasFull, r, lat.dmis[i]);
        }
      } else if r == |lat.rows| && |lat.dmis| <= i < |lat.dmis| + |dmis| {
        assert lat'.dmis[i] == dmis[i - |lat.dmis|];
        DmiStays(lat, row, dmis, hasFull, r, dmis[i - |lat.dmis|]);
      }
    }
  }

  lemma AddCharOk(w: World, s: string, lat: Lat)
    requires OkWorld(w) && OkLat(lat) && |s| == |lat.rows|
    ensures OkLat(AddChar(w, s, lat)) && |AddChar(w, s, lat).rows| == |lat.rows| + 1
  {
    PlanIsOk(w, s, lat);
    var p := PlanOf(w, s, lat);
    assert forall i :: 0 <= i < |p.dmis| ==> DmiOk(lat, |lat.rows|, p.dmis[i]);
    hide OkWorld, OkLat, PlanOf, RowOf, PlanOk;
    WithRowOk(lat, RowOf(lat.rows, lat.nodes, p.offers, |lat.rows|), p.dmis, p.hasFull);
  }

  // ---- Whole strings ----

  // The lattice of p.
  ghost function Run(w: World, p: string): (lat: Lat)
    requires OkWorld(w)
    ensures OkLat(lat) && |lat.rows| == |p| + 1
  {
    if p == [] then EMPTY_LAT
    else
      AddCharOk(w, p, Run(w, p[..|p| - 1]));
      AddChar(w, p, Run(w, p[..|p| - 1]))
  }

  // The first k rows and their nodes: what reset_search leaves alive.
  function Trunc(lat: Lat, k: nat): Lat
    requires k < |lat.rows| && lat.rows[k].ndPos + lat.rows[k].ndNum <= |lat.nodes|
    requires lat.rows[k].dmiPos + lat.rows[k].dmiNum <= |lat.dmis|
  {
    Lat(lat.rows[..k + 1], lat.nodes[..lat.rows[k].ndPos + lat.rows[k].ndNum],
      lat.dmis[..lat.rows[k].dmiPos + lat.rows[k].dmiNum])
  }

  lemma TruncSelf(lat: Lat)
    requires Tiled(lat)
    ensures Trunc(lat, |lat.rows| - 1) == lat
  {}

  lemma TruncWithRow(lat: Lat, row: seq<Node>, dmis: seq<Dmi>, hasFull: bool, k: nat)
    requires Tiled(lat) && k < |lat.rows|
    ensures lat.rows[k].ndPos + lat.rows[k].ndNum <= |lat.nodes|
    ensures lat.rows[k].dmiPos + lat.rows[k].dmiNum <= |lat.dmis|
    ensures Trunc(WithRow(lat, row, dmis, hasFull), k) == Trunc(lat, k)
  {
    RowsEnd(lat, k);
    var lat' := WithRow(lat, row, dmis, hasFull);
    assert lat'.rows[..k + 1] == lat.rows[..k + 1];
  }

  // Rewinding the lattice of p gives the lattice of its beginning.
  lemma {:induction false} RewindIsShorter(w: World, p: string, k: nat)
    requires OkWorld(w) && k <= |p|
    ensures var lat := Run(w, p);
            && lat.rows[k].ndPos + lat.rows[k].ndNum <= |lat.nodes|
            && lat.rows[k].dmiPos + lat.rows[k].dmiNum <= |lat.dmis|
            && Trunc(lat, k) == Run(w, p[..k])
  {
    var lat := Run(w, p);
    RowsEnd(lat, k);
    if k == |p| {
      assert p[..k] == p;
      TruncSelf(lat);
    } else {
      var q := p[..|p| - 1];
      var before := Run(w, q);
      RewindIsShorter(w, q, k);
      assert q[..k] == p[..k];
      PlanIsOk(w, p, before);
      var plan := PlanOf(w, p, before);
      hide OkWorld, PlanOf, RowOf, PlanOk;
      TruncWithRow(before, RowOf(before.rows, before.nodes, plan.offers, |before.rows|), plan.dmis, plan.hasFull, k);
    }
  }

  // The offers made for each row while p is decoded.
  ghost function HistOf(w: World, p: string): (h: seq<seq<Offer>>)
    requires OkWorld(w)
    ensures |h| == |p| + 1
  {
    if p == [] then [[]] else HistOf(w, p[..|p| - 1]) + [PlanOf(w, p, Run(w, p[..|p| - 1])).offers]
  }
}
