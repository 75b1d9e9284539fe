// A lattice grown row by row from offered edges, and the optimality of each row's
// first node over all chains of offered edges.

module Beam {
  import opened Limits
  import opened Lattice

  // Lemmas offered from every node of row frRow to the row being built.
  datatype Offer = Offer(frRow: nat, items: seq<Lpi>, dmi: nat)

  datatype Row = Row(ndPos: nat, ndNum: nat, dmiPos: nat, dmiNum: nat, hasFull: bool)

  // A dictionary match node; from is the pool index of the match it extends, -1 for the root.
  datatype Dmi = Dmi(sys: bool, user: bool, from: int, splId: nat, level: nat, split: bool, len: nat, allFull: bool)

  datatype Lat = Lat(rows: seq<Row>, nodes: seq<Node>, dmis: seq<Dmi>)

  const ROOT_ROW := Row(0, 1, 0, 0, true)
  const ROOT_NODE := Node(0, 0, 0, -1, 0)

  // MatrixSearch::reset_search0
  const EMPTY_LAT := Lat([ROOT_ROW], [ROOT_NODE], [])

  // ---- The nodes of a row as a fold over its offers ----

  // Extending the nodes of pool[at..end).
  function ExtendNodes(row: seq<Node>, nodes: seq<Node>, at: nat, end: nat, o: Offer, step: nat): (r: seq<Node>)
    requires end <= |nodes|
    ensures |row| <= MAX_NODE_A_ROW ==> |r| <= MAX_NODE_A_ROW
    decreases end - at
  {
    if at >= end then row
    else ExtendNodes(ExtendFrom(row, at, nodes[at], o.items, o.dmi, step, 0), nodes, at + 1, end, o, step)
  }

  predicate OfferFits(rows: seq<Row>, nodes: seq<Node>, o: Offer) {
    o.frRow < |rows| && rows[o.frRow].ndPos + rows[o.frRow].ndNum <= |nodes|
  }

  function ExtendOffer(row: seq<Node>, rows: seq<Row>, nodes: seq<Node>, o: Offer, step: nat): (r: seq<Node>)
    requires OfferFits(rows, nodes, o)
    ensures |row| <= MAX_NODE_A_ROW ==> |r| <= MAX_NODE_A_ROW
  {
    ExtendNodes(row, nodes, rows[o.frRow].ndPos, rows[o.frRow].ndPos + rows[o.frRow].ndNum, o, step)
  }

  // The row made by the offers, taken in order.
  function RowOf(rows: seq<Row>, nodes: seq<Node>, offers: seq<Offer>, step: nat): (r: seq<Node>)
    requires forall o :: o in offers ==> OfferFits(rows, nodes, o)
    ensures |r| <= MAX_NODE_A_ROW
  {
    if offers == [] then []
    else ExtendOffer(RowOf(rows, nodes, offers[..|offers| - 1], step), rows, nodes, offers[|offers| - 1], step)
  }

  // ---- Lattices ----

  function RowNodes(lat: Lat, r: nat): (s: seq<Node>)
    requires r < |lat.rows| && lat.rows[r].ndPos + lat.rows[r].ndNum <= |lat.nodes|
    ensures |s| == lat.rows[r].ndNum
  {
    lat.nodes[lat.rows[r].ndPos..lat.rows[r].ndPos + lat.rows[r].ndNum]
  }

  ghost predicate OfferOk(rows: seq<Row>, nodes: seq<Node>, o: Offer) {
    OfferFits(rows, nodes, o) && |o.items| > 0 && SortedLpis(o.items)
  }

  // Rows lie one behind the other in both pools.
  ghost predicate Tiled(lat: Lat) {
    && |lat.rows| > 0 && lat.rows[0] == ROOT_ROW && |lat.nodes| > 0 && lat.nodes[0] == ROOT_NODE
    && (forall r :: 0 < r < |lat.rows| ==>
      && lat.rows[r].ndPos == lat.rows[r - 1].ndPos + lat.rows[r - 1].ndNum
      && lat.rows[r].dmiPos == lat.rows[r - 1].dmiPos + lat.rows[r - 1].dmiNum)
    && (forall r :: 0 <= r < |lat.rows| ==> lat.rows[r].ndNum <= MAX_NODE_A_ROW)
    && var last := lat.rows[|lat.rows| - 1];
       |lat.nodes| == last.ndPos + last.ndNum && |lat.dmis| == last.dmiPos + last.dmiNum
  }

  // Row r was made by these offers from the rows before it.
  ghost predicate MadeBy(lat: Lat, r: nat, offers: seq<Offer>) {
    && 0 < r < |lat.rows| && lat.rows[r].ndPos + lat.rows[r].ndNum <= |lat.nodes|
    && (forall o :: o in offers ==> OfferOk(lat.rows[..r], lat.nodes[..lat.rows[r].ndPos], o))
    && RowNodes(lat, r) == RowOf(lat.rows[..r], lat.nodes[..lat.rows[r].ndPos], offers, r)
  }

  // hist[r] are the offers that made row r.
  ghost predicate Grown(lat: Lat, hist: seq<seq<Offer>>) {
    && Tiled(lat) && |hist| == |lat.rows| && hist[0] == []
    && forall r :: 0 < r < |lat.rows| ==> MadeBy(lat, r, hist[r])
  }

  lemma EmptyGrown()
    ensures Grown(EMPTY_LAT, [[]])
  {}

  lemma {:induction false} RowsWithin(lat: Lat, r: nat, q: nat)
    requires Tiled(lat) && r <= q < |lat.rows|
    ensures lat.rows[r].ndPos + lat.rows[r].ndNum <= lat.rows[q].ndPos + lat.rows[q].ndNum <= |lat.nodes|
    ensures lat.rows[r].dmiPos + lat.rows[r].dmiNum <= lat.rows[q].dmiPos + lat.rows[q].dmiNum <= |lat.dmis|
    ensures r < q ==> lat.rows[r].ndPos + lat.rows[r].ndNum <= lat.rows[q].ndPos
    ensures r < q ==> lat.rows[r].dmiPos + lat.rows[r].dmiNum <= lat.rows[q].dmiPos
    decreases q - r, |lat.rows| - q
  {
    if r < q {
      RowsWithin(lat, r, q - 1);
    } else if q + 1 < |lat.rows| {
      RowsEnd(lat, q);
    }
    if r < q && q + 1 < |lat.rows| {
      RowsEnd(lat, q);
    }
  }

  lemma {:induction false} RowsEnd(lat: Lat, q: nat)
    requires Tiled(lat) && q < |lat.rows|
    ensures lat.rows[q].ndPos + lat.rows[q].ndNum <= |lat.nodes|
    ensures lat.rows[q].dmiPos + lat.rows[q].dmiNum <= |lat.dmis|
    decreases |lat.rows| - q
  {
    if q + 1 < |lat.rows| {
      RowsEnd(lat, q + 1);
    }
  }

  // A row takes at most five nodes of the pool, so the pool guard never fires.
  lemma {:induction false} PoolUse(lat: Lat, r: nat)
    requires Tiled(lat) && r < |lat.rows|
    ensures lat.rows[r].ndPos + lat.rows[r].ndNum <= 1 + MAX_NODE_A_ROW * r
    ensures r > 0 && r < MAX_ROW_NUM ==> lat.rows[r].ndPos + MAX_NODE_A_ROW < MTRX_ND_POOL_SIZE
  {
    if r > 0 {
      PoolUse(lat, r - 1);
    }
  }

  // The lattice with one more row.
  function WithRow(lat: Lat, row: seq<Node>, dmis: seq<Dmi>, hasFull: bool): Lat {
    Lat(lat.rows + [Row(|lat.nodes|, |row|, |lat.dmis|, |dmis|, hasFull)], lat.nodes + row, lat.dmis + dmis)
  }

  lemma MadeByStays(lat: Lat, r: nat, offers: seq<Offer>, row: seq<Node>, dmis: seq<Dmi>, hasFull: bool)
    requires MadeBy(lat, r, offers) && Tiled(lat)
    ensures MadeBy(WithRow(lat, row, dmis, hasFull), r, offers)
  {
    var lat' := WithRow(lat, row, dmis, hasFull);
    RowsEnd(lat, r);
    assert lat'.rows[..r] == lat.rows[..r];
    assert lat'.nodes[..lat.rows[r].ndPos] == lat.nodes[..lat.rows[r].ndPos];
    assert RowNodes(lat', r) == RowNodes(lat, r);
    hide RowOf, Tiled, OfferOk;
  }

  lemma NewRowMade(lat: Lat, offers: seq<Offer>, dmis: seq<Dmi>, hasFull: bool)
    requires Tiled(lat) && forall o :: o in offers ==> OfferOk(lat.rows, lat.nodes, o)
    ensures forall o :: o in offers ==> OfferFits(lat.rows, lat.nodes, o)
    ensures MadeBy(WithRow(lat, RowOf(lat.rows, lat.nodes, offers, |lat.rows|), dmis, hasFull), |lat.rows|, offers)
  {
    var r, row := |lat.rows|, RowOf(lat.rows, lat.nodes, offers, |lat.rows|);
    var lat' := WithRow(lat, row, dmis, hasFull);
    assert lat'.rows[..r] == lat.rows && lat'.nodes[..|lat.nodes|] == lat.nodes;
    assert RowNodes(lat', r) == row;
    hide RowOf, SortedLpis;
  }

  // Adding a row made by offers keeps a lattice grown.
  lemma GrowsByRow(lat: Lat, hist: seq<seq<Offer>>, offers: seq<Offer>, dmis: seq<Dmi>, hasFull: bool)
    requires Grown(lat, hist) && forall o :: o in offers ==> OfferOk(lat.rows, lat.nodes, o)
    ensures forall o :: o in offers ==> OfferFits(lat.rows, lat.nodes, o)
    ensures Grown(WithRow(lat, RowOf(lat.rows, lat.nodes, offers, |lat.rows|), dmis, hasFull), hist + [offers])
  {
    NewRowMade(lat, offers, dmis, hasFull);
    var row := RowOf(lat.rows, lat.nodes, offers, |lat.rows|);
    var lat' := WithRow(lat, row, dmis, hasFull);
    forall r | 0 < r < |lat'.rows|
      ensures MadeBy(lat', r, (hist + [offers])[r])
    {
      if r < |lat.rows| {
        MadeByStays(lat, r, hist[r], row, dmis, hasFull);
      }
    }
    hide MadeBy, RowOf, OfferOk;
  }

  // ---- What the fold keeps ----

  // x comes from a node of pool[at..end) and a lemma of the offer.
  ghost predicate Edge(x: Node, nodes: seq<Node>, at: nat, end: nat, o: Offer, step: nat) {
    at <= x.from < end <= |nodes| && From(x, x.from, nodes[x.from], o.items, o.dmi, step)
  }

  ghost predicate SortedSlice(nodes: seq<Node>, at: nat, end: nat) {
    end <= |nodes| && forall i, j :: at <= i <= j < end ==> nodes[i].score <= nodes[j].score
  }

  lemma {:induction false} ExtendNodesKeeps(row: seq<Node>, nodes: seq<Node>, at: nat, end: nat, o: Offer, step: nat)
    requires Sorted(row) && SortedLpis(o.items) && |o.items| > 0 && SortedSlice(nodes, at, end)
    ensures var r := ExtendNodes(row, nodes, at, end, o, step);
            && Sorted(r) && (forall x :: x in r ==> x in row || Edge(x, nodes, at, end, o, step))
            && (at >= end ==> r == row)
            && (at < end ==> r != [] && r[0].score == Least(row, nodes[at].score + o.items[0].psb))
    decreases end - at
  {
    if at < end {
      var mid := ExtendFrom(row, at, nodes[at], o.items, o.dmi, step, 0);
      ExtendNode(row, at, nodes[at], o.items, o.dmi, step);
      FromHere(mid, row, nodes, at, end, o, step);
      hide ExtendFrom, From, SortedLpis, Sorted;
      ExtendNodesKeeps(mid, nodes, at + 1, end, o, step);
    }
  }

  lemma FromHere(mid: seq<Node>, row: seq<Node>, nodes: seq<Node>, at: nat, end: nat, o: Offer, step: nat)
    requires at < end <= |nodes|
    requires forall x :: x in mid ==> x in row || From(x, at, nodes[at], o.items, o.dmi, step)
    ensures forall x :: x in mid ==> x in row || Edge(x, nodes, at, end, o, step)
  {}

  // ---- Rows of a grown lattice ----

  // The best score an offer brings, if its source row has a node.
  ghost function Brings(rows: seq<Row>, nodes: seq<Node>, o: Offer): nat
    requires OfferOk(rows, nodes, o) && rows[o.frRow].ndNum > 0
  {
    nodes[rows[o.frRow].ndPos].score + o.items[0].psb
  }

  ghost predicate Usable(rows: seq<Row>, o: Offer) { o.frRow < |rows| && rows[o.frRow].ndNum > 0 }

  ghost predicate RowsSorted(rows: seq<Row>, nodes: seq<Node>) {
    forall r :: 0 <= r < |rows| ==> SortedSlice(nodes, rows[r].ndPos, rows[r].ndPos + rows[r].ndNum)
  }

  // x is an edge of offer o.
  ghost predicate EdgeOf(x: Node, rows: seq<Row>, nodes: seq<Node>, o: Offer, step: nat) {
    OfferOk(rows, nodes, o) && Edge(x, nodes, rows[o.frRow].ndPos, rows[o.frRow].ndPos + rows[o.frRow].ndNum, o, step)
  }

  ghost predicate Offered(x: Node, rows: seq<Row>, nodes: seq<Node>, offers: seq<Offer>, step: nat) {
    exists o :: o in offers && EdgeOf(x, rows, nodes, o, step)
  }

  // The row made by offers is sorted, consists of offered edges, and starts with the least score offered.
  ghost predicate RowGood(row: seq<Node>, rows: seq<Row>, nodes: seq<Node>, offers: seq<Offer>, step: nat) {
    && Sorted(row)
    && (forall x :: x in row ==> Offered(x, rows, nodes, offers, step))
    && (forall o :: o in offers && OfferOk(rows, nodes, o) && Usable(rows, o) ==>
         row != [] && row[0].score <= Brings(rows, nodes, o))
    && (row != [] ==>
          exists o ::
            o in offers && OfferOk(rows, nodes, o) && Usable(rows, o) && row[0].score == Brings(rows, nodes, o))
  }

  lemma {:induction false} RowIsGood(rows: seq<Row>, nodes: seq<Node>, offers: seq<Offer>, step: nat)
    requires (forall o :: o in offers ==> OfferOk(rows, nodes, o)) && RowsSorted(rows, nodes)
    ensures forall o :: o in offers ==> OfferFits(rows, nodes, o)
    ensures RowGood(RowOf(rows, nodes, offers, step), rows, nodes, offers, step)
  {
    if offers != [] {
      var p, o := offers[..|offers| - 1], offers[|offers| - 1];
      assert o in offers && forall q :: q in p ==> q in offers;
      RowIsGood(rows, nodes, p, step);
      assert p + [o] == offers;
      assert OfferOk(rows, nodes, o);
      RowStep(rows, nodes, p, o, step);
    }
  }

  lemma RowStep(rows: seq<Row>, nodes: seq<Node>, p: seq<Offer>, o: Offer, step: nat)
    requires (forall q :: q in p ==> OfferFits(rows, nodes, q)) && OfferOk(rows, nodes, o) && RowsSorted(rows, nodes)
    requires RowGood(RowOf(rows, nodes, p, step), rows, nodes, p, step)
    ensures RowGood(ExtendOffer(RowOf(rows, nodes, p, step), rows, nodes, o, step), rows, nodes, p + [o], step)
  {
    hide *;
    SourceSorted(rows, nodes, o);
    var fr, row := rows[o.frRow], RowOf(rows, nodes, p, step);
    GoodSorted(row, rows, nodes, p, step);
    ExtendNodesKeeps(row, nodes, fr.ndPos, fr.ndPos + fr.ndNum, o, step);
    OfferIs(row, rows, nodes, o, step);
    GoodStep(row, ExtendOffer(row, rows, nodes, o, step), rows, nodes, p, o, step);
  }

  // The row an offer starts from.
  lemma SourceSorted(rows: seq<Row>, nodes: seq<Node>, o: Offer)
    requires OfferOk(rows, nodes, o) && RowsSorted(rows, nodes)
    ensures OfferFits(rows, nodes, o) && o.frRow < |rows| && SortedLpis(o.items) && |o.items| > 0
    ensures rows[o.frRow].ndPos + rows[o.frRow].ndNum <= |nodes|
    ensures SortedSlice(nodes, rows[o.frRow].ndPos, rows[o.frRow].ndPos + rows[o.frRow].ndNum)
    ensures rows[o.frRow].ndNum > 0 ==> Brings(rows, nodes, o) == nodes[rows[o.frRow].ndPos].score + o.items[0].psb
  {
    hide SortedLpis;
  }

  lemma GoodSorted(row: seq<Node>, rows: seq<Row>, nodes: seq<Node>, offers: seq<Offer>, step: nat)
    requires RowGood(row, rows, nodes, offers, step)
    ensures Sorted(row)
  {
    hide Sorted, Offered, OfferOk, Brings;
  }

  lemma OfferIs(row: seq<Node>, rows: seq<Row>, nodes: seq<Node>, o: Offer, step: nat)
    requires OfferFits(rows, nodes, o)
    ensures ExtendOffer(row, rows, nodes, o, step) ==
              ExtendNodes(row, nodes, rows[o.frRow].ndPos, rows[o.frRow].ndPos + rows[o.frRow].ndNum, o, step)
  {
    hide ExtendNodes;
  }

  lemma GoodStep(row: seq<Node>, row': seq<Node>, rows: seq<Row>, nodes: seq<Node>, p: seq<Offer>, o: Offer, step: nat)
    requires RowGood(row, rows, nodes, p, step) && OfferOk(rows, nodes, o) && Sorted(row')
    requires var fr := rows[o.frRow];
             && (forall x :: x in row' ==> x in row || Edge(x, nodes, fr.ndPos, fr.ndPos + fr.ndNum, o, step))
             && (fr.ndNum == 0 ==> row' == row)
             && (fr.ndNum > 0 ==> row' != [] && row'[0].score == Least(row, Brings(rows, nodes, o)))
    ensures RowGood(row', rows, nodes, p + [o], step)
  {
    hide Edge, Sorted, SortedLpis, Brings;
    var offers := p + [o];
    assert o in offers && (forall q :: q in p ==> q in offers) && forall q :: q in offers ==> q in p || q == o;
    forall x | x in row'
      ensures Offered(x, rows, nodes, offers, step)
    {
      if x in row {
        assert Offered(x, rows, nodes, p, step);
        var q :| q in p && EdgeOf(x, rows, nodes, q, step);
      } else {
        assert EdgeOf(x, rows, nodes, o, step);
      }
    }
    if row' != [] {
      if Usable(rows, o) && row'[0].score == Brings(rows, nodes, o) {
      } else {
        assert row != [] && row'[0].score == row[0].score;
        var q :| q in p && OfferOk(rows, nodes, q) && Usable(rows, q) && row[0].score == Brings(rows, nodes, q);
        assert q in offers;
      }
    }
  }

  lemma {:induction false} GrownSorted(lat: Lat, hist: seq<seq<Offer>>, r: nat)
    requires Grown(lat, hist) && r < |lat.rows|
    ensures SortedSlice(lat.nodes, lat.rows[r].ndPos, lat.rows[r].ndPos + lat.rows[r].ndNum)
    ensures r > 0 ==> RowsSorted(lat.rows[..r], lat.nodes[..lat.rows[r].ndPos])
    decreases r
  {
    RowsEnd(lat, r);
    if r > 0 {
      forall q | 0 <= q < r
        ensures SortedSlice(lat.nodes[..lat.rows[r].ndPos], lat.rows[q].ndPos, lat.rows[q].ndPos + lat.rows[q].ndNum)
      {
        GrownSorted(lat, hist, q);
        RowsWithin(lat, q, r);
      }
      RowIsGood(lat.rows[..r], lat.nodes[..lat.rows[r].ndPos], hist[r], r);
      SliceSorted(lat, r);
    }
  }

  lemma SliceSorted(lat: Lat, r: nat)
    requires r < |lat.rows| && lat.rows[r].ndPos + lat.rows[r].ndNum <= |lat.nodes| && Sorted(RowNodes(lat, r))
    ensures SortedSlice(lat.nodes, lat.rows[r].ndPos, lat.rows[r].ndPos + lat.rows[r].ndNum)
  {
    var p := lat.rows[r].ndPos;
    forall i, j | p <= i <= j < p + lat.rows[r].ndNum
      ensures lat.nodes[i].score <= lat.nodes[j].score
    {
      assert RowNodes(lat, r)[i - p] == lat.nodes[i] && RowNodes(lat, r)[j - p] == lat.nodes[j];
    }
  }

  lemma GrownGood(lat: Lat, hist: seq<seq<Offer>>, r: nat)
    requires Grown(lat, hist) && 0 < r < |lat.rows|
    ensures lat.rows[r].ndPos + lat.rows[r].ndNum <= |lat.nodes|
    ensures RowGood(RowNodes(lat, r), lat.rows[..r], lat.nodes[..lat.rows[r].ndPos], hist[r], r)
  {
    GrownSorted(lat, hist, r);
    RowIsGood(lat.rows[..r], lat.nodes[..lat.rows[r].ndPos], hist[r], r);
  }

  // Every node but the root leads back to a node of an earlier row that made it.
  lemma BackPointer(lat: Lat, hist: seq<seq<Offer>>, r: nat, i: nat) returns (o: Offer, k: nat)
    requires Grown(lat, hist) && 0 < r < |lat.rows| && lat.rows[r].ndPos <= i < lat.rows[r].ndPos + lat.rows[r].ndNum
    ensures i < |lat.nodes| && r < |hist| && o in hist[r] && k < |o.items| && o.frRow < r
    ensures lat.nodes[i].step == r && lat.nodes[i].from < lat.rows[r].ndPos
    ensures lat.rows[o.frRow].ndPos <= lat.nodes[i].from < lat.rows[o.frRow].ndPos + lat.rows[o.frRow].ndNum
    ensures lat.nodes[i].id == o.items[k].id && lat.nodes[i].dmiFr == o.dmi
    ensures lat.nodes[i].score == lat.nodes[lat.nodes[i].from].score + o.items[k].psb
  {
    GrownGood(lat, hist, r);
    RowsEnd(lat, r);
    assert |hist| == |lat.rows|;
    hide Grown, Tiled, SortedLpis, Edge, Sorted;
    var rows, nodes := lat.rows[..r], lat.nodes[..lat.rows[r].ndPos];
    var x := RowNodes(lat, r)[i - lat.rows[r].ndPos];
    assert x == lat.nodes[i] && x in RowNodes(lat, r);
    assert Offered(x, rows, nodes, hist[r], r);
    hide RowGood;
    o :| o in hist[r] && EdgeOf(x, rows, nodes, o, r);
    k := EdgeParts(lat, x, r, o);
  }

  lemma EdgeParts(lat: Lat, x: Node, r: nat, o: Offer) returns (k: nat)
    requires 0 < r < |lat.rows| && lat.rows[r].ndPos <= |lat.nodes| && o.frRow < r
    requires Edge(x, lat.nodes[..lat.rows[r].ndPos], lat.rows[o.frRow].ndPos,
               lat.rows[o.frRow].ndPos + lat.rows[o.frRow].ndNum, o, r)
    ensures x.step == r && x.dmiFr == o.dmi && x.from < lat.rows[r].ndPos
    ensures lat.rows[o.frRow].ndPos <= x.from < lat.rows[o.frRow].ndPos + lat.rows[o.frRow].ndNum
    ensures k < |o.items| && x.id == o.items[k].id && x.score == lat.nodes[x.from].score + o.items[k].psb
  {
    var nodes := lat.nodes[..lat.rows[r].ndPos];
    k :| 0 <= k < |o.items| && x == NodeFor(x.from, nodes[x.from].score, o.items[k], o.dmi, r);
    assert nodes[x.from] == lat.nodes[x.from];
  }

  // ---- Chains of offered edges ----

  datatype Chain = Origin | Link(prev: Chain, row: nat, offer: nat, item: nat)

  function End(c: Chain): nat {
    if c.Origin? then 0 else c.row
  }

  predicate ValidChain(hist: seq<seq<Offer>>, c: Chain) {
    c.Link? ==>
      && ValidChain(hist, c.prev) && 0 < c.row < |hist| && c.offer < |hist[c.row]|
      && c.item < |hist[c.row][c.offer].items| && hist[c.row][c.offer].frRow == End(c.prev)
  }

  function Total(hist: seq<seq<Offer>>, c: Chain): nat
    requires ValidChain(hist, c)
  {
    if c.Origin? then 0 else Total(hist, c.prev) + hist[c.row][c.offer].items[c.item].psb
  }

  // No chain of offered edges to row r is better than the row's first node.
  lemma {:induction false} FirstIsLeast(lat: Lat, hist: seq<seq<Offer>>, c: Chain)
    requires Grown(lat, hist) && ValidChain(hist, c)
    ensures End(c) < |lat.rows| && lat.rows[End(c)].ndNum > 0
    ensures lat.rows[End(c)].ndPos < |lat.nodes| && lat.nodes[lat.rows[End(c)].ndPos].score <= Total(hist, c)
  {
    if c.Link? {
      FirstIsLeast(lat, hist, c.prev);
      var r, o := c.row, hist[c.row][c.offer];
      GrownGood(lat, hist, r);
      RowsEnd(lat, r);
      assert MadeBy(lat, r, hist[r]);
      assert OfferOk(lat.rows[..r], lat.nodes[..lat.rows[r].ndPos], o);
      RowsWithin(lat, o.frRow, r);
      assert RowNodes(lat, r)[0] == lat.nodes[lat.rows[r].ndPos];
      assert o.items[0].psb <= o.items[c.item].psb;
      hide Grown, Tiled, MadeBy;
      assert RowNodes(lat, r)[0].score <= Brings(lat.rows[..r], lat.nodes[..lat.rows[r].ndPos], o);
    }
  }

  // And some chain is as good.
  lemma {:induction false} FirstIsReached(lat: Lat, hist: seq<seq<Offer>>, r: nat) returns (c: Chain)
    requires Grown(lat, hist) && r < |lat.rows| && lat.rows[r].ndNum > 0
    ensures ValidChain(hist, c) && End(c) == r
    ensures lat.rows[r].ndPos < |lat.nodes| && Total(hist, c) == lat.nodes[lat.rows[r].ndPos].score
    decreases r
  {
    if r == 0 {
      c := Origin;
    } else {
      GrownGood(lat, hist, r);
      RowsEnd(lat, r);
      var rows, nodes := lat.rows[..r], lat.nodes[..lat.rows[r].ndPos];
      assert RowNodes(lat, r)[0] == lat.nodes[lat.rows[r].ndPos];
      var o :| o in hist[r] && OfferOk(rows, nodes, o) && Usable(rows, o)
            && RowNodes(lat, r)[0].score == Brings(rows, nodes, o);
      var k :| 0 <= k < |hist[r]| && hist[r][k] == o;
      var prev := FirstIsReached(lat, hist, o.frRow);
      c := Link(prev, r, k, 0);
    }
  }
}
