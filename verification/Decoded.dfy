// Every decoded lattice is one whose best path can be read off: each node's match
// covers exactly the rows from the node before it.

module Decoded {
  import opened Limits
  import opened Lattice
  import opened Beam
  import opened Decoder
  import opened Segment

  // A node's step is its row.
  lemma StepIsRow(lat: Lat, hist: seq<seq<Offer>>, r: nat, i: nat)
    requires Grown(lat, hist) && r < |lat.rows| && lat.rows[r].ndPos <= i < lat.rows[r].ndPos + lat.rows[r].ndNum
    ensures i < |lat.nodes| && lat.nodes[i].step == r
  {
    if r > 0 {
      var o, k := BackPointer(lat, hist, r, i);
    }
  }

  lemma MatchesConcat(lat: Lat, dmis: seq<Dmi>)
    requires MatchesOk(lat.dmis) && forall i :: 0 <= i < |dmis| ==> DmiOk(lat, |lat.rows|, dmis[i])
    ensures MatchesOk(lat.dmis + dmis)
  {
    var all := lat.dmis + dmis;
    forall d: nat | d < |all|
      ensures MatchOk(all, d)
    {
      if d < |lat.dmis| {
        assert MatchOk(lat.dmis, d);
      } else {
        assert all[d] == dmis[d - |lat.dmis|];
      }
    }
  }

  lemma WordStays(lat: Lat, lat': Lat, i: nat)
    requires WordOk(lat, i) && lat.nodes <= lat'.nodes && lat.dmis <= lat'.dmis
    ensures WordOk(lat', i)
  {}

  // The nodes of the new row are words.
  lemma NewWord(lat: Lat, lat': Lat, hist: seq<seq<Offer>>, p: Plan, i: nat)
    requires Tiled(lat) && Grown(lat', hist + [p.offers]) && |hist| == |lat.rows| && PlanOk(lat, p)
    requires lat'.dmis == lat.dmis + p.dmis && |lat'.rows| == |lat.rows| + 1
    requires lat'.rows[|lat.rows|].ndPos == |lat.nodes|
    requires |lat.nodes| <= i < |lat'.nodes|
    ensures WordOk(lat', i)
  {
    var n := |lat.rows|;
    assert lat'.rows[n].ndPos + lat'.rows[n].ndNum == |lat'.nodes|;
    var o, k := BackPointer(lat', hist + [p.offers], n, i);
    assert o in p.offers && Covers(lat, p, o);
    StepIsRow(lat', hist + [p.offers], o.frRow, lat'.nodes[i].from);
    hide Grown, PlanOk;
  }

  lemma WordsFrom(lat: Lat, lat': Lat, hist: seq<seq<Offer>>, p: Plan)
    requires WordsOk(lat) && Tiled(lat) && Grown(lat', hist + [p.offers]) && |hist| == |lat.rows| && PlanOk(lat, p)
    requires lat'.dmis == lat.dmis + p.dmis && |lat'.rows| == |lat.rows| + 1
    requires lat'.rows[|lat.rows|].ndPos == |lat.nodes|
    requires lat.nodes <= lat'.nodes
    ensures WordsOk(lat')
  {
    MatchesConcat(lat, p.dmis);
    hide Grown, PlanOk, MatchesOk, WordOk, Tiled;
    forall i: nat | 0 < i < |lat'.nodes|
      ensures WordOk(lat', i)
    {
      if i < |lat.nodes| {
        assert WordOk(lat, i);
        WordStays(lat, lat', i);
      } else {
        NewWord(lat, lat', hist, p, i);
      }
    }
  }

  // A decoded lattice is grown from its offers and well formed for the walk.
  lemma {:induction false} RunWords(w: World, p: string)
    requires OkWorld(w)
    ensures Grown(Run(w, p), HistOf(w, p)) && WordsOk(Run(w, p))
  {
    if p == [] {
      EmptyGrown();
    } else {
      var lat := Run(w, p[..|p| - 1]);
      RunWords(w, p[..|p| - 1]);
      PlanIsOk(w, p, lat);
      var plan := PlanOf(w, p, lat);
      var row := RowOf(lat.rows, lat.nodes, plan.offers, |lat.rows|);
      hide OkWorld, PlanOf, RowOf, PlanOk, Grown, OfferOk, WordsOk;
      GrowsByRow(lat, HistOf(w, p[..|p| - 1]), plan.offers, plan.dmis, plan.hasFull);
      WordsFrom(lat, WithRow(lat, row, plan.dmis, plan.hasFull), HistOf(w, p[..|p| - 1]), plan);
    }
  }

  ghost predicate Reached(lat: Lat, r: nat) {
    r < |lat.rows| && lat.rows[r].ndNum > 0
  }

  ghost function FirstScore(lat: Lat, r: nat): nat {
    if r < |lat.rows| && lat.rows[r].ndPos < |lat.nodes| then lat.nodes[lat.rows[r].ndPos].score else 0
  }

  // The first node of every row of a decoded lattice has the least total over all
  // chains of the edges offered while decoding.
  lemma RunOptimal(w: World, p: string, r: nat)
    requires OkWorld(w) && r <= |p|
    ensures forall c :: ValidChain(HistOf(w, p), c) && End(c) == r ==>
              Reached(Run(w, p), r) && FirstScore(Run(w, p), r) <= Total(HistOf(w, p), c)
    ensures Reached(Run(w, p), r) ==>
              exists c :: ValidChain(HistOf(w, p), c) && End(c) == r
                && Total(HistOf(w, p), c) == FirstScore(Run(w, p), r)
  {
    var lat, hist := Run(w, p), HistOf(w, p);
    RunWords(w, p);
    hide Grown, OkWorld, OkLat, ValidChain, Total, Run, HistOf;
    forall c | ValidChain(hist, c) && End(c) == r
      ensures Reached(lat, r) && FirstScore(lat, r) <= Total(hist, c)
    {
      FirstIsLeast(lat, hist, c);
    }
    if Reached(lat, r) {
      var c := FirstIsReached(lat, hist, r);
    }
  }

  // Decoding up to 39 characters keeps within the node pool.
  lemma RunPoolUse(w: World, p: string)
    requires OkWorld(w) && |p| < MAX_ROW_NUM
    ensures |Run(w, p).nodes| <= 1 + MAX_NODE_A_ROW * |p| <= MTRX_ND_POOL_SIZE - MAX_NODE_A_ROW + 1
  {
    PoolUse(Run(w, p), |p|);
    hide Run, OkWorld, DmisOk;
  }
}
