// Reading the best path off a lattice (MatrixSearch::get_spl_start_id): a backward
// walk fills the segmentation arrays from the end, which are then reversed in
// place by XOR swaps and summed up again.

module Segment {
  import opened Lattice
  import opened Beam

  // ---- XOR swaps ----

  // Bitwise exclusive or.
  function Xor(a: nat, b: nat): nat {
    if a == 0 && b == 0 then 0 else (a % 2 + b % 2) % 2 + 2 * Xor(a / 2, b / 2)
  }

  lemma XorParts(a: nat, b: nat)
    ensures Xor(a, b) % 2 == (a % 2 + b % 2) % 2 && Xor(a, b) / 2 == Xor(a / 2, b / 2)
  {
    if a == 0 && b == 0 {
    } else {
      var h, l := Xor(a / 2, b / 2), (a % 2 + b % 2) % 2;
      assert Xor(a, b) == l + 2 * h;
    }
  }

  lemma {:induction false} XorCommutes(a: nat, b: nat)
    ensures Xor(a, b) == Xor(b, a)
    decreases a + b
  {
    if a != 0 || b != 0 {
      XorCommutes(a / 2, b / 2);
    }
  }

  lemma {:induction false} XorCancels(a: nat, b: nat)
    ensures Xor(Xor(a, b), b) == a
    decreases a + b
  {
    if a != 0 || b != 0 {
      XorCancels(a / 2, b / 2);
      XorParts(a, b);
      XorParts(Xor(a, b), b);
      Bit(a % 2, b % 2);
      hide Xor;
      Whole(Xor(Xor(a, b), b), a);
    }
  }

  lemma Bit(x: nat, y: nat)
    requires x < 2 && y < 2
    ensures ((x + y) % 2 + y) % 2 == x
  {}

  lemma Whole(x: nat, y: nat)
    requires x % 2 == y % 2 && x / 2 == y / 2
    ensures x == y
  {}

  // Three XORs swap two different cells.
  method SwapXor(a: array<nat>, i: nat, j: nat)
    requires i < a.Length && j < a.Length && i != j
    modifies a
    ensures a[..] == old(a[..])[i := old(a[j])][j := old(a[i])]
  {
    ghost var x, y := a[i], a[j];
    XorCancels(x, y);
    XorCancels(y, x);
    XorCommutes(x, y);
    XorCommutes(y, Xor(x, y));
    hide Xor;
    a[i] := Xor(a[i], a[j]);
    a[j] := Xor(a[j], a[i]);
    a[i] := Xor(a[i], a[j]);
  }

  function Rev(s: seq<nat>): (r: seq<nat>)
    ensures |r| == |s| && forall i :: 0 <= i < |s| ==> r[i] == s[|s| - 1 - i]
  {
    seq(|s|, i requires 0 <= i < |s| => s[|s| - 1 - i])
  }

  lemma RevConcat(a: seq<nat>, b: seq<nat>)
    ensures Rev(a + b) == Rev(b) + Rev(a)
  {}

  // Where cell q of the result comes from when the first k and last k of the n
  // cells from lo on have been exchanged.
  function Source(lo: nat, n: nat, k: nat, q: nat): (r: int)
    ensures q < lo || q >= lo + n ==> r == q
    ensures lo <= q < lo + n ==> lo <= r < lo + n
  {
    if lo <= q < lo + n && (q < lo + k || q >= lo + n - k) then 2 * lo + n - 1 - q else q
  }

  ghost predicate CellOk(s: seq<nat>, was: seq<nat>, lo: nat, n: nat, k: nat, q: nat) {
    q < |s| == |was| && lo + n <= |s| && s[q] == was[Source(lo, n, k, q)]
  }

  ghost predicate HalfReversed(s: seq<nat>, was: seq<nat>, lo: nat, n: nat, k: nat) {
    && |s| == |was| && lo + n <= |s|
    && forall q: nat :: q < |s| ==> CellOk(s, was, lo, n, k, q)
  }

  lemma HalfStep(s: seq<nat>, was: seq<nat>, lo: nat, n: nat, k: nat)
    requires HalfReversed(s, was, lo, n, k) && k < (n + 1) / 2
    ensures var i, j := lo + k, lo + n - 1 - k;
            && i < |s| && j < |s|
            && (i != j ==> HalfReversed(s[i := s[j]][j := s[i]], was, lo, n, k + 1))
            && (i == j ==> HalfReversed(s, was, lo, n, k + 1))
  {
    assert 2 * k + 1 <= n;
    var i, j, next := lo + k, lo + n - 1 - k, k + 1;
    assert CellOk(s, was, lo, n, k, i) && CellOk(s, was, lo, n, k, j);
    var t := if i == j then s else s[i := s[j]][j := s[i]];
    forall q: nat | q < |s|
      ensures CellOk(t, was, lo, n, next, q)
    {
      assert CellOk(s, was, lo, n, k, q);
    }
  }

  lemma HalfAll(s: seq<nat>, was: seq<nat>, lo: nat, n: nat)
    requires HalfReversed(s, was, lo, n, (n + 1) / 2)
    ensures |s| == |was| && lo + n <= |s|
    ensures s[lo..lo + n] == Rev(was[lo..lo + n]) && s[..lo] == was[..lo]
  {
    assert 2 * ((n + 1) / 2) >= n;
    var a, b, x, y := s[..lo], was[..lo], s[lo..lo + n], Rev(was[lo..lo + n]);
    forall q: nat | q < lo
      ensures a[q] == b[q]
    {
      assert CellOk(s, was, lo, n, (n + 1) / 2, q);
    }
    forall i: nat | i < n
      ensures x[i] == y[i]
    {
      assert CellOk(s, was, lo, n, (n + 1) / 2, lo + i);
    }
  }

  // The reversing loops: n cells of a from alo on and of b from blo on.
  method ReverseBoth(a: array<nat>, alo: nat, b: array<nat>, blo: nat, n: nat)
    requires a != b && alo + n <= a.Length && blo + n <= b.Length
    modifies a, b
    ensures a[alo..alo + n] == Rev(old(a[alo..alo + n])) && a[..alo] == old(a[..alo])
    ensures b[blo..blo + n] == Rev(old(b[blo..blo + n])) && b[..blo] == old(b[..blo])
  {
    hide Rev, HalfReversed;
    ghost var a0, b0 := a[..], b[..];
    StartHalf(a0, alo, n);
    StartHalf(b0, blo, n);
    for k := 0 to (n + 1) / 2
      invariant HalfReversed(a[..], a0, alo, n, k) && HalfReversed(b[..], b0, blo, n, k)
    {
      HalfStep(a[..], a0, alo, n, k);
      HalfStep(b[..], b0, blo, n, k);
      if n - k != k + 1 {
        SwapXor(a, alo + k, alo + n - 1 - k);
        SwapXor(b, blo + k, blo + n - 1 - k);
      }
    }
    HalfAll(a[..], a0, alo, n);
    HalfAll(b[..], b0, blo, n);
    assert a[..][alo..alo + n] == a[alo..alo + n] && a[..][..alo] == a[..alo];
    assert b[..][blo..blo + n] == b[blo..blo + n] && b[..][..blo] == b[..blo];
    assert a0[alo..alo + n] == old(a[alo..alo + n]) && a0[..alo] == old(a[..alo]);
    assert b0[blo..blo + n] == old(b[blo..blo + n]) && b0[..blo] == old(b[..blo]);
  }

  lemma StartHalf(s: seq<nat>, lo: nat, n: nat)
    requires lo + n <= |s|
    ensures HalfReversed(s, s, lo, n, 0)
  {}

  // ---- The best path ----

  // Match nodes point to earlier ones and their words get longer.
  ghost predicate MatchesOk(dmis: seq<Dmi>) {
    forall d: nat :: d < |dmis| ==> MatchOk(dmis, d)
  }

  ghost predicate MatchOk(dmis: seq<Dmi>, d: nat) {
    && d < |dmis| && -1 <= dmis[d].from < d && dmis[d].len > 0
    && (dmis[d].from >= 0 ==> dmis[dmis[d].from].len < dmis[d].len)
  }

  // Node i is a word ending at its row: its match covers the rows from the node before.
  ghost predicate WordOk(lat: Lat, i: nat) {
    && 0 < i < |lat.nodes|
    && var n := lat.nodes[i];
       && n.from < i && 0 <= n.dmiFr < |lat.dmis|
       && lat.nodes[n.from].step + lat.dmis[n.dmiFr].len == n.step
  }

  ghost predicate WordsOk(lat: Lat) {
    && |lat.nodes| > 0 && lat.nodes[0].step == 0 && MatchesOk(lat.dmis)
    && forall i: nat :: 0 < i < |lat.nodes| ==> WordOk(lat, i)
  }

  // The spelling ids of match node d, first to last.
  ghost function SplIds(dmis: seq<Dmi>, d: int): (s: seq<nat>)
    requires MatchesOk(dmis) && d < |dmis|
    ensures d >= 0 ==> |s| > 0
    decreases d
  {
    if d < 0 then [] else
      assert MatchOk(dmis, d);
      SplIds(dmis, dmis[d].from) + [dmis[d].splId]
  }

  // Where the spellings of match node d end when its word starts at `base`.
  ghost function SplEnds(dmis: seq<Dmi>, d: int, base: nat): (s: seq<nat>)
    requires MatchesOk(dmis) && d < |dmis|
    ensures d >= 0 ==> |s| > 0 && s[|s| - 1] == base + dmis[d].len
    ensures |s| == |SplIds(dmis, d)|
    decreases d
  {
    if d < 0 then [] else
      assert MatchOk(dmis, d);
      SplEnds(dmis, dmis[d].from, base) + [base + dmis[d].len]
  }

  // A list of nodes other than the root.
  ghost predicate OnLat(lat: Lat, p: seq<nat>) {
    forall i :: 0 <= i < |p| ==> 0 < p[i] < |lat.nodes|
  }

  // The words of the best path to node nd that end behind position `stop`, first to last.
  ghost function Path(lat: Lat, nd: nat, stop: nat): (p: seq<nat>)
    requires WordsOk(lat) && nd < |lat.nodes|
    ensures OnLat(lat, p)
  {
    if nd == 0 || lat.nodes[nd].step <= stop then []
    else
      assert WordOk(lat, nd);
      Path(lat, lat.nodes[nd].from, stop) + [nd]
  }

  // Spelling ids, spelling ends and lemma ids along a path.
  ghost function PathSplIds(lat: Lat, p: seq<nat>): (s: seq<nat>)
    requires WordsOk(lat) && OnLat(lat, p)
    ensures |s| >= |p|
  {
    if p == [] then []
    else
      assert WordOk(lat, p[|p| - 1]);
      PathSplIds(lat, p[..|p| - 1]) + SplIds(lat.dmis, lat.nodes[p[|p| - 1]].dmiFr)
  }

  ghost function PathSplEnds(lat: Lat, p: seq<nat>): (s: seq<nat>)
    requires WordsOk(lat) && OnLat(lat, p)
    ensures |s| == |PathSplIds(lat, p)|
  {
    if p == [] then []
    else
      var n := lat.nodes[p[|p| - 1]];
      assert WordOk(lat, p[|p| - 1]);
      PathSplEnds(lat, p[..|p| - 1]) + SplEnds(lat.dmis, n.dmiFr, lat.nodes[n.from].step)
  }

  ghost function PathLmaIds(lat: Lat, p: seq<nat>): (s: seq<nat>)
    requires WordsOk(lat) && OnLat(lat, p)
    ensures |s| == |p|
  {
    seq<nat>(|p|, i requires 0 <= i < |p| => lat.nodes[p[i]].id)
  }

  // The walk stops exactly at `stop`.
  ghost predicate Through(lat: Lat, nd: nat, stop: nat)
    requires WordsOk(lat) && nd < |lat.nodes|
  {
    if lat.nodes[nd].step <= stop then lat.nodes[nd].step == stop
    else
      assert nd != 0;
      assert WordOk(lat, nd);
      Through(lat, lat.nodes[nd].from, stop)
  }

  // The spelling ends along the path are strictly increasing from `stop` and reach
  // the node's row: they tile the decoded string.
  ghost predicate Tiles(s: seq<nat>, from: nat, to: nat) {
    && (forall i :: 0 <= i < |s| ==> from < s[i])
    && (forall i, j :: 0 <= i < j < |s| ==> s[i] < s[j])
    && (if s == [] then from == to else s[|s| - 1] == to)
  }

  lemma {:induction false} EndsTile(dmis: seq<Dmi>, d: int, base: nat)
    requires MatchesOk(dmis) && 0 <= d < |dmis|
    ensures Tiles(SplEnds(dmis, d, base), base, base + dmis[d].len)
    decreases d
  {
    assert MatchOk(dmis, d);
    if dmis[d].from >= 0 {
      EndsTile(dmis, dmis[d].from, base);
    }
  }

  lemma TilesConcat(a: seq<nat>, b: seq<nat>, x: nat, y: nat, z: nat)
    requires Tiles(a, x, y) && Tiles(b, y, z)
    ensures Tiles(a + b, x, z)
  {}

  lemma {:induction false} PathTiles(lat: Lat, nd: nat, stop: nat)
    requires WordsOk(lat) && nd < |lat.nodes| && Through(lat, nd, stop)
    ensures Tiles(PathSplEnds(lat, Path(lat, nd, stop)), stop, lat.nodes[nd].step)
  {
    if nd != 0 && lat.nodes[nd].step > stop {
      var n := lat.nodes[nd];
      assert WordOk(lat, nd);
      PathTiles(lat, n.from, stop);
      EndsTile(lat.dmis, n.dmiFr, lat.nodes[n.from].step);
      var p := Path(lat, n.from, stop);
      assert (p + [nd])[..|p|] == p;
      TilesConcat(PathSplEnds(lat, p), SplEnds(lat.dmis, n.dmiFr, lat.nodes[n.from].step), stop,
                  lat.nodes[n.from].step, n.step);
    }
  }

  // ---- The walk ----

  // A strictly increasing list in a range is no longer than the range.
  lemma {:induction false} TilesFew(s: seq<nat>, from: nat, to: nat)
    requires Tiles(s, from, to)
    ensures from + |s| <= to
  {
    if |s| > 0 {
      var p := s[..|s| - 1];
      TilesFew(p, from, if p == [] then from else p[|p| - 1]);
      assert |p| > 0 ==> p[|p| - 1] < s[|s| - 1];
    }
  }

  // The inner loop: the matches of one word, last to first.
  method WalkMatch(dmis: seq<Dmi>, dmiFr: nat, step: nat, splStart: array<nat>, splId: array<nat>, num0: nat)
    returns (num: nat)
    requires MatchesOk(dmis) && dmiFr < |dmis| && dmis[dmiFr].len <= step && splStart != splId
    requires num0 + |SplIds(dmis, dmiFr)| < splStart.Length && num0 + |SplIds(dmis, dmiFr)| <= splId.Length
    modifies splStart, splId
    ensures num == num0 + |SplIds(dmis, dmiFr)|
    ensures splId[..num] == old(splId[..num0]) + Rev(SplIds(dmis, dmiFr))
    ensures splStart[..num + 1] == old(splStart[..num0 + 1]) + Rev(SplEnds(dmis, dmiFr, step - dmis[dmiFr].len))
  {
    hide *;
    MatchLens(dmis, dmiFr);
    var wordLen := dmis[dmiFr].len;
    ghost var base: nat, ids, starts := step - wordLen, splId[..num0], splStart[..num0 + 1];
    var d: int := dmiFr;
    num := num0;
    UnwindStart(dmis, dmiFr, base, ids, starts);
    while d != -1
      invariant -1 <= d < |dmis| && num0 <= num && num + |SplIds(dmis, d)| == num0 + |SplIds(dmis, dmiFr)|
      invariant Unwound(dmis, dmiFr, d, base, ids, splId[..num], starts, splStart[..num + 1])
      decreases d
    {
      MatchLens(dmis, d);
      UnwindStep(dmis, dmiFr, d, base, ids, splId[..num], starts, splStart[..num + 1]);
      ghost var ids1, starts1 := splId[..num], splStart[..num + 1];
      splStart[num + 1] := step - (wordLen - dmis[d].len);
      splId[num] := dmis[d].splId;
      num := num + 1;
      assert splId[..num] == ids1 + [dmis[d].splId] && splStart[..num + 1] == starts1 + [base + dmis[d].len];
      d := dmis[d].from;
    }
    UnwindEnd(dmis, dmiFr, base, ids, splId[..num], starts, splStart[..num + 1]);
  }

  lemma MatchLens(dmis: seq<Dmi>, d: nat)
    requires MatchesOk(dmis) && d < |dmis|
    ensures -1 <= dmis[d].from < d && |SplIds(dmis, d)| == |SplIds(dmis, dmis[d].from)| + 1
  {
    assert MatchOk(dmis, d);
  }

  // What is written and what is still to come, matches d and before, make up the reversed word.
  ghost predicate Unwound(dmis: seq<Dmi>, dmiFr: nat, d: int, base: nat, ids0: seq<nat>, ids: seq<nat>,
                          starts0: seq<nat>, starts: seq<nat>) {
    && MatchesOk(dmis) && dmiFr < |dmis| && -1 <= d < |dmis|
    && ids + Rev(SplIds(dmis, d)) == ids0 + Rev(SplIds(dmis, dmiFr))
    && starts + Rev(SplEnds(dmis, d, base)) == starts0 + Rev(SplEnds(dmis, dmiFr, base))
    && (d >= 0 ==> dmis[d].len <= dmis[dmiFr].len)
  }

  lemma UnwindStart(dmis: seq<Dmi>, dmiFr: nat, base: nat, ids: seq<nat>, starts: seq<nat>)
    requires MatchesOk(dmis) && dmiFr < |dmis|
    ensures Unwound(dmis, dmiFr, dmiFr, base, ids, ids, starts, starts)
  {
    hide MatchesOk, Rev, SplIds, SplEnds;
  }

  lemma UnwindStep(dmis: seq<Dmi>, dmiFr: nat, d: nat, base: nat, ids0: seq<nat>, ids: seq<nat>, starts0: seq<nat>,
                   starts: seq<nat>)
    requires Unwound(dmis, dmiFr, d, base, ids0, ids, starts0, starts)
    ensures d < |dmis| && dmiFr < |dmis| && dmis[d].len <= dmis[dmiFr].len
    ensures Unwound(dmis, dmiFr, dmis[d].from, base, ids0, ids + [dmis[d].splId], starts0,
              starts + [base + dmis[d].len])
  {
    hide *;
    UnwoundParts(dmis, dmiFr, d, base, ids0, ids, starts0, starts);
    LastSpelling(dmis, d, base);
    var f, x, e := dmis[d].from, dmis[d].splId, base + dmis[d].len;
    RevSnoc(SplIds(dmis, f), x);
    RevSnoc(SplEnds(dmis, f, base), e);
    Assoc(ids, [x], Rev(SplIds(dmis, f)));
    Assoc(starts, [e], Rev(SplEnds(dmis, f, base)));
    IsUnwound(dmis, dmiFr, f, base, ids0, ids + [x], starts0, starts + [e]);
  }

  lemma UnwoundParts(dmis: seq<Dmi>, dmiFr: nat, d: int, base: nat, ids0: seq<nat>, ids: seq<nat>, starts0: seq<nat>,
                     starts: seq<nat>)
    requires Unwound(dmis, dmiFr, d, base, ids0, ids, starts0, starts)
    ensures MatchesOk(dmis) && dmiFr < |dmis| && -1 <= d < |dmis|
    ensures ids + Rev(SplIds(dmis, d)) == ids0 + Rev(SplIds(dmis, dmiFr))
    ensures starts + Rev(SplEnds(dmis, d, base)) == starts0 + Rev(SplEnds(dmis, dmiFr, base))
    ensures d >= 0 ==> dmis[d].len <= dmis[dmiFr].len
  {
    hide MatchesOk, Rev, SplIds, SplEnds;
  }

  lemma IsUnwound(dmis: seq<Dmi>, dmiFr: nat, d: int, base: nat, ids0: seq<nat>, ids: seq<nat>, starts0: seq<nat>,
                  starts: seq<nat>)
    requires MatchesOk(dmis) && dmiFr < |dmis| && -1 <= d < |dmis|
    requires ids + Rev(SplIds(dmis, d)) == ids0 + Rev(SplIds(dmis, dmiFr))
    requires starts + Rev(SplEnds(dmis, d, base)) == starts0 + Rev(SplEnds(dmis, dmiFr, base))
    requires d >= 0 ==> dmis[d].len <= dmis[dmiFr].len
    ensures Unwound(dmis, dmiFr, d, base, ids0, ids, starts0, starts)
  {
    hide MatchesOk, Rev, SplIds, SplEnds;
  }

  lemma LastSpelling(dmis: seq<Dmi>, d: nat, base: nat)
    requires MatchesOk(dmis) && d < |dmis|
    ensures -1 <= dmis[d].from < d && (dmis[d].from >= 0 ==> dmis[dmis[d].from].len < dmis[d].len)
    ensures SplIds(dmis, d) == SplIds(dmis, dmis[d].from) + [dmis[d].splId]
    ensures SplEnds(dmis, d, base) == SplEnds(dmis, dmis[d].from, base) + [base + dmis[d].len]
  {
    assert MatchOk(dmis, d);
  }

  lemma UnwindEnd(dmis: seq<Dmi>, dmiFr: nat, base: nat, ids0: seq<nat>, ids: seq<nat>, starts0: seq<nat>,
                  starts: seq<nat>)
    requires Unwound(dmis, dmiFr, -1, base, ids0, ids, starts0, starts)
    ensures ids == ids0 + Rev(SplIds(dmis, dmiFr)) && starts == starts0 + Rev(SplEnds(dmis, dmiFr, base))
    ensures |SplIds(dmis, -1)| == 0
  {
    assert SplIds(dmis, -1) == [] && SplEnds(dmis, -1, base) == [];
    hide SplIds, SplEnds, MatchesOk;
    assert ids + [] == ids && starts + [] == starts;
  }

  lemma RevEmpty()
    ensures Rev([]) == [] && forall s: seq<nat> :: s + Rev([]) == s
  {
    assert forall s: seq<nat> :: s + [] == s;
  }

  lemma RevSnoc(s: seq<nat>, x: nat)
    ensures Rev(s + [x]) == [x] + Rev(s)
  {}

  // How many spellings the last words of a path have, counted from `base`: entry j for
  // the last j + 1 words.
  ghost function BackCounts(lat: Lat, p: seq<nat>, base: nat): (s: seq<nat>)
    requires WordsOk(lat) && OnLat(lat, p)
    ensures |s| == |p|
  {
    seq<nat>(|p|, j requires 0 <= j < |p| => base + |PathSplIds(lat, p[|p| - 1 - j..])|)
  }

  // And the first words: entry j for the first j + 1 words.
  ghost function Counts(lat: Lat, p: seq<nat>, base: nat): (s: seq<nat>)
    requires WordsOk(lat) && OnLat(lat, p)
    ensures |s| == |p|
  {
    seq<nat>(|p|, j requires 0 <= j < |p| => base + |PathSplIds(lat, p[..j + 1])|)
  }

  lemma CountsSnoc(lat: Lat, a: seq<nat>, x: nat)
    requires WordsOk(lat) && OnLat(lat, a) && 0 < x < |lat.nodes|
    ensures OnLat(lat, a + [x]) && Counts(lat, a + [x], 0) == Counts(lat, a, 0) + [|PathSplIds(lat, a + [x])|]
  {
    hide WordsOk, PathSplIds;
    var p := a + [x];
    forall j: nat | j < |p|
      ensures Counts(lat, p, 0)[j] == (Counts(lat, a, 0) + [|PathSplIds(lat, p)|])[j]
    {
      if j < |a| {
        assert a[..j + 1] == p[..j + 1];
      } else {
        assert p[..j + 1] == p;
      }
    }
  }

  lemma NewCount(lat: Lat, a: seq<nat>, x: nat)
    requires WordsOk(lat) && OnLat(lat, a) && 0 < x < |lat.nodes|
    ensures OnLat(lat, a + [x]) && |PathSplIds(lat, a)| < |PathSplIds(lat, a + [x])|
  {
    PathSnoc(lat, a, x);
  }

  // The counts strictly increase from 0 to the number of spellings.
  lemma {:induction false} CountsTile(lat: Lat, p: seq<nat>)
    requires WordsOk(lat) && OnLat(lat, p)
    ensures Tiles(Counts(lat, p, 0), 0, |PathSplIds(lat, p)|)
  {
    if p == [] {
      NoCounts(lat);
    } else {
      var a, x := p[..|p| - 1], p[|p| - 1];
      assert p == a + [x];
      CountsTile(lat, a);
      CountsSnoc(lat, a, x);
      NewCount(lat, a, x);
      hide WordsOk, PathSplIds, Counts;
      TilesConcat(Counts(lat, a, 0), [|PathSplIds(lat, p)|], 0, |PathSplIds(lat, a)|, |PathSplIds(lat, p)|);
    }
  }

  lemma NoCounts(lat: Lat)
    requires WordsOk(lat)
    ensures OnLat(lat, []) && Counts(lat, [], 0) == [] && PathSplIds(lat, []) == []
  {}

  lemma PathSnoc(lat: Lat, a: seq<nat>, x: nat)
    requires WordsOk(lat) && OnLat(lat, a) && 0 < x < |lat.nodes|
    ensures OnLat(lat, a + [x]) && WordOk(lat, x)
    ensures PathSplIds(lat, a + [x]) == PathSplIds(lat, a) + SplIds(lat.dmis, lat.nodes[x].dmiFr)
    ensures PathSplEnds(lat, a + [x]) ==
            PathSplEnds(lat, a) + SplEnds(lat.dmis, lat.nodes[x].dmiFr, lat.nodes[lat.nodes[x].from].step)
  {
    assert WordOk(lat, x);
    assert (a + [x])[..|a|] == a;
    hide WordsOk, SplIds, SplEnds, WordOk;
  }

  lemma {:induction false} PathConcat(lat: Lat, a: seq<nat>, b: seq<nat>)
    requires WordsOk(lat) && OnLat(lat, a) && OnLat(lat, b)
    ensures OnLat(lat, a + b)
    ensures PathSplIds(lat, a + b) == PathSplIds(lat, a) + PathSplIds(lat, b)
    ensures PathSplEnds(lat, a + b) == PathSplEnds(lat, a) + PathSplEnds(lat, b)
    decreases |b|
  {
    if b == [] {
      assert a + b == a;
    } else {
      var c, x := b[..|b| - 1], b[|b| - 1];
      assert b == c + [x] && a + b == (a + c) + [x];
      assert OnLat(lat, c);
      PathConcat(lat, a, c);
      PathSnoc(lat, c, x);
      PathSnoc(lat, a + c, x);
      hide *;
      var n := lat.nodes[x];
      Assoc(PathSplIds(lat, a), PathSplIds(lat, c), SplIds(lat.dmis, n.dmiFr));
      Assoc(PathSplEnds(lat, a), PathSplEnds(lat, c), SplEnds(lat.dmis, n.dmiFr, lat.nodes[n.from].step));
    }
  }

  lemma Assoc(a: seq<nat>, b: seq<nat>, c: seq<nat>)
    ensures (a + b) + c == a + (b + c)
  {}

  lemma PathCons(lat: Lat, x: nat, b: seq<nat>)
    requires WordsOk(lat) && 0 < x < |lat.nodes| && OnLat(lat, b)
    ensures OnLat(lat, [x] + b) && WordOk(lat, x)
    ensures PathSplIds(lat, [x] + b) == SplIds(lat.dmis, lat.nodes[x].dmiFr) + PathSplIds(lat, b)
    ensures PathSplEnds(lat, [x] + b) ==
            SplEnds(lat.dmis, lat.nodes[x].dmiFr, lat.nodes[lat.nodes[x].from].step) + PathSplEnds(lat, b)
  {
    assert WordOk(lat, x);
    PathConcat(lat, [x], b);
    assert [x][..0] == [];
  }

  lemma SuffixCons(x: nat, b: seq<nat>, j: nat)
    requires j <= |b|
    ensures ([x] + b)[|b| - j..] == if j < |b| then b[|b| - 1 - j..] else [x] + b
  {}

  lemma BackCountsCons(lat: Lat, x: nat, b: seq<nat>, base: nat)
    requires WordsOk(lat) && 0 < x < |lat.nodes| && OnLat(lat, b)
    ensures OnLat(lat, [x] + b)
    ensures BackCounts(lat, [x] + b, base) == BackCounts(lat, b, base) + [base + |PathSplIds(lat, [x] + b)|]
  {
    assert OnLat(lat, [x] + b);
    hide WordsOk, PathSplIds;
    var l, r := BackCounts(lat, [x] + b, base), BackCounts(lat, b, base) + [base + |PathSplIds(lat, [x] + b)|];
    forall j: nat | j <= |b|
      ensures l[j] == r[j]
    {
      SuffixCons(x, b, j);
    }
  }

  lemma PathLmaIdsCons(lat: Lat, x: nat, b: seq<nat>)
    requires WordsOk(lat) && 0 < x < |lat.nodes| && OnLat(lat, b)
    ensures OnLat(lat, [x] + b) && PathLmaIds(lat, [x] + b) == [lat.nodes[x].id] + PathLmaIds(lat, b)
  {}

  // The filled parts of the segmentation arrays.
  datatype Seg = Seg(splStart: seq<nat>, splId: seq<nat>, lmaStart: seq<nat>, lmaId: seq<nat>)

  ghost predicate Filled(splStart: array<nat>, splId: array<nat>, lmaStart: array<nat>, lmaId: array<nat>, g: Seg)
    reads splStart, splId, lmaStart, lmaId
  {
    && |g.splStart| == |g.splId| + 1 <= splStart.Length && |g.splId| <= splId.Length
    && |g.lmaStart| == |g.lmaId| + 1 <= lmaStart.Length && |g.lmaId| <= lmaId.Length
    && splStart[..|g.splStart|] == g.splStart && splId[..|g.splId|] == g.splId
    && lmaStart[..|g.lmaStart|] == g.lmaStart && lmaId[..|g.lmaId|] == g.lmaId
  }

  // g is g0 with a path walked backwards behind it.
  ghost predicate Walked(lat: Lat, p: seq<nat>, fixedHzs: nat, g: Seg, g0: Seg)
    requires WordsOk(lat) && OnLat(lat, p)
  {
    && g.splId == g0.splId + Rev(PathSplIds(lat, p)) && g.splStart == g0.splStart + Rev(PathSplEnds(lat, p))
    && g.lmaId == g0.lmaId + Rev(PathLmaIds(lat, p)) && g.lmaStart == g0.lmaStart + BackCounts(lat, p, fixedHzs)
  }

  // g with the word of node x behind it.
  ghost function WithWord(lat: Lat, g: Seg, x: nat, count: nat): Seg
    requires WordsOk(lat) && 0 < x < |lat.nodes| && WordOk(lat, x)
  {
    var n := lat.nodes[x];
    Seg(g.splStart + Rev(SplEnds(lat.dmis, n.dmiFr, lat.nodes[n.from].step)), g.splId + Rev(SplIds(lat.dmis, n.dmiFr)),
        g.lmaStart + [count], g.lmaId + [n.id])
  }

  lemma WalkedNext(lat: Lat, x: nat, p: seq<nat>, fixedHzs: nat, g: Seg, g0: Seg)
    requires WordsOk(lat) && OnLat(lat, p) && 0 < x < |lat.nodes| && Walked(lat, p, fixedHzs, g, g0)
    ensures OnLat(lat, [x] + p) && WordOk(lat, x)
    ensures Walked(lat, [x] + p, fixedHzs, WithWord(lat, g, x, fixedHzs + |PathSplIds(lat, [x] + p)|), g0)
    ensures |PathSplIds(lat, [x] + p)| == |PathSplIds(lat, p)| + |SplIds(lat.dmis, lat.nodes[x].dmiFr)|
  {
    PathCons(lat, x, p);
    BackCountsCons(lat, x, p, fixedHzs);
    PathLmaIdsCons(lat, x, p);
    var n := lat.nodes[x];
    RevConcat(SplIds(lat.dmis, n.dmiFr), PathSplIds(lat, p));
    RevConcat(SplEnds(lat.dmis, n.dmiFr, lat.nodes[n.from].step), PathSplEnds(lat, p));
    RevConcat([n.id], PathLmaIds(lat, p));
    assert Rev([n.id]) == [n.id];
    hide Rev, PathSplIds, PathSplEnds, PathLmaIds, BackCounts, SplIds, SplEnds, WordsOk, OnLat;
  }

  // The first node walked has been put in front of the path.
  lemma PathStep(lat: Lat, nd: nat, stop: nat)
    requires WordsOk(lat) && 0 < nd < |lat.nodes| && lat.nodes[nd].step > stop
    ensures WordOk(lat, nd) && lat.nodes[nd].from < nd && 0 <= lat.nodes[nd].dmiFr < |lat.dmis|
    ensures lat.nodes[lat.nodes[nd].from].step + lat.dmis[lat.nodes[nd].dmiFr].len == lat.nodes[nd].step > 0
    ensures MatchesOk(lat.dmis) && Path(lat, nd, stop) == Path(lat, lat.nodes[nd].from, stop) + [nd]
  {
    assert WordOk(lat, nd);
  }

  lemma PathEnd(lat: Lat, nd: nat, stop: nat)
    requires WordsOk(lat) && nd < |lat.nodes|
    ensures nd == 0 || lat.nodes[nd].step <= stop ==> Path(lat, nd, stop) == []
    ensures nd > 0 ==> lat.nodes[nd].step > 0
  {
    if nd > 0 {
      assert WordOk(lat, nd) && MatchOk(lat.dmis, lat.nodes[nd].dmiFr);
    }
  }

  lemma WalkedStart(lat: Lat, fixedHzs: nat, g: Seg)
    requires WordsOk(lat)
    ensures OnLat(lat, []) && PathSplIds(lat, []) == [] && Walked(lat, [], fixedHzs, g, g)
  {
    RevEmpty();
  }

  // A path split before node x: the part from x on is no longer than the whole.
  lemma WalkRoom(lat: Lat, before: seq<nat>, x: nat, p: seq<nat>, whole: seq<nat>)
    requires WordsOk(lat) && OnLat(lat, whole) && whole == (before + [x]) + p
    ensures before + ([x] + p) == whole && OnLat(lat, [x] + p) && OnLat(lat, p) && 0 < x < |lat.nodes|
    ensures |PathSplIds(lat, [x] + p)| <= |PathSplIds(lat, whole)|
  {
    Assoc(before, [x], p);
    OnLatSplit(lat, before, [x] + p);
    OnLatSplit(lat, [x], p);
    assert [x][0] == x;
    PathConcat(lat, before, [x] + p);
    hide *;
  }

  lemma OnLatSplit(lat: Lat, a: seq<nat>, b: seq<nat>)
    requires OnLat(lat, a + b)
    ensures OnLat(lat, a) && OnLat(lat, b)
  {
    assert forall i :: 0 <= i < |a| ==> (a + b)[i] == a[i];
    forall i | 0 <= i < |b|
      ensures 0 < b[i] < |lat.nodes|
    {
      assert (a + b)[|a| + i] == b[i];
    }
  }

  // The path before node nd, and nd in front of the words walked.
  lemma StepBack(lat: Lat, nd: nat, stop: nat, p: seq<nat>, p0: seq<nat>)
    requires WordsOk(lat) && 0 < nd < |lat.nodes| && lat.nodes[nd].step > stop && OnLat(lat, p0)
    requires Path(lat, nd, stop) + p == p0
    ensures lat.nodes[nd].from < nd && OnLat(lat, [nd] + p) && Path(lat, lat.nodes[nd].from, stop) + ([nd] + p) == p0
    ensures |PathSplIds(lat, [nd] + p)| <= |PathSplIds(lat, p0)| && |p| < |p0|
  {
    hide *;
    PathStep(lat, nd, stop);
    WalkRoom(lat, Path(lat, lat.nodes[nd].from, stop), nd, p, p0);
  }

  // One word: its matches, then its place among the lemmas.
  method WalkWord(lat: Lat, nd: nat, splStart: array<nat>, splId: array<nat>, lmaStart: array<nat>, lmaId: array<nat>,
                  splNum0: nat, lmaNum0: nat, ghost g: Seg)
    returns (splNum: nat, lmaNum: nat, ghost g': Seg)
    requires WordsOk(lat) && 0 < nd < |lat.nodes| && WordOk(lat, nd) && Filled(splStart, splId, lmaStart, lmaId, g)
    requires splNum0 == |g.splId| && splNum0 + |SplIds(lat.dmis, lat.nodes[nd].dmiFr)| < splStart.Length <= splId.Length
    requires lmaNum0 == |g.lmaId| && lmaNum0 + 1 < lmaStart.Length <= lmaId.Length
    requires splStart != splId && splStart != lmaStart && splStart != lmaId && splId != lmaStart && splId != lmaId
    requires lmaStart != lmaId
    modifies splStart, splId, lmaStart, lmaId
    ensures splNum == splNum0 + |SplIds(lat.dmis, lat.nodes[nd].dmiFr)| && lmaNum == lmaNum0 + 1
    ensures g' == WithWord(lat, g, nd, splNum) && Filled(splStart, splId, lmaStart, lmaId, g')
    ensures splNum == |g'.splId| && lmaNum == |g'.lmaId|
  {
    WordFacts(lat, nd);
    hide Rev, SplIds, SplEnds, WordsOk, MatchesOk, WordOk;
    var n := lat.nodes[nd];
    ghost var lstarts, lids := lmaStart[..lmaNum0 + 1], lmaId[..lmaNum0];
    splNum := WalkMatch(lat.dmis, n.dmiFr, n.step, splStart, splId, splNum0);
    lmaStart[lmaNum0 + 1] := splNum;
    lmaId[lmaNum0] := n.id;
    lmaNum := lmaNum0 + 1;
    assert lmaStart[..lmaNum + 1] == lstarts + [splNum] && lmaId[..lmaNum] == lids + [n.id];
    g' := WithWord(lat, g, nd, splNum);
  }

  lemma WordFacts(lat: Lat, nd: nat)
    requires WordsOk(lat) && 0 < nd < |lat.nodes|
    ensures lat.nodes[nd].from < nd && 0 <= lat.nodes[nd].dmiFr < |lat.dmis| && MatchesOk(lat.dmis)
    ensures lat.nodes[lat.nodes[nd].from].step + lat.dmis[lat.nodes[nd].dmiFr].len == lat.nodes[nd].step
  {
    assert WordOk(lat, nd);
  }

  // Where the walk stands: nd is next, p has been walked.
  ghost predicate Walking(lat: Lat, nd: nat, stop: nat, p: seq<nat>, p0: seq<nat>, fixedHzs: nat, g: Seg, g0: Seg) {
    && WordsOk(lat) && nd < |lat.nodes| && OnLat(lat, p) && OnLat(lat, p0) && Path(lat, nd, stop) + p == p0
    && |g0.splId| == fixedHzs && |g0.splStart| == fixedHzs + 1 && |g0.lmaStart| == |g0.lmaId| + 1
    && g0.splStart[fixedHzs] == stop && (fixedHzs == 0 ==> stop == 0) && Walked(lat, p, fixedHzs, g, g0)
  }

  lemma StartWalking(lat: Lat, nd: nat, stop: nat, fixedHzs: nat, g: Seg)
    requires WordsOk(lat) && nd < |lat.nodes| && |g.splId| == fixedHzs && |g.splStart| == fixedHzs + 1
    requires |g.lmaStart| == |g.lmaId| + 1
    requires g.splStart[fixedHzs] == stop && (fixedHzs == 0 ==> stop == 0)
    ensures Walking(lat, nd, stop, [], Path(lat, nd, stop), fixedHzs, g, g)
  {
    WalkedStart(lat, fixedHzs, g);
    assert Path(lat, nd, stop) + [] == Path(lat, nd, stop);
    hide *;
  }

  // Before walking word nd.
  lemma WalkingFacts(lat: Lat, nd: nat, stop: nat, p: seq<nat>, p0: seq<nat>, fixedHzs: nat, g: Seg, g0: Seg)
    requires Walking(lat, nd, stop, p, p0, fixedHzs, g, g0)
    ensures WordsOk(lat) && nd < |lat.nodes| && fixedHzs < |g.splStart| && g.splStart[fixedHzs] == stop
    ensures nd == 0 || lat.nodes[nd].step <= stop ==> p == p0
    ensures nd > 0 && fixedHzs == 0 ==> lat.nodes[nd].step > stop
    ensures OnLat(lat, p) && OnLat(lat, p0) && Walked(lat, p, fixedHzs, g, g0)
    ensures |g.splId| == fixedHzs + |PathSplIds(lat, p)| && |g.lmaId| == |g0.lmaId| + |p|
    ensures |g.splStart| == |g.splId| + 1 && |g.lmaStart| == |g.lmaId| + 1
    ensures nd > 0 && lat.nodes[nd].step > stop ==>
              && WordOk(lat, nd) && lat.nodes[nd].from < nd && |g.lmaId| < |g0.lmaId| + |p0|
              && |g.splId| + |SplIds(lat.dmis, lat.nodes[nd].dmiFr)| <= fixedHzs + |PathSplIds(lat, p0)|
  {
    PathEnd(lat, nd, stop);
    assert [] + p == p;
    if nd > 0 && lat.nodes[nd].step > stop {
      StepBack(lat, nd, stop, p, p0);
      WalkedNext(lat, nd, p, fixedHzs, g, g0);
    }
    hide Path, PathSplIds, PathSplEnds, PathLmaIds, BackCounts, SplIds, SplEnds, WordsOk, WordOk, OnLat, Rev;
  }

  lemma WalkOn(lat: Lat, nd: nat, stop: nat, p: seq<nat>, p0: seq<nat>, fixedHzs: nat, g: Seg, g0: Seg, count: nat)
    requires Walking(lat, nd, stop, p, p0, fixedHzs, g, g0) && nd > 0 && lat.nodes[nd].step > stop && WordOk(lat, nd)
    requires count == |g.splId| + |SplIds(lat.dmis, lat.nodes[nd].dmiFr)|
    ensures Walking(lat, lat.nodes[nd].from, stop, [nd] + p, p0, fixedHzs, WithWord(lat, g, nd, count), g0)
  {
    hide *;
    WalkingFacts(lat, nd, stop, p, p0, fixedHzs, g, g0);
    WalkingRest(lat, nd, stop, p, p0, fixedHzs, g, g0);
    StepBack(lat, nd, stop, p, p0);
    WalkedNext(lat, nd, p, fixedHzs, g, g0);
    IsWalking(lat, lat.nodes[nd].from, stop, [nd] + p, p0, fixedHzs, WithWord(lat, g, nd, count), g0);
  }

  lemma WalkingRest(lat: Lat, nd: nat, stop: nat, p: seq<nat>, p0: seq<nat>, fixedHzs: nat, g: Seg, g0: Seg)
    requires Walking(lat, nd, stop, p, p0, fixedHzs, g, g0)
    ensures WordsOk(lat) && nd < |lat.nodes| && Path(lat, nd, stop) + p == p0
    ensures |g0.splId| == fixedHzs && |g0.splStart| == fixedHzs + 1 && |g0.lmaStart| == |g0.lmaId| + 1
    ensures g0.splStart[fixedHzs] == stop && (fixedHzs == 0 ==> stop == 0)
  {
    hide WordsOk, OnLat, Walked, Path;
  }

  lemma IsWalking(lat: Lat, nd: nat, stop: nat, p: seq<nat>, p0: seq<nat>, fixedHzs: nat, g: Seg, g0: Seg)
    requires WordsOk(lat) && nd < |lat.nodes| && OnLat(lat, p) && OnLat(lat, p0) && Path(lat, nd, stop) + p == p0
    requires |g0.splId| == fixedHzs && |g0.splStart| == fixedHzs + 1 && |g0.lmaStart| == |g0.lmaId| + 1
    requires g0.splStart[fixedHzs] == stop && (fixedHzs == 0 ==> stop == 0) && Walked(lat, p, fixedHzs, g, g0)
    ensures Walking(lat, nd, stop, p, p0, fixedHzs, g, g0)
  {
    hide WordsOk, OnLat, Walked, Path;
  }

  // The outer loop over the words of the path, last to first.
  method WalkPath(lat: Lat, nd0: nat, fixedHzs: nat, fixedLmas: nat,
                  splStart: array<nat>, splId: array<nat>, lmaStart: array<nat>, lmaId: array<nat>, ghost g0: Seg)
    returns (splNum: nat, lmaNum: nat, ghost g: Seg)
    requires WordsOk(lat) && nd0 < |lat.nodes| && Filled(splStart, splId, lmaStart, lmaId, g0)
    requires |g0.splId| == fixedHzs && |g0.lmaId| == fixedLmas && |g0.splStart| == fixedHzs + 1
    requires (fixedHzs == 0 ==> g0.splStart[0] == 0)
    requires fixedHzs + |PathSplIds(lat, Path(lat, nd0, g0.splStart[fixedHzs]))| < splStart.Length <= splId.Length
    requires fixedLmas + |Path(lat, nd0, g0.splStart[fixedHzs])| < lmaStart.Length <= lmaId.Length
    requires splStart != splId && splStart != lmaStart && splStart != lmaId && splId != lmaStart && splId != lmaId
    requires lmaStart != lmaId
    modifies splStart, splId, lmaStart, lmaId
    ensures var p := Path(lat, nd0, g0.splStart[fixedHzs]);
            && splNum == fixedHzs + |PathSplIds(lat, p)| && lmaNum == fixedLmas + |p|
            && Filled(splStart, splId, lmaStart, lmaId, g) && Walked(lat, p, fixedHzs, g, g0)
  {
    ghost var stop, p0 := g0.splStart[fixedHzs], Path(lat, nd0, g0.splStart[fixedHzs]);
    ghost var p: seq<nat> := [];
    g := g0;
    FilledSizes(splStart, splId, lmaStart, lmaId, g0);
    StartWalking(lat, nd0, stop, fixedHzs, g0);
    hide *;
    splNum, lmaNum := fixedHzs, fixedLmas;
    var nd: nat := nd0;
    while nd != 0
      invariant Walking(lat, nd, stop, p, p0, fixedHzs, g, g0) && Filled(splStart, splId, lmaStart, lmaId, g)
      invariant splNum == |g.splId| && lmaNum == |g.lmaId|
      decreases nd
    {
      WalkingFacts(lat, nd, stop, p, p0, fixedHzs, g, g0);
      FilledStart(splStart, splId, lmaStart, lmaId, g, fixedHzs);
      if fixedHzs > 0 {
        if lat.nodes[nd].step <= splStart[fixedHzs] {
          break;
        }
      }
      ghost var before := g;
      splNum, lmaNum, g := WalkWord(lat, nd, splStart, splId, lmaStart, lmaId, splNum, lmaNum, g);
      WalkOn(lat, nd, stop, p, p0, fixedHzs, before, g0, splNum);
      p := [nd] + p;
      nd := lat.nodes[nd].from;
    }
    WalkingFacts(lat, nd, stop, p, p0, fixedHzs, g, g0);
  }

  lemma FilledSizes(splStart: array<nat>, splId: array<nat>, lmaStart: array<nat>, lmaId: array<nat>, g: Seg)
    requires Filled(splStart, splId, lmaStart, lmaId, g)
    ensures |g.splStart| == |g.splId| + 1 <= splStart.Length && |g.splId| <= splId.Length
    ensures |g.lmaStart| == |g.lmaId| + 1 <= lmaStart.Length && |g.lmaId| <= lmaId.Length
  {}

  lemma FilledStart(splStart: array<nat>, splId: array<nat>, lmaStart: array<nat>, lmaId: array<nat>, g: Seg, i: nat)
    requires Filled(splStart, splId, lmaStart, lmaId, g) && i < |g.splStart|
    ensures i < splStart.Length && splStart[i] == g.splStart[i]
  {}

  // ---- Reversing and summing up ----

  lemma SplitArray(a: array<nat>, x: seq<nat>, y: seq<nat>)
    requires |x| + |y| <= a.Length && a[..|x| + |y|] == x + y
    ensures a[..|x|] == x && a[|x|..|x| + |y|] == y
  {
    assert a[..|x|] == a[..|x| + |y|][..|x|];
    assert a[|x|..|x| + |y|] == a[..|x| + |y|][|x|..];
  }

  lemma JoinArray(a: array<nat>, x: seq<nat>, y: seq<nat>)
    requires |x| + |y| <= a.Length && a[..|x|] == x && a[|x|..|x| + |y|] == y
    ensures a[..|x| + |y|] == x + y
  {
    assert a[..|x| + |y|] == a[..|x|] + a[|x|..|x| + |y|];
  }

  lemma RevRev(s: seq<nat>)
    ensures Rev(Rev(s)) == s
  {}

  // Reversing the filled tails of two arrays.
  method ReverseTails(a: array<nat>, b: array<nat>, n: nat, alo: nat, blo: nat,
                      ghost x: seq<nat>, ghost y: seq<nat>, ghost u: seq<nat>, ghost v: seq<nat>)
    requires a != b && |x| == alo && |u| == blo && |y| == |v| == n && alo + n <= a.Length && blo + n <= b.Length
    requires a[..alo + n] == x + y && b[..blo + n] == u + v
    modifies a, b
    ensures a[..alo + n] == x + Rev(y) && b[..blo + n] == u + Rev(v)
  {
    SplitArray(a, x, y);
    SplitArray(b, u, v);
    ReverseBoth(a, alo, b, blo, n);
    JoinArray(a, x, Rev(y));
    JoinArray(b, u, Rev(v));
  }

  lemma SuffixStep(lat: Lat, p: seq<nat>, k: nat)
    requires WordsOk(lat) && OnLat(lat, p) && k < |p|
    ensures 0 < p[k] < |lat.nodes| && 0 <= lat.nodes[p[k]].dmiFr < |lat.dmis| && MatchesOk(lat.dmis)
    ensures OnLat(lat, p[k..]) && OnLat(lat, p[k + 1..])
    ensures |PathSplIds(lat, p[k..])| == |SplIds(lat.dmis, lat.nodes[p[k]].dmiFr)| + |PathSplIds(lat, p[k + 1..])|
  {
    WordFacts(lat, p[k]);
    assert p[k..] == [p[k]] + p[k + 1..];
    PathCons(lat, p[k], p[k + 1..]);
    hide PathSplIds, SplIds, WordsOk, WordOk, MatchesOk;
  }

  lemma PrefixStep(lat: Lat, p: seq<nat>, k: nat)
    requires WordsOk(lat) && OnLat(lat, p) && k < |p|
    ensures 0 < p[k] < |lat.nodes| && 0 <= lat.nodes[p[k]].dmiFr < |lat.dmis| && MatchesOk(lat.dmis)
    ensures OnLat(lat, p[..k]) && OnLat(lat, p[..k + 1])
    ensures |PathSplIds(lat, p[..k + 1])| == |PathSplIds(lat, p[..k])| + |SplIds(lat.dmis, lat.nodes[p[k]].dmiFr)|
  {
    WordFacts(lat, p[k]);
    assert p[..k + 1] == p[..k] + [p[k]];
    PathSnoc(lat, p[..k], p[k]);
    hide PathSplIds, SplIds, WordsOk, WordOk, MatchesOk;
  }

  lemma BackAt(lat: Lat, p: seq<nat>, base: nat, k: nat)
    requires WordsOk(lat) && OnLat(lat, p) && k < |p|
    ensures OnLat(lat, p[k..]) && Rev(BackCounts(lat, p, base))[k] == base + |PathSplIds(lat, p[k..])|
  {
    var j := |p| - 1 - k;
    assert |p| - 1 - j == k;
    hide PathSplIds, WordsOk;
  }

  lemma CountAt(lat: Lat, p: seq<nat>, base: nat, k: nat)
    requires WordsOk(lat) && OnLat(lat, p) && k < |p|
    ensures OnLat(lat, p[..k + 1]) && Counts(lat, p, base)[k] == base + |PathSplIds(lat, p[..k + 1])|
  {
    hide PathSplIds, WordsOk;
  }

  lemma NoWords(lat: Lat)
    requires WordsOk(lat)
    ensures OnLat(lat, []) && PathSplIds(lat, []) == []
  {}

  // Entry k of the reversed counts and of the sums: both differ from their
  // neighbour by the number of spellings of word k.
  lemma CountStep(lat: Lat, p: seq<nat>, base: nat, k: nat) returns (d: nat)
    requires WordsOk(lat) && OnLat(lat, p) && k < |p|
    ensures Rev(BackCounts(lat, p, base))[k] == d + (if k + 1 < |p| then Rev(BackCounts(lat, p, base))[k + 1] else base)
    ensures Counts(lat, p, base)[k] == d + (if k > 0 then Counts(lat, p, base)[k - 1] else base)
  {
    SuffixStep(lat, p, k);
    PrefixStep(lat, p, k);
    BackAt(lat, p, base, k);
    CountAt(lat, p, base, k);
    NoWords(lat);
    d := |SplIds(lat.dmis, lat.nodes[p[k]].dmiFr)|;
    hide *;
    if k + 1 < |p| {
      BackAt(lat, p, base, k + 1);
    } else {
      assert p[k + 1..] == [];
    }
    if k > 0 {
      CountAt(lat, p, base, k - 1);
      assert p[..k - 1 + 1] == p[..k];
    } else {
      assert p[..k] == [];
    }
  }

  // The last loop of the segmentation: reversed counts become starts.
  method SumLoop(lat: Lat, lmaStart: array<nat>, fixedLmas: nat, lmaNum: nat, ghost x: seq<nat>, ghost p: seq<nat>,
                 ghost base: nat)
    requires WordsOk(lat) && OnLat(lat, p) && |x| == fixedLmas + 1 && x[fixedLmas] == base
    requires lmaNum == fixedLmas + |p| < lmaStart.Length
    requires Summed(lmaStart[..], fixedLmas + 1, 0, Counts(lat, p, base), Rev(BackCounts(lat, p, base)))
    requires lmaStart[..][..fixedLmas + 1] == x
    modifies lmaStart
    ensures Summed(lmaStart[..], fixedLmas + 1, |p|, Counts(lat, p, base), Rev(BackCounts(lat, p, base)))
    ensures lmaStart[..][..fixedLmas + 1] == x
  {
    ghost var r, c, lo := Rev(BackCounts(lat, p, base)), Counts(lat, p, base), fixedLmas + 1;
    hide *;
    ghost var k: nat := 0;
    for pos := fixedLmas + 1 to lmaNum + 1
      invariant pos == lo + k && Summed(lmaStart[..], lo, k, c, r) && lmaStart[..][..lo] == x
    {
      ghost var d := CountStep(lat, p, base, k);
      SumFacts(lmaStart[..], lo, k, c, r);
      assert lmaStart[..][..lo][fixedLmas] == x[fixedLmas];
      ghost var s := lmaStart[..];
      var sum: int;
      if pos < lmaNum {
        sum := lmaStart[pos - 1] + (lmaStart[pos] - lmaStart[pos + 1]);
      } else {
        sum := lmaStart[pos - 1] + lmaStart[pos] - lmaStart[fixedLmas];
      }
      assert sum == c[k];
      WriteCell(lmaStart, pos, sum);
      SumStep(s, lo, k, c, r);
      KeepPrefix(s, lmaStart[..], lo, pos, x);
      k := k + 1;
    }
  }

  method SumUp(lat: Lat, lmaStart: array<nat>, fixedLmas: nat, lmaNum: nat, ghost x: seq<nat>, ghost p: seq<nat>,
               ghost base: nat)
    requires WordsOk(lat) && OnLat(lat, p) && |x| == fixedLmas + 1 && x[fixedLmas] == base
    requires lmaNum == fixedLmas + |p| < lmaStart.Length
    requires lmaStart[..lmaNum + 1] == x + Rev(BackCounts(lat, p, base))
    modifies lmaStart
    ensures lmaStart[..lmaNum + 1] == x + Counts(lat, p, base)
  {
    ghost var r, c, lo := Rev(BackCounts(lat, p, base)), Counts(lat, p, base), fixedLmas + 1;
    hide *;
    SplitArray(lmaStart, x, r);
    StartSums(lmaStart[..], lo, c, r);
    assert lmaStart[..][..lo] == lmaStart[..lo];
    SumLoop(lat, lmaStart, fixedLmas, lmaNum, x, p, base);
    EndSums(lmaStart[..], lo, c, r);
    assert lmaStart[lo..lo + |c|] == lmaStart[..][lo..lo + |c|] && lmaStart[..lo] == lmaStart[..][..lo];
    JoinArray(lmaStart, x, c);
  }

  method WriteCell(a: array<nat>, i: nat, x: nat)
    requires i < a.Length
    modifies a
    ensures a[..] == old(a[..])[i := x]
  {
    a[i] := x;
  }

  lemma KeepPrefix(s: seq<nat>, t: seq<nat>, lo: nat, i: nat, x: seq<nat>)
    requires lo <= i < |s| == |t| && t == s[i := t[i]] && s[..lo] == x
    ensures t[..lo] == x
  {}

  // The first k cells from lo on are those of c, the rest those of r.
  ghost predicate Summed(s: seq<nat>, lo: nat, k: nat, c: seq<nat>, r: seq<nat>) {
    && lo > 0 && |c| == |r| && lo + |r| <= |s| && k <= |r|
    && forall q: nat :: q < |r| ==> s[lo + q] == if q < k then c[q] else r[q]
  }

  lemma StartSums(s: seq<nat>, lo: nat, c: seq<nat>, r: seq<nat>)
    requires lo > 0 && |c| == |r| && lo + |r| <= |s| && s[lo..lo + |r|] == r
    ensures Summed(s, lo, 0, c, r)
  {
    forall q: nat | q < |r|
      ensures s[lo + q] == r[q]
    {
      assert s[lo..lo + |r|][q] == s[lo + q];
    }
  }

  lemma SumFacts(s: seq<nat>, lo: nat, k: nat, c: seq<nat>, r: seq<nat>)
    requires Summed(s, lo, k, c, r) && k < |r|
    ensures s[lo + k] == r[k] && (k + 1 < |r| ==> s[lo + k + 1] == r[k + 1]) && (k > 0 ==> s[lo + k - 1] == c[k - 1])
  {
    assert s[lo + k] == r[k];
    var next, prev := k + 1, k - 1;
    assert next < |r| ==> s[lo + next] == r[next];
    assert k > 0 ==> s[lo + prev] == c[prev];
  }

  lemma SumStep(s: seq<nat>, lo: nat, k: nat, c: seq<nat>, r: seq<nat>)
    requires Summed(s, lo, k, c, r) && k < |r|
    ensures Summed(s[lo + k := c[k]], lo, k + 1, c, r)
  {}

  lemma EndSums(s: seq<nat>, lo: nat, c: seq<nat>, r: seq<nat>)
    requires Summed(s, lo, |r|, c, r)
    ensures |c| == |r| && lo + |c| <= |s| && s[lo..lo + |c|] == c
  {
    var t := s[lo..lo + |c|];
    forall q: nat | q < |c|
      ensures t[q] == c[q]
    {
      assert s[lo + q] == c[q];
    }
  }

  // ---- Putting it together ----

  // The segmentation of the path p behind what g0 holds, first word first.
  ghost function Segmented(lat: Lat, p: seq<nat>, fixedHzs: nat, g0: Seg): Seg
    requires WordsOk(lat) && OnLat(lat, p)
  {
    Seg(g0.splStart + PathSplEnds(lat, p), g0.splId + PathSplIds(lat, p),
        g0.lmaStart + Counts(lat, p, fixedHzs), g0.lmaId + PathLmaIds(lat, p))
  }

  // MatrixSearch::get_spl_start_id, behind a fixed part whose words and spellings
  // agree: the arrays end up with the segmentation of the best path, in order.
  method GetSplStartId(lat: Lat, nd0: nat, fixedHzs: nat, fixedLmas: nat,
                       splStart: array<nat>, splId: array<nat>, lmaStart: array<nat>, lmaId: array<nat>, ghost g0: Seg)
    returns (splNum: nat, lmaNum: nat)
    requires WordsOk(lat) && nd0 < |lat.nodes| && Filled(splStart, splId, lmaStart, lmaId, g0)
    requires |g0.splId| == fixedHzs && |g0.lmaId| == fixedLmas && |g0.splStart| == fixedHzs + 1
    requires |g0.lmaStart| == fixedLmas + 1
    requires g0.lmaStart[fixedLmas] == fixedHzs && (fixedHzs == 0 ==> g0.splStart[0] == 0)
    requires fixedHzs + |PathSplIds(lat, Path(lat, nd0, g0.splStart[fixedHzs]))| < splStart.Length <= splId.Length
    requires fixedLmas + |Path(lat, nd0, g0.splStart[fixedHzs])| < lmaStart.Length <= lmaId.Length
    requires splStart != splId && splStart != lmaStart && splStart != lmaId && splId != lmaStart && splId != lmaId
    requires lmaStart != lmaId
    modifies splStart, splId, lmaStart, lmaId
    ensures var p := Path(lat, nd0, g0.splStart[fixedHzs]);
            && splNum == fixedHzs + |PathSplIds(lat, p)| && lmaNum == fixedLmas + |p|
            && Filled(splStart, splId, lmaStart, lmaId, Segmented(lat, p, fixedHzs, g0))
    ensures PartTiles(lmaStart, fixedLmas, lmaNum, fixedHzs, splNum)
    ensures Through(lat, nd0, g0.splStart[fixedHzs]) ==>
              PartTiles(splStart, fixedHzs, splNum, g0.splStart[fixedHzs], lat.nodes[nd0].step)
  {
    ghost var p, g := Path(lat, nd0, g0.splStart[fixedHzs]), g0;
    splNum, lmaNum, g := WalkPath(lat, nd0, fixedHzs, fixedLmas, splStart, splId, lmaStart, lmaId, g0);
    FilledParts(splStart, splId, lmaStart, lmaId, g, lat, p, fixedHzs, g0);
    hide *;
    Forward(lat, p, fixedHzs, fixedLmas, splNum, lmaNum, splStart, splId, lmaStart, lmaId, g0);
    BehindFixed(lat, p, fixedHzs, fixedLmas, splNum, lmaNum, splStart, splId, lmaStart, lmaId, g0);
    if Through(lat, nd0, g0.splStart[fixedHzs]) {
      PathTiles(lat, nd0, g0.splStart[fixedHzs]);
    }
  }

  // The entries behind number `fixed` tile what lies between the places.
  ghost predicate PartTiles(a: array<nat>, fixed: nat, num: nat, from: nat, to: nat)
    reads a
  {
    fixed <= num < a.Length && Tiles(a[fixed + 1..num + 1], from, to)
  }

  // What lies behind the fixed part.
  lemma BehindFixed(lat: Lat, p: seq<nat>, fixedHzs: nat, fixedLmas: nat, splNum: nat, lmaNum: nat,
                    splStart: array<nat>, splId: array<nat>, lmaStart: array<nat>, lmaId: array<nat>, g0: Seg)
    requires WordsOk(lat) && OnLat(lat, p) && splNum == fixedHzs + |PathSplIds(lat, p)| && lmaNum == fixedLmas + |p|
    requires |g0.splStart| == fixedHzs + 1 && |g0.lmaStart| == fixedLmas + 1
    requires |PathSplEnds(lat, p)| == |PathSplIds(lat, p)|
    requires Filled(splStart, splId, lmaStart, lmaId, Segmented(lat, p, fixedHzs, g0))
    ensures forall a: nat, b: nat :: Tiles(PathSplEnds(lat, p), a, b) ==> PartTiles(splStart, fixedHzs, splNum, a, b)
    ensures PartTiles(lmaStart, fixedLmas, lmaNum, fixedHzs, splNum)
  {
    hide *;
    WordsTile(lat, p, fixedHzs);
    FilledStarts(lat, p, fixedHzs, splStart, splId, lmaStart, lmaId, g0);
    forall a: nat, b: nat | Tiles(PathSplEnds(lat, p), a, b)
      ensures PartTiles(splStart, fixedHzs, splNum, a, b)
    {
      TailTiles(splStart, g0.splStart, PathSplEnds(lat, p), a, b);
    }
    TailTiles(lmaStart, g0.lmaStart, Counts(lat, p, fixedHzs), fixedHzs, splNum);
  }

  lemma TailTiles(a: array<nat>, front: seq<nat>, s: seq<nat>, from: nat, to: nat)
    requires Tiles(s, from, to) && front != [] && |front| + |s| <= a.Length && a[..|front| + |s|] == front + s
    ensures PartTiles(a, |front| - 1, |front| - 1 + |s|, from, to)
  {
    assert a[|front|..|front| + |s|] == a[..|front| + |s|][|front|..] == s;
    hide Tiles;
  }

  lemma FilledStarts(lat: Lat, p: seq<nat>, fixedHzs: nat, splStart: array<nat>, splId: array<nat>,
                     lmaStart: array<nat>, lmaId: array<nat>, g0: Seg)
    requires WordsOk(lat) && OnLat(lat, p) && Filled(splStart, splId, lmaStart, lmaId, Segmented(lat, p, fixedHzs, g0))
    ensures |g0.splStart| + |PathSplEnds(lat, p)| <= splStart.Length && |g0.lmaStart| + |p| <= lmaStart.Length
    ensures |Counts(lat, p, fixedHzs)| == |p|
    ensures splStart[..|g0.splStart| + |PathSplEnds(lat, p)|] == g0.splStart + PathSplEnds(lat, p)
    ensures lmaStart[..|g0.lmaStart| + |p|] == g0.lmaStart + Counts(lat, p, fixedHzs)
  {
    hide WordsOk, PathSplIds, PathSplEnds, Counts, PathLmaIds;
  }

  // The words behind the fixed part, counted in spellings.
  lemma WordsTile(lat: Lat, p: seq<nat>, base: nat)
    requires WordsOk(lat) && OnLat(lat, p)
    ensures Tiles(Counts(lat, p, base), base, base + |PathSplIds(lat, p)|)
  {
    hide *;
    CountsTile(lat, p);
    CountsShift(lat, p, base);
    TilesShift(Counts(lat, p, 0), Counts(lat, p, base), |PathSplIds(lat, p)|, base);
  }

  lemma CountsShift(lat: Lat, p: seq<nat>, base: nat)
    requires WordsOk(lat) && OnLat(lat, p)
    ensures |Counts(lat, p, base)| == |Counts(lat, p, 0)| == |p|
    ensures forall j :: 0 <= j < |p| ==> Counts(lat, p, base)[j] == base + Counts(lat, p, 0)[j]
  {
    hide WordsOk, PathSplIds;
  }

  lemma TilesShift(s: seq<nat>, t: seq<nat>, to: nat, base: nat)
    requires Tiles(s, 0, to) && |t| == |s| && forall j :: 0 <= j < |s| ==> t[j] == base + s[j]
    ensures Tiles(t, base, base + to)
  {}

  // Reversing and summing up what the walk filled in.
  method Forward(lat: Lat, ghost p: seq<nat>, fixedHzs: nat, fixedLmas: nat, splNum: nat, lmaNum: nat,
                 splStart: array<nat>, splId: array<nat>, lmaStart: array<nat>, lmaId: array<nat>, ghost g0: Seg)
    requires WordsOk(lat) && OnLat(lat, p) && splNum == fixedHzs + |PathSplIds(lat, p)| && lmaNum == fixedLmas + |p|
    requires |g0.splId| == fixedHzs && |g0.lmaId| == fixedLmas && |g0.splStart| == fixedHzs + 1
    requires |g0.lmaStart| == fixedLmas + 1
    requires g0.lmaStart[fixedLmas] == fixedHzs && |PathSplEnds(lat, p)| == |PathSplIds(lat, p)|
    requires |PathLmaIds(lat, p)| == |BackCounts(lat, p, fixedHzs)| == |p|
    requires splNum < splStart.Length <= splId.Length && lmaNum < lmaStart.Length <= lmaId.Length
    requires splStart[..splNum + 1] == g0.splStart + Rev(PathSplEnds(lat, p))
    requires splId[..splNum] == g0.splId + Rev(PathSplIds(lat, p))
    requires lmaStart[..lmaNum + 1] == g0.lmaStart + BackCounts(lat, p, fixedHzs)
    requires lmaId[..lmaNum] == g0.lmaId + Rev(PathLmaIds(lat, p))
    requires splStart != splId && splStart != lmaStart && splStart != lmaId && splId != lmaStart && splId != lmaId
    requires lmaStart != lmaId
    modifies splStart, splId, lmaStart, lmaId
    ensures Filled(splStart, splId, lmaStart, lmaId, Segmented(lat, p, fixedHzs, g0))
  {
    ghost var ends, sids, lids, counts := PathSplEnds(lat, p), PathSplIds(lat, p), PathLmaIds(lat, p), BackCounts(lat,
                                                      p, fixedHzs);
    hide *;
    ReverseTails(splStart, splId, splNum - fixedHzs, fixedHzs + 1, fixedHzs, g0.splStart, Rev(ends), g0.splId,
                 Rev(sids));
    RevRev(ends);
    RevRev(sids);
    ReverseTails(lmaStart, lmaId, lmaNum - fixedLmas, fixedLmas + 1, fixedLmas, g0.lmaStart, counts, g0.lmaId,
                 Rev(lids));
    RevRev(lids);
    SumUp(lat, lmaStart, fixedLmas, lmaNum, g0.lmaStart, p, fixedHzs);
    PartsFilled(splStart, splId, lmaStart, lmaId, lat, p, fixedHzs, g0);
  }

  lemma FilledParts(splStart: array<nat>, splId: array<nat>, lmaStart: array<nat>, lmaId: array<nat>, g: Seg,
                    lat: Lat, p: seq<nat>, fixedHzs: nat, g0: Seg)
    requires WordsOk(lat) && OnLat(lat, p) && Filled(splStart, splId, lmaStart, lmaId, g)
    requires Walked(lat, p, fixedHzs, g, g0)
    ensures |g.splStart| <= splStart.Length && |g.splId| <= splId.Length && |g.lmaStart| <= lmaStart.Length
    ensures |g.lmaId| <= lmaId.Length
    ensures |g.splStart| == |g0.splStart| + |PathSplEnds(lat, p)| && |g.splId| == |g0.splId| + |PathSplIds(lat, p)|
    ensures |g.lmaStart| == |g0.lmaStart| + |p| && |g.lmaId| == |g0.lmaId| + |p|
    ensures |PathSplEnds(lat, p)| == |PathSplIds(lat, p)|
    ensures |PathLmaIds(lat, p)| == |BackCounts(lat, p, fixedHzs)| == |p|
    ensures splStart[..|g.splStart|] == g0.splStart + Rev(PathSplEnds(lat, p))
    ensures splId[..|g.splId|] == g0.splId + Rev(PathSplIds(lat, p))
    ensures lmaStart[..|g.lmaStart|] == g0.lmaStart + BackCounts(lat, p, fixedHzs)
    ensures lmaId[..|g.lmaId|] == g0.lmaId + Rev(PathLmaIds(lat, p))
  {
    hide PathSplEnds, PathSplIds, PathLmaIds, BackCounts, WordsOk, OnLat;
  }

  lemma PartsFilled(splStart: array<nat>, splId: array<nat>, lmaStart: array<nat>, lmaId: array<nat>,
                    lat: Lat, p: seq<nat>, fixedHzs: nat, g0: Seg)
    requires WordsOk(lat) && OnLat(lat, p) && |g0.splStart| == |g0.splId| + 1 && |g0.lmaStart| == |g0.lmaId| + 1
    requires |g0.splStart| + |PathSplEnds(lat, p)| <= splStart.Length
    requires |g0.splId| + |PathSplIds(lat, p)| <= splId.Length
    requires |g0.lmaStart| + |p| <= lmaStart.Length && |g0.lmaId| + |p| <= lmaId.Length
    requires splStart[..|g0.splStart| + |PathSplEnds(lat, p)|] == g0.splStart + PathSplEnds(lat, p)
    requires splId[..|g0.splId| + |PathSplIds(lat, p)|] == g0.splId + PathSplIds(lat, p)
    requires lmaStart[..|g0.lmaStart| + |p|] == g0.lmaStart + Counts(lat, p, fixedHzs)
    requires lmaId[..|g0.lmaId| + |p|] == g0.lmaId + PathLmaIds(lat, p)
    ensures Filled(splStart, splId, lmaStart, lmaId, Segmented(lat, p, fixedHzs, g0))
  {
    hide PathSplEnds, PathSplIds, PathLmaIds, Counts, WordsOk, OnLat;
  }
}
