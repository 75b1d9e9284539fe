// Sliding compaction of the user dictionary (UserDict::defragment): removed
// entries are moved behind the live ones in every index, then the live records
// slide down over the removed ones and every offset follows its record.

module UserCompact {
  import opened Perms
  import opened UserLog

  // One row of the parallel arrays offsets_, scores_ and ids_, and the number of
  // the log record it points to.
  datatype Entry = Entry(off: nat, score: nat, id: nat, slot: nat)

  function LiveOf(es: seq<Entry>): seq<Entry> {
    if es == [] then []
    else LiveOf(es[..|es| - 1]) + if Removed(es[|es| - 1].off) then [] else [es[|es| - 1]]
  }

  // The parallel lists offsets_, scores_ and ids_ are the columns of the rows.
  ghost predicate Rows(offsets: seq<nat>, scores: seq<nat>, ids: seq<nat>, es: seq<Entry>) {
    && |es| == |offsets| == |scores| == |ids|
    && forall i :: 0 <= i < |es| ==> offsets[i] == es[i].off && scores[i] == es[i].score && ids[i] == es[i].id
  }

  // Every row points to a record of the log, and is removed exactly when that record is dead.
  ghost predicate Points(es: seq<Entry>, recs: seq<Rec>, dead: seq<bool>) {
    && |dead| == |recs|
    && forall i :: 0 <= i < |es| ==>
      && es[i].slot < |recs|
      && Off(es[i].off) == Start(recs, es[i].slot)
      && (Removed(es[i].off) <==> dead[es[i].slot])
  }

  function Mark(r: Rec): Rec
    requires |r| > 0
  {
    r[0 := OrFlag(r[0])]
  }

  // recs is recs0 with the removed flag possibly set on some dead records.
  ghost predicate Marked(recs: seq<Rec>, recs0: seq<Rec>, dead: seq<bool>)
    requires AllRecs(recs0)
  {
    && |recs| == |recs0| == |dead| && AllRecs(recs)
    && (forall k :: 0 <= k < |recs| ==> recs[k] == recs0[k] || (dead[k] && recs[k] == Mark(recs0[k])))
    && (forall k :: 0 <= k <= |recs| ==> Start(recs, k) == Start(recs0, k))
  }

  // The log bytes encode recs; bytes past the log are those of rest.
  ghost predicate LogIs(lemmas: array<Byte>, recs: seq<Rec>, rest: seq<Byte>)
    reads lemmas
  {
    lemmas[..] == Flat(recs) + rest
  }

  lemma LiveOfSnoc(es: seq<Entry>, g: nat)
    requires g < |es|
    ensures LiveOf(es[..g + 1]) == LiveOf(es[..g]) + if Removed(es[g].off) then [] else [es[g]]
  {
    assert es[..g + 1][..g] == es[..g];
  }

  lemma MarkBytes(recs: seq<Rec>, k: nat, rest: seq<Byte>)
    requires AllRecs(recs) && k < |recs|
    ensures Start(recs, k) < |Flat(recs)|
    ensures var p := Start(recs, k);
            var all := Flat(recs) + rest;
            all[p := OrFlag(all[p])] == Flat(recs[k := Mark(recs[k])]) + rest
  {
    hide Flat;
    FlatSplit(recs, k);
    FlatUpdate(recs, k, Mark(recs[k]));
    var a, r, c := Flat(recs[..k]), recs[k], Flat(recs[k + 1..]) + rest;
    assert Flat(recs) + rest == a + r + c;
    assert Flat(recs[k := Mark(r)]) + rest == a + Mark(r) + c;
    UpdateMiddle(a, r, c, OrFlag(r[0]));
  }

  lemma UpdateMiddle(a: seq<Byte>, r: seq<Byte>, c: seq<Byte>, x: Byte)
    requires |r| > 0
    ensures (a + r + c)[|a|] == r[0]
    ensures (a + r + c)[|a| := x] == a + r[0 := x] + c
  {}

  // UserDict::set_lemma_flag
  method SetLemmaFlag(lemmas: array<Byte>, word: nat, ghost recs: seq<Rec>, ghost k: nat, ghost rest: seq<Byte>)
    requires AllRecs(recs) && k < |recs| && Off(word) == Start(recs, k)
    requires LogIs(lemmas, recs, rest)
    modifies lemmas
    ensures LogIs(lemmas, recs[k := Mark(recs[k])], rest)
  {
    hide Flat, Start, Mark;
    MarkBytes(recs, k, rest);
    ghost var all := lemmas[..];
    lemmas[Off(word)] := OrFlag(lemmas[Off(word)]);
    assert lemmas[..] == all[Off(word) := OrFlag(all[Off(word)])];
  }

  lemma MarkDead(r: Rec)
    requires |r| > 0
    ensures Dead(Mark(r)) && |Mark(r)| == |r|
  {}

  lemma MarkOne(recs: seq<Rec>, recs0: seq<Rec>, dead: seq<bool>, k: nat)
    requires AllRecs(recs0) && Marked(recs, recs0, dead) && k < |recs| && dead[k]
    ensures Marked(recs[k := Mark(recs[k])], recs0, dead)
    ensures Dead(Mark(recs[k]))
  {
    FlatUpdate(recs, k, Mark(recs[k]));
    MarkTwice(recs0[k]);
    hide Flat, Start;
  }

  lemma MarkTwice(r: Rec)
    requires |r| > 0
    ensures Mark(Mark(r)) == Mark(r)
  {}

  function Swap<T>(s: seq<T>, i: nat, j: nat): (r: seq<T>)
    requires i < |s| && j < |s|
    ensures |r| == |s|
  {
    s[i := s[j]][j := s[i]]
  }

  function SlotsOf(es: seq<Entry>): (r: seq<nat>)
    ensures |r| == |es|
  {
    seq(|es|, i requires 0 <= i < |es| => es[i].slot)
  }

  lemma SlotsSwap(es: seq<Entry>, i: nat, j: nat, n: nat)
    requires IsPerm(SlotsOf(es), n) && i < |es| && j < |es|
    ensures IsPerm(SlotsOf(Swap(es, i, j)), n)
  {
    var a, b := SlotsOf(es), SlotsOf(Swap(es, i, j));
    assert b == Swap(a, i, j);
    PermSwap(a, i, j, n);
  }

  lemma PermSwap(s: seq<nat>, i: nat, j: nat, n: nat)
    requires IsPerm(s, n) && i < |s| && j < |s|
    ensures IsPerm(Swap(s, i, j), n)
  {
    var t := Swap(s, i, j);
    forall k: nat | k < n
      ensures k in t
    {
      assert k in s;
      var a :| 0 <= a < |s| && s[a] == k;
      assert t[if a == i then j else if a == j then i else a] == k;
    }
  }

  // State of the index scan over the rows es0: rows before g have been looked at,
  // the live ones among them stand in front of f, the others in [f..g).
  datatype Scan = Scan(es0: seq<Entry>, recs0: seq<Rec>, dead: seq<bool>, es: seq<Entry>, recs: seq<Rec>, f: nat,
    g: nat)

  ghost predicate Fixing(s: Scan) {
    && AllRecs(s.recs0) && s.f <= s.g <= |s.es| == |s.es0|
    && s.es[..s.f] == LiveOf(s.es0[..s.g]) && s.es[s.g..] == s.es0[s.g..]
    && IsPerm(SlotsOf(s.es), |s.recs|)
    && Points(s.es, s.recs, s.dead) && Marked(s.recs, s.recs0, s.dead)
    && forall i :: s.f <= i < s.g ==> Removed(s.es[i].off) && Dead(s.recs[s.es[i].slot])
  }

  lemma NextRow(s: Scan)
    requires Fixing(s) && s.g < |s.es|
    ensures s.es[s.g] == s.es0[s.g]
    ensures s.es[s.g + 1..] == s.es0[s.g + 1..]
    ensures LiveOf(s.es0[..s.g + 1]) == LiveOf(s.es0[..s.g]) + if Removed(s.es[s.g].off) then [] else [s.es[s.g]]
  {
    assert s.es[s.g] == s.es[s.g..][0] == s.es0[s.g..][0];
    assert s.es[s.g + 1..] == s.es[s.g..][1..] == s.es0[s.g..][1..] == s.es0[s.g + 1..];
    LiveOfSnoc(s.es0, s.g);
  }

  ghost function PassLive(s: Scan): Scan {
    s.(f := s.f + 1, g := s.f + 1)
  }

  lemma AfterPassLive(s: Scan)
    requires Fixing(s) && s.f < |s.es| && !Removed(s.es[s.f].off)
    ensures Fixing(PassLive(s)) && PassLive(s) == s.(f := s.f + 1, g := s.f + 1)
  {
    NextRow(s);
    assert s.es[..s.f + 1] == s.es[..s.f] + [s.es[s.f]];
  }

  // Row i is removed: its record gets the flag.
  ghost function PassRemoved(s: Scan, i: nat): Scan
    requires i < |s.es| && s.es[i].slot < |s.recs| && AllRecs(s.recs)
  {
    var k := s.es[i].slot;
    s.(recs := s.recs[k := Mark(s.recs[k])], g := if i == s.g then i + 1 else s.g)
  }

  lemma PointsMarked(es: seq<Entry>, recs: seq<Rec>, dead: seq<bool>, k: nat)
    requires Points(es, recs, dead) && AllRecs(recs) && k < |recs|
    ensures Points(es, recs[k := Mark(recs[k])], dead)
  {
    FlatUpdate(recs, k, Mark(recs[k]));
    hide Flat, Start, IsRec, Mark, Off, Removed;
  }

  lemma AfterPassRemoved(s: Scan, i: nat)
    requires Fixing(s) && s.f <= i <= s.g && i < |s.es| && Removed(s.es[i].off)
    ensures Fixing(PassRemoved(s, i)) && AllRecs(s.recs) && s.es[i].slot < |s.recs|
    ensures PassRemoved(s, i).recs == s.recs[s.es[i].slot := Mark(s.recs[s.es[i].slot])]
    ensures PassRemoved(s, i) == s.(recs := PassRemoved(s, i).recs, g := if i == s.g then i + 1 else s.g)
  {
    hide *;
    FixingAt(s, i);
    var k := s.es[i].slot;
    MarkOne(s.recs, s.recs0, s.dead, k);
    PointsMarked(s.es, s.recs, s.dead, k);
    MarkDead(s.recs[k]);
    if i == s.g {
      NextRow(s);
    }
    PassIs(s, i);
    StillFixing(s, PassRemoved(s, i), i);
  }

  lemma FixingAt(s: Scan, i: nat)
    requires Fixing(s) && i < |s.es| && Removed(s.es[i].off)
    ensures AllRecs(s.recs0) && AllRecs(s.recs) && s.es[i].slot < |s.recs| && |s.recs[s.es[i].slot]| > 0
    ensures Points(s.es, s.recs, s.dead) && Marked(s.recs, s.recs0, s.dead)
    ensures s.es[i].slot < |s.dead| && s.dead[s.es[i].slot]
  {
    hide Flat, Start, LiveOf, IsPerm, SlotsOf, Dead, Mark;
  }

  lemma PassIs(s: Scan, i: nat)
    requires i < |s.es| && s.es[i].slot < |s.recs| && AllRecs(s.recs)
    ensures PassRemoved(s, i) ==
              s.(recs := s.recs[s.es[i].slot := Mark(s.recs[s.es[i].slot])], g := if i == s.g then i + 1 else s.g)
  {}

  lemma StillFixing(s: Scan, t: Scan, i: nat)
    requires Fixing(s) && s.f <= i <= s.g && i < |s.es| && Removed(s.es[i].off) && s.es[i].slot < |s.recs|
    requires t == s.(recs := s.recs[s.es[i].slot := Mark(s.recs[s.es[i].slot])], g := if i == s.g then i + 1 else s.g)
    requires Points(t.es, t.recs, t.dead) && Marked(t.recs, t.recs0, t.dead) && Dead(t.recs[s.es[i].slot])
    requires i == s.g ==> s.es[s.g + 1..] == s.es0[s.g + 1..] && LiveOf(s.es0[..s.g + 1]) == LiveOf(s.es0[..s.g])
    ensures Fixing(t)
  {
    hide Flat, Start, LiveOf, Marked, IsRec, Dead, Mark, IsPerm, SlotsOf, Removed, Off;
    assert forall j :: s.f <= j < s.g ==> s.es[j].slot < |s.recs|;
    hide Points;
  }

  // Row g is live and comes back to f.
  ghost function SwapBack(s: Scan): Scan
    requires s.f < s.g < |s.es|
  {
    s.(es := Swap(s.es, s.g, s.f), f := s.f + 1, g := s.g + 1)
  }

  lemma AfterSwapBack(s: Scan)
    requires Fixing(s) && s.f < s.g < |s.es| && !Removed(s.es[s.g].off)
    ensures Fixing(SwapBack(s)) && SwapBack(s) == s.(es := Swap(s.es, s.g, s.f), f := s.f + 1, g := s.g + 1)
  {
    hide Flat, Start, LiveOf, Marked, IsRec, Dead, IsPerm, SlotsOf;
    var es' := Swap(s.es, s.g, s.f);
    NextRow(s);
    assert es'[..s.f + 1] == s.es[..s.f] + [s.es[s.g]];
    assert es'[s.g + 1..] == s.es0[s.g + 1..];
    SlotsSwap(s.es, s.g, s.f, |s.recs|);
  }

  lemma SwapRows(offsets: seq<nat>, scores: seq<nat>, ids: seq<nat>, es: seq<Entry>, i: nat, j: nat)
    requires Rows(offsets, scores, ids, es) && i < |es| && j < |es|
    ensures Rows(Swap(offsets, i, j), Swap(scores, i, j), Swap(ids, i, j), Swap(es, i, j))
  {}

  lemma FixingFacts(s: Scan, i: nat)
    requires Fixing(s)
    ensures s.f <= s.g <= |s.es| == |s.es0|
    ensures s.f <= i < s.g ==> Removed(s.es[i].off)
    ensures AllRecs(s.recs)
    ensures i < |s.es| ==> s.es[i].slot < |s.recs| && Off(s.es[i].off) == Start(s.recs, s.es[i].slot)
  {}

  lemma RowAt(offsets: seq<nat>, scores: seq<nat>, ids: seq<nat>, es: seq<Entry>, i: nat)
    requires Rows(offsets, scores, ids, es)
    ensures |es| == |offsets| == |scores| == |ids|
    ensures i < |es| ==> offsets[i] == es[i].off
  {}

  // The scan over the three parallel lists, from the scan s0 on.
  ghost predicate OnScan(offsets: seq<nat>, scores: seq<nat>, ids: seq<nat>, s: Scan, s0: Scan) {
    Rows(offsets, scores, ids, s.es) && Fixing(s) && s.es0 == s0.es0 && s.recs0 == s0.recs0 && s.dead == s0.dead
  }

  lemma IsScan(offsets: seq<nat>, scores: seq<nat>, ids: seq<nat>, s: Scan, s0: Scan)
    requires Rows(offsets, scores, ids, s.es) && Fixing(s)
    requires s.es0 == s0.es0 && s.recs0 == s0.recs0 && s.dead == s0.dead
    ensures OnScan(offsets, scores, ids, s, s0)
  {
    hide Rows, Fixing;
  }

  lemma ScanFacts(offsets: seq<nat>, scores: seq<nat>, ids: seq<nat>, s: Scan, s0: Scan, i: nat)
    requires OnScan(offsets, scores, ids, s, s0)
    ensures Rows(offsets, scores, ids, s.es) && Fixing(s) && s.f <= s.g <= |s.es|
    ensures s.es0 == s0.es0 && s.recs0 == s0.recs0 && s.dead == s0.dead && AllRecs(s.recs)
    ensures |s.es| == |offsets| == |scores| == |ids| && (s.f <= i < s.g ==> Removed(s.es[i].off))
    ensures i < |s.es| ==> offsets[i] == s.es[i].off && s.es[i].slot < |s.recs|
    ensures i < |s.es| ==> Off(s.es[i].off) == Start(s.recs, s.es[i].slot)
  {
    FixingFacts(s, i);
    RowAt(offsets, scores, ids, s.es, i);
    hide Fixing, Rows, AllRecs, Removed, Off, Start;
  }

  lemma ScanLive(offsets: seq<nat>, scores: seq<nat>, ids: seq<nat>, s: Scan, s0: Scan)
    requires OnScan(offsets, scores, ids, s, s0) && s.f < |s.es| == |offsets| && !Removed(offsets[s.f])
    ensures OnScan(offsets, scores, ids, PassLive(s), s0) && PassLive(s) == s.(f := s.f + 1, g := s.f + 1)
  {
    hide *;
    ScanFacts(offsets, scores, ids, s, s0, s.f);
    AfterPassLive(s);
    IsScan(offsets, scores, ids, PassLive(s), s0);
  }

  lemma ScanRemoved(offsets: seq<nat>, scores: seq<nat>, ids: seq<nat>, s: Scan, s0: Scan, i: nat)
    requires OnScan(offsets, scores, ids, s, s0) && s.f <= i <= s.g && i < |s.es| == |offsets| && Removed(offsets[i])
    ensures AllRecs(s.recs) && s.es[i].slot < |s.recs|
    ensures OnScan(offsets, scores, ids, PassRemoved(s, i), s0)
    ensures PassRemoved(s, i).recs == s.recs[s.es[i].slot := Mark(s.recs[s.es[i].slot])]
    ensures PassRemoved(s, i) == s.(recs := PassRemoved(s, i).recs, g := if i == s.g then i + 1 else s.g)
  {
    hide *;
    ScanFacts(offsets, scores, ids, s, s0, i);
    AfterPassRemoved(s, i);
    IsScan(offsets, scores, ids, PassRemoved(s, i), s0);
  }

  lemma ScanSwap(offsets: seq<nat>, scores: seq<nat>, ids: seq<nat>, s: Scan, s0: Scan)
    requires OnScan(offsets, scores, ids, s, s0) && s.f < s.g < |s.es| == |offsets| == |scores| == |ids|
    requires !Removed(offsets[s.g])
    ensures OnScan(Swap(offsets, s.g, s.f), Swap(scores, s.g, s.f), Swap(ids, s.g, s.f), SwapBack(s), s0)
    ensures SwapBack(s) == s.(es := Swap(s.es, s.g, s.f), f := s.f + 1, g := s.g + 1)
  {
    hide *;
    ScanFacts(offsets, scores, ids, s, s0, s.g);
    SwapRows(offsets, scores, ids, s.es, s.g, s.f);
    AfterSwapBack(s);
    IsScan(Swap(offsets, s.g, s.f), Swap(scores, s.g, s.f), Swap(ids, s.g, s.f), SwapBack(s), s0);
  }

  // First phase over the index: live rows move to the front in order, the flag of
  // every removed row is copied to its record.
  method FixupIndex(offsets0: seq<nat>, scores0: seq<nat>, ids0: seq<nat>, lemmas: array<Byte>,
                    ghost s0: Scan, ghost rest: seq<Byte>)
    returns (offsets: seq<nat>, scores: seq<nat>, ids: seq<nat>, live: nat, ghost s: Scan)
    requires Rows(offsets0, scores0, ids0, s0.es)
    requires Fixing(s0) && s0.f == s0.g == 0 && LogIs(lemmas, s0.recs, rest)
    modifies lemmas
    ensures Rows(offsets, scores, ids, s.es) && LogIs(lemmas, s.recs, rest)
    ensures Fixing(s) && s.es0 == s0.es0 && s.recs0 == s0.recs0 && s.dead == s0.dead
    ensures s.f == live && s.g == |offsets|
  {
    offsets, scores, ids, s := offsets0, scores0, ids0, s0;
    var n := |offsets|;
    var firstFreed, firstInuse := 0, 0;
    hide *;
    IsScan(offsets, scores, ids, s, s0);
    ScanFacts(offsets, scores, ids, s, s0, 0);
    while firstFreed < n
      invariant s.f == firstFreed <= n == |s.es| && (firstFreed == n ==> s.g == n)
      invariant OnScan(offsets, scores, ids, s, s0) && LogIs(lemmas, s.recs, rest)
    {
      ScanFacts(offsets, scores, ids, s, s0, firstFreed);
      // Find first freed offset
      while firstFreed < n && !Removed(offsets[firstFreed])
        invariant s.f == firstFreed <= n == |s.es| == |offsets| && (firstFreed == n ==> s.g == n)
        invariant OnScan(offsets, scores, ids, s, s0) && LogIs(lemmas, s.recs, rest)
      {
        ScanLive(offsets, scores, ids, s, s0);
        s := PassLive(s);
        firstFreed := firstFreed + 1;
      }
      if firstFreed >= n {
        break;
      }
      // Save the removed flag to the lemma flag
      ScanFacts(offsets, scores, ids, s, s0, firstFreed);
      SetLemmaFlag(lemmas, offsets[firstFreed], s.recs, s.es[firstFreed].slot, rest);
      ScanRemoved(offsets, scores, ids, s, s0, firstFreed);
      s := PassRemoved(s, firstFreed);
      // Find first in-use offset after it
      firstInuse := firstFreed + 1;
      ScanFacts(offsets, scores, ids, s, s0, firstInuse);
      while firstInuse < n && Removed(offsets[firstInuse])
        invariant s.f == firstFreed < firstInuse <= s.g <= n == |s.es| == |offsets|
        invariant OnScan(offsets, scores, ids, s, s0) && LogIs(lemmas, s.recs, rest)
      {
        ScanFacts(offsets, scores, ids, s, s0, firstInuse);
        SetLemmaFlag(lemmas, offsets[firstInuse], s.recs, s.es[firstInuse].slot, rest);
        ScanRemoved(offsets, scores, ids, s, s0, firstInuse);
        s := PassRemoved(s, firstInuse);
        firstInuse := firstInuse + 1;
      }
      ScanFacts(offsets, scores, ids, s, s0, firstInuse);
      if firstInuse >= n {
        break;
      }
      ScanSwap(offsets, scores, ids, s, s0);
      s := SwapBack(s);
      offsets := Swap(offsets, firstInuse, firstFreed);
      scores := Swap(scores, firstInuse, firstFreed);
      ids := Swap(ids, firstInuse, firstFreed);
      firstFreed := firstFreed + 1;
      ScanFacts(offsets, scores, ids, s, s0, firstFreed);
    }
    live := firstFreed;
    ScanFacts(offsets, scores, ids, s, s0, 0);
  }

  ghost predicate Column(words: seq<nat>, es: seq<Entry>) {
    |words| == |es| && forall i :: 0 <= i < |es| ==> words[i] == es[i].off
  }

  lemma SwapColumn(words: seq<nat>, es: seq<Entry>, i: nat, j: nat)
    requires Column(words, es) && i < |es| && j < |es|
    ensures Column(Swap(words, i, j), Swap(es, i, j))
  {}

  // Every dead record already carries its flag.
  ghost predicate DeadFlagged(s: Scan) {
    |s.dead| == |s.recs| && forall k :: 0 <= k < |s.dead| && s.dead[k] ==> Dead(s.recs[k])
  }

  lemma AlreadyFlagged(s: Scan, i: nat)
    requires Fixing(s) && DeadFlagged(s) && i < |s.es| && Removed(s.es[i].off)
    ensures s.es[i].slot < |s.recs| && PassRemoved(s, i).recs == s.recs
  {
    hide Flat, Start, LiveOf, IsRec;
    var k := s.es[i].slot;
    assert Dead(s.recs[k]);
    assert Mark(s.recs[k]) == s.recs[k];
    assert s.recs[k := s.recs[k]] == s.recs;
  }

  lemma ColumnAt(words: seq<nat>, es: seq<Entry>, i: nat)
    requires Column(words, es)
    ensures |words| == |es|
    ensures i < |es| ==> words[i] == es[i].off
  {}

  // The scan over predicts_, where the records already carry their flags.
  ghost predicate Rescan(words: seq<nat>, s: Scan, s0: Scan) {
    && Column(words, s.es) && Fixing(s) && DeadFlagged(s)
    && s.es0 == s0.es0 && s.recs0 == s0.recs0 && s.dead == s0.dead && s.recs == s0.recs
  }

  lemma RescanFacts(words: seq<nat>, s: Scan, s0: Scan, i: nat)
    requires Rescan(words, s, s0)
    ensures Column(words, s.es) && Fixing(s) && DeadFlagged(s) && s.f <= s.g <= |s.es| == |words|
    ensures s.es0 == s0.es0 && s.recs0 == s0.recs0 && s.dead == s0.dead && s.recs == s0.recs
    ensures AllRecs(s.recs) && (i < |s.es| ==> words[i] == s.es[i].off && s.es[i].slot < |s.recs|)
    ensures s.f <= i < s.g ==> Removed(s.es[i].off)
  {
    FixingFacts(s, i);
    ColumnAt(words, s.es, i);
    hide Fixing, Column, DeadFlagged, AllRecs, Removed;
  }

  lemma IsRescan(words: seq<nat>, s: Scan, s0: Scan)
    requires Column(words, s.es) && Fixing(s) && DeadFlagged(s)
    requires s.es0 == s0.es0 && s.recs0 == s0.recs0 && s.dead == s0.dead && s.recs == s0.recs
    ensures Rescan(words, s, s0)
  {
    hide Fixing, Column, DeadFlagged;
  }

  lemma RescanLive(words: seq<nat>, s: Scan, s0: Scan)
    requires Rescan(words, s, s0) && s.f < |s.es| == |words| && !Removed(words[s.f])
    ensures Rescan(words, PassLive(s), s0) && PassLive(s) == s.(f := s.f + 1, g := s.f + 1)
  {
    hide *;
    RescanFacts(words, s, s0, s.f);
    AfterPassLive(s);
    DeadFlaggedSame(s, PassLive(s));
    IsRescan(words, PassLive(s), s0);
  }

  lemma RescanRemoved(words: seq<nat>, s: Scan, s0: Scan, i: nat)
    requires Rescan(words, s, s0) && s.f <= i <= s.g && i < |s.es| == |words| && Removed(words[i])
    ensures s.es[i].slot < |s.recs| && AllRecs(s.recs)
    ensures Rescan(words, PassRemoved(s, i), s0) && PassRemoved(s, i) == s.(g := if i == s.g then i + 1 else s.g)
  {
    hide *;
    RescanFacts(words, s, s0, i);
    AlreadyFlagged(s, i);
    AfterPassRemoved(s, i);
    DeadFlaggedSame(s, PassRemoved(s, i));
    IsRescan(words, PassRemoved(s, i), s0);
  }

  lemma RescanSwap(words: seq<nat>, s: Scan, s0: Scan)
    requires Rescan(words, s, s0) && s.f < s.g < |s.es| == |words| && !Removed(words[s.g])
    ensures Rescan(Swap(words, s.g, s.f), SwapBack(s), s0)
    ensures SwapBack(s) == s.(es := Swap(s.es, s.g, s.f), f := s.f + 1, g := s.g + 1)
  {
    hide *;
    RescanFacts(words, s, s0, s.g);
    SwapColumn(words, s.es, s.g, s.f);
    AfterSwapBack(s);
    DeadFlaggedSame(s, SwapBack(s));
    IsRescan(Swap(words, s.g, s.f), SwapBack(s), s0);
  }

  // The same scan over predicts_, after the flags have been saved.
  method FixupPredicts(predicts0: seq<nat>, ghost s0: Scan)
    returns (predicts: seq<nat>, live: nat, ghost s: Scan)
    requires Column(predicts0, s0.es)
    requires Fixing(s0) && s0.f == s0.g == 0 && DeadFlagged(s0)
    ensures Column(predicts, s.es)
    ensures Fixing(s) && s.es0 == s0.es0 && s.recs0 == s0.recs0 && s.dead == s0.dead && s.recs == s0.recs
    ensures s.f == live && s.g == |predicts|
  {
    predicts, s := predicts0, s0;
    var n := |predicts|;
    var firstFreed, firstInuse := 0, 0;
    hide *;
    IsRescan(predicts, s, s0);
    RescanFacts(predicts, s, s0, 0);
    while firstFreed < n
      invariant s.f == firstFreed <= n == |s.es| == |predicts| && (firstFreed == n ==> s.g == n)
      invariant Rescan(predicts, s, s0)
    {
      // Find first freed offset
      while firstFreed < n && !Removed(predicts[firstFreed])
        invariant s.f == firstFreed <= n == |s.es| && (firstFreed == n ==> s.g == n) && Rescan(predicts, s, s0)
      {
        RescanLive(predicts, s, s0);
        s := PassLive(s);
        firstFreed := firstFreed + 1;
      }
      if firstFreed >= n {
        break;
      }
      RescanRemoved(predicts, s, s0, firstFreed);
      s := PassRemoved(s, firstFreed);
      // Find first in-use offset after it
      firstInuse := firstFreed + 1;
      RescanFacts(predicts, s, s0, firstInuse);
      while firstInuse < n && Removed(predicts[firstInuse])
        invariant s.f == firstFreed < firstInuse <= s.g <= n == |s.es| && Rescan(predicts, s, s0)
      {
        RescanRemoved(predicts, s, s0, firstInuse);
        s := PassRemoved(s, firstInuse);
        firstInuse := firstInuse + 1;
      }
      RescanFacts(predicts, s, s0, firstInuse);
      if firstInuse >= n {
        break;
      }
      RescanSwap(predicts, s, s0);
      s := SwapBack(s);
      predicts := Swap(predicts, firstInuse, firstFreed);
      firstFreed := firstFreed + 1;
      RescanFacts(predicts, s, s0, firstFreed);
    }
    live := firstFreed;
    RescanFacts(predicts, s, s0, 0);
  }

  lemma DeadFlaggedSame(s: Scan, t: Scan)
    requires DeadFlagged(s) && t.recs == s.recs && t.dead == s.dead
    ensures DeadFlagged(t)
  {}

  // ---- Sliding the live records down ----

  // Progress of the slide over recs, whose bytes were Flat(recs) + rest: records
  // before `done` are settled, the buffer from `done` on is still as it was.
  ghost predicate Sliding(lemmas: array<Byte>, recs: seq<Rec>, rest: seq<Byte>, done: nat)
    reads lemmas
  {
    && AllRecs(recs) && done <= |recs|
    && |lemmas[..]| == |Flat(recs) + rest|
    && |Flat(Keep(recs[..done]))| <= Start(recs, done) <= |Flat(recs)|
    && lemmas[..|Flat(Keep(recs[..done]))|] == Flat(Keep(recs[..done]))
    && lemmas[Start(recs, done)..] == (Flat(recs) + rest)[Start(recs, done)..]
  }

  // Where the record a live entry points to stands once `done` records are settled.
  ghost function Settled(recs: seq<Rec>, slot: nat, done: nat): nat
    requires AllRecs(recs) && slot < |recs|
  {
    if slot < done then |Flat(Keep(recs[..slot]))| else Start(recs, slot)
  }

  // The offset update of one slide step.
  function Relocate(off: nat, begin: nat, end: nat, dst: nat): nat
    requires dst <= begin
  {
    if begin <= off < end then off - (begin - dst) else off
  }

  // recs[..done] settled, recs[done..b) flagged, recs[b..e) live: the next slide step.
  ghost predicate StepRange(recs: seq<Rec>, done: nat, b: nat, e: nat) {
    && AllRecs(recs) && done <= b <= e <= |recs|
    && (forall k :: done <= k < b ==> Dead(recs[k]))
    && (forall k :: b <= k < e ==> !Dead(recs[k]))
  }

  lemma KeepRun(recs: seq<Rec>, done: nat, b: nat, e: nat)
    requires StepRange(recs, done, b, e)
    ensures Keep(recs[..e]) == Keep(recs[..done]) + recs[b..e]
    ensures |Flat(Keep(recs[..e]))| == |Flat(Keep(recs[..done]))| + Start(recs, e) - Start(recs, b)
    ensures Flat(Keep(recs[..e])) == Flat(Keep(recs[..done])) + Flat(recs[b..e])
    ensures |Flat(recs[b..e])| == Start(recs, e) - Start(recs, b)
  {
    hide Flat, Keep;
    var x, y, z := recs[..done], recs[done..b], recs[b..e];
    assert recs[..e] == x + y + z;
    forall k | 0 <= k < |y| ensures y[k] == recs[done + k] {}
    forall k | 0 <= k < |z| ensures z[k] == recs[b + k] {}
    KeepConcat(x + y, z);
    KeepConcat(x, y);
    KeepNone(y);
    KeepAll(z);
    assert Keep(x) + [] == Keep(x);
    FlatConcat(Keep(recs[..done]), recs[b..e]);
    assert recs[..e] == recs[..b] + recs[b..e];
    FlatConcat(recs[..b], recs[b..e]);
  }

  // A slide step moves an entry's offset exactly when its record moves.
  lemma RelocateSettles(recs: seq<Rec>, slot: nat, done: nat, b: nat, e: nat)
    requires StepRange(recs, done, b, e) && slot < |recs| && !Dead(recs[slot])
    ensures |Flat(Keep(recs[..done]))| <= Start(recs, b)
    ensures Relocate(Settled(recs, slot, done), Start(recs, b), Start(recs, e), |Flat(Keep(recs[..done]))|)
         == Settled(recs, slot, e)
  {
    KeepIsRecs(recs[..done]);
    StartMono(recs, done, b);
    if slot < done {
      KeepIsRecs(recs[..slot]);
      StartMono(recs, slot, b);
    } else if slot < e {
      assert b <= slot;
      KeepRun(recs, done, b, slot);
      StartMono(recs, b, slot);
      StartMono(recs, slot, e);
    } else {
      StartMono(recs, e, slot);
    }
  }

  // The bytes of a record not yet settled can still be read in place.
  lemma ReadAt(lemmas: array<Byte>, recs: seq<Rec>, rest: seq<Byte>, done: nat, k: nat)
    requires Sliding(lemmas, recs, rest, done) && done <= k < |recs|
    ensures Start(recs, k) + RecSize(recs[k][1]) == Start(recs, k + 1) <= |Flat(recs)| <= lemmas.Length
    ensures Start(recs, k) + 1 < lemmas.Length && |recs[k]| >= 2
    ensures lemmas[Start(recs, k)] == recs[k][0] && lemmas[Start(recs, k) + 1] == recs[k][1]
  {
    hide Flat, Keep;
    FlatSplit(recs, k);
    StartMono(recs, done, k);
    var d, p := Start(recs, done), Start(recs, k);
    var all := Flat(recs) + rest;
    assert |recs[k]| >= 2;
    assert all[p..p + |recs[k]|] == recs[k];
    assert all[p] == recs[k][0] && all[p + 1] == recs[k][1];
    assert lemmas[p] == lemmas[d..][p - d] && lemmas[p + 1] == lemmas[d..][p + 1 - d];
    assert all[p] == all[d..][p - d] && all[p + 1] == all[d..][p + 1 - d];
  }

  // memmove(lemmas_ + dst, lemmas_ + src, len)
  method MemMove(lemmas: array<Byte>, dst: nat, src: nat, len: nat)
    requires dst <= src && src + len <= lemmas.Length
    modifies lemmas
    ensures lemmas[..dst + len] == old(lemmas[..dst]) + old(lemmas[src..src + len])
    ensures lemmas[dst + len..] == old(lemmas[dst + len..])
  {
    forall i | 0 <= i < len {
      lemmas[dst + i] := lemmas[src + i];
    }
  }

  // Records [k..k') are live; record k', if any, is flagged.
  method SkipLive(lemmas: array<Byte>, pos: nat, realSize: nat,
                  ghost recs: seq<Rec>, ghost rest: seq<Byte>, ghost done: nat, ghost k: nat)
    returns (pos': nat, ghost k': nat)
    requires Sliding(lemmas, recs, rest, done) && realSize == |Flat(recs)|
    requires done <= k <= |recs| && pos == Start(recs, k)
    ensures k <= k' <= |recs| && pos' == Start(recs, k')
    ensures forall j :: k <= j < k' ==> !Dead(recs[j])
    ensures if pos' < realSize then k' < |recs| && Dead(recs[k']) else k' == |recs|
  {
    hide Sliding, Flat, Start, Keep;
    pos', k' := pos, k;
    SlidingRecs(lemmas, recs, rest, done);
    AtEnd(recs, k');
    while pos' < realSize
      invariant k <= k' <= |recs| && pos' == Start(recs, k') <= realSize
      invariant pos' == realSize <==> k' == |recs|
      invariant forall j :: k <= j < k' ==> !Dead(recs[j])
      decreases realSize - pos'
    {
      ReadAt(lemmas, recs, rest, done, k');
      if Flagged(lemmas[pos']) {
        break;
      }
      pos' := pos' + RecSize(lemmas[pos' + 1]);
      k' := k' + 1;
      AtEnd(recs, k');
    }
  }

  // Records [k..k') are flagged; record k', if any, is live.
  method SkipFlagged(lemmas: array<Byte>, pos: nat, realSize: nat,
                     ghost recs: seq<Rec>, ghost rest: seq<Byte>, ghost done: nat, ghost k: nat)
    returns (pos': nat, ghost k': nat)
    requires Sliding(lemmas, recs, rest, done) && realSize == |Flat(recs)|
    requires done <= k <= |recs| && pos == Start(recs, k)
    ensures k <= k' <= |recs| && pos' == Start(recs, k')
    ensures forall j :: k <= j < k' ==> Dead(recs[j])
    ensures if pos' < realSize then k' < |recs| && !Dead(recs[k']) else k' == |recs|
  {
    hide Sliding, Flat, Start, Keep;
    pos', k' := pos, k;
    SlidingRecs(lemmas, recs, rest, done);
    AtEnd(recs, k');
    while pos' < realSize
      invariant k <= k' <= |recs| && pos' == Start(recs, k') <= realSize
      invariant pos' == realSize <==> k' == |recs|
      invariant forall j :: k <= j < k' ==> Dead(recs[j])
      decreases realSize - pos'
    {
      ReadAt(lemmas, recs, rest, done, k');
      if !Flagged(lemmas[pos']) {
        break;
      }
      pos' := pos' + RecSize(lemmas[pos' + 1]);
      k' := k' + 1;
      AtEnd(recs, k');
    }
  }

  lemma SlidingRecs(lemmas: array<Byte>, recs: seq<Rec>, rest: seq<Byte>, done: nat)
    requires Sliding(lemmas, recs, rest, done)
    ensures AllRecs(recs)
  {}

  lemma AtEnd(recs: seq<Rec>, k: nat)
    requires AllRecs(recs) && k <= |recs|
    ensures Start(recs, k) <= |Flat(recs)|
    ensures Start(recs, k) == |Flat(recs)| <==> k == |recs|
  {
    FlatWhole(recs);
    StartMono(recs, k, |recs|);
  }

  lemma AfterMove(lemmas: array<Byte>, was: seq<Byte>, recs: seq<Rec>, rest: seq<Byte>, done: nat, b: nat, e: nat)
    requires StepRange(recs, done, b, e)
    requires |was| == lemmas.Length == |Flat(recs) + rest|
    requires |Flat(Keep(recs[..done]))| <= Start(recs, done) <= Start(recs, b) <= Start(recs, e) <= |Flat(recs)|
    requires was[..|Flat(Keep(recs[..done]))|] == Flat(Keep(recs[..done]))
    requires was[Start(recs, done)..] == (Flat(recs) + rest)[Start(recs, done)..]
    requires var dst, len := |Flat(Keep(recs[..done]))|, Start(recs, e) - Start(recs, b);
             && lemmas[..dst + len] == was[..dst] + was[Start(recs, b)..Start(recs, e)]
             && lemmas[dst + len..] == was[dst + len..]
    ensures Sliding(lemmas, recs, rest, e)
    ensures |Flat(Keep(recs[..e]))| == |Flat(Keep(recs[..done]))| + Start(recs, e) - Start(recs, b)
  {
    hide *;
    StepIs(recs, done, b, e);
    FrontRecs(recs, done);
    FrontRecs(recs, e);
    var all := Flat(recs) + rest;
    var sd, sb, se := Start(recs, done), Start(recs, b), Start(recs, e);
    var dst, len := |Flat(Keep(recs[..done]))|, se - sb;
    KeepRun(recs, done, b, e);
    Segment(recs, rest, b, e);
    assert was[sb..se] == was[sd..][sb - sd..se - sd] == all[sd..][sb - sd..se - sd] == all[sb..se];
    assert lemmas[..dst + len] == Flat(Keep(recs[..e]));
    assert lemmas[se..] == lemmas[dst + len..][se - dst - len..] == was[se..];
    assert was[se..] == was[sd..][se - sd..] == all[sd..][se - sd..] == all[se..];
    assert |lemmas[..]| == |all|;
    IsSliding(lemmas, recs, rest, e);
  }

  lemma FrontRecs(recs: seq<Rec>, n: nat)
    requires AllRecs(recs) && n <= |recs|
    ensures AllRecs(recs[..n])
  {}

  // The bytes of the records b..e.
  lemma Segment(recs: seq<Rec>, rest: seq<Byte>, b: nat, e: nat)
    requires AllRecs(recs) && b <= e <= |recs| && Start(recs, b) <= Start(recs, e) <= |Flat(recs) + rest|
    ensures (Flat(recs) + rest)[Start(recs, b)..Start(recs, e)] == Flat(recs[b..e])
  {
    hide Flat;
    assert recs == recs[..b] + recs[b..e] + recs[e..];
    FlatConcat(recs[..b] + recs[b..e], recs[e..]);
    FlatConcat(recs[..b], recs[b..e]);
    assert Flat(recs) + rest == Flat(recs[..b]) + Flat(recs[b..e]) + (Flat(recs[e..]) + rest);
    assert recs[..e] == recs[..b] + recs[b..e];
    SliceMiddle(Flat(recs[..b]), Flat(recs[b..e]), Flat(recs[e..]) + rest);
  }

  lemma IsSliding(lemmas: array<Byte>, recs: seq<Rec>, rest: seq<Byte>, done: nat)
    requires AllRecs(recs) && done <= |recs| && |lemmas[..]| == |Flat(recs) + rest|
    requires |Flat(Keep(recs[..done]))| <= Start(recs, done) <= |Flat(recs)|
    requires lemmas[..|Flat(Keep(recs[..done]))|] == Flat(Keep(recs[..done]))
    requires lemmas[Start(recs, done)..] == (Flat(recs) + rest)[Start(recs, done)..]
    ensures Sliding(lemmas, recs, rest, done)
  {
    hide AllRecs, Flat, Keep, Start;
  }

  // An offset that points to a live record is the settled place of that record;
  // a slot outside the log belongs to an offset that points to no record.
  ghost predicate SettledOne(off: nat, slot: int, recs: seq<Rec>, done: nat)
    requires AllRecs(recs)
  {
    0 <= slot < |recs| && !Dead(recs[slot]) ==> off == Settled(recs, slot, done)
  }

  ghost predicate AllSettled(offs: seq<nat>, slots: seq<int>, recs: seq<Rec>, done: nat) {
    && AllRecs(recs) && |slots| == |offs|
    && forall j :: 0 <= j < |offs| ==> SettledOne(offs[j], slots[j], recs, done)
  }

  lemma RelocateOne(off: nat, slot: int, recs: seq<Rec>, done: nat, b: nat, e: nat)
    requires StepRange(recs, done, b, e) && SettledOne(off, slot, recs, done)
    requires |Flat(Keep(recs[..done]))| <= Start(recs, b)
    ensures SettledOne(Relocate(off, Start(recs, b), Start(recs, e), |Flat(Keep(recs[..done]))|), slot, recs, e)
  {
    if 0 <= slot < |recs| && !Dead(recs[slot]) {
      RelocateSettles(recs, slot, done, b, e);
    }
  }

  // The relocation loop over the index: offsets_, offsets_by_id_ and predicts_.
  method RelocateIndex(offsets0: seq<nat>, byId0: seq<nat>, predicts0: seq<nat>, ids: seq<nat>, startId: nat,
                       begin: nat, end: nat, dst: nat, ghost slots: seq<int>, ghost pslots: seq<int>,
                       ghost recs: seq<Rec>, ghost done: nat, ghost b: nat, ghost e: nat)
    returns (offsets: seq<nat>, byId: seq<nat>, predicts: seq<nat>)
    requires AllSettled(offsets0, slots, recs, done) && AllSettled(predicts0, pslots, recs, done)
    requires |ids| >= |offsets0| == |predicts0| && forall j :: 0 <= j < |ids| ==> startId <= ids[j] < startId + |byId0|
    requires StepRange(recs, done, b, e)
    requires begin == Start(recs, b) && end == Start(recs, e) && dst == |Flat(Keep(recs[..done]))| <= begin
    ensures AllSettled(offsets, slots, recs, e) && AllSettled(predicts, pslots, recs, e) && |byId| == |byId0|
  {
    hide Flat, Keep, Start, Settled;
    offsets, byId, predicts := offsets0, byId0, predicts0;
    for j := 0 to |offsets|
      invariant |offsets| == |offsets0| && |predicts| == |predicts0| && |byId| == |byId0|
      invariant forall i :: 0 <= i < j ==> SettledOne(offsets[i], slots[i], recs, e)
      invariant forall i :: 0 <= i < j ==> SettledOne(predicts[i], pslots[i], recs, e)
      invariant offsets[j..] == offsets0[j..] && predicts[j..] == predicts0[j..]
    {
      assert offsets[j] == offsets[j..][0] == offsets0[j];
      assert predicts[j] == predicts[j..][0] == predicts0[j];
      assert offsets[j + 1..] == offsets[j..][1..] && predicts[j + 1..] == predicts[j..][1..];
      RelocateOne(offsets[j], slots[j], recs, done, b, e);
      if begin <= offsets[j] < end {
        offsets := offsets[j := offsets[j] - (begin - dst)];
        byId := byId[ids[j] - startId := offsets[j]];
      }
      RelocateOne(predicts[j], pslots[j], recs, done, b, e);
      if begin <= predicts[j] < end {
        predicts := predicts[j := predicts[j] - (begin - dst)];
      }
    }
  }

  // The relocation loop over the sync queue.
  method RelocateSyncs(syncs0: seq<nat>, begin: nat, end: nat, dst: nat,
                       ghost slots: seq<int>, ghost recs: seq<Rec>, ghost done: nat, ghost b: nat, ghost e: nat)
    returns (syncs: seq<nat>)
    requires AllSettled(syncs0, slots, recs, done) && StepRange(recs, done, b, e)
    requires begin == Start(recs, b) && end == Start(recs, e) && dst == |Flat(Keep(recs[..done]))| <= begin
    ensures AllSettled(syncs, slots, recs, e)
  {
    hide Flat, Keep, Start, Settled;
    syncs := syncs0;
    for j := 0 to |syncs|
      invariant |syncs| == |syncs0|
      invariant forall i :: 0 <= i < j ==> SettledOne(syncs[i], slots[i], recs, e)
      invariant forall i :: j <= i < |syncs| ==> syncs[i] == syncs0[i]
    {
      RelocateOne(syncs[j], slots[j], recs, done, b, e);
      if begin <= syncs[j] < end {
        syncs := syncs[j := syncs[j] - (begin - dst)];
      }
    }
  }

  lemma SettledAtEnd(offs: seq<nat>, slots: seq<int>, recs: seq<Rec>, done: nat, all: nat)
    requires AllSettled(offs, slots, recs, done) && done <= all <= |recs|
    requires forall k :: done <= k < all ==> Dead(recs[k])
    ensures AllSettled(offs, slots, recs, all)
  {}

  // Before the first gap records stay where they are.
  lemma SettledAtStart(offs: seq<nat>, slots: seq<int>, recs: seq<Rec>, a: nat)
    requires AllSettled(offs, slots, recs, 0) && a <= |recs|
    requires forall k :: 0 <= k < a ==> !Dead(recs[k])
    ensures AllSettled(offs, slots, recs, a) && Keep(recs[..a]) == recs[..a]
  {
    KeepAll(recs[..a]);
    forall j | 0 <= j < |offs|
      ensures SettledOne(offs[j], slots[j], recs, a)
    {
      if 0 <= slots[j] < a {
        KeepAll(recs[..slots[j]]);
      }
    }
  }

  // The offset lists that follow the records.
  datatype Lists = Lists(offsets: seq<nat>, byId: seq<nat>, predicts: seq<nat>, syncs: seq<nat>)

  // Which records they point to.
  datatype Slots = Slots(index: seq<int>, predicts: seq<int>, syncs: seq<int>)

  ghost predicate ListsSettled(ls: Lists, slots: Slots, recs: seq<Rec>, done: nat) {
    && AllSettled(ls.offsets, slots.index, recs, done)
    && AllSettled(ls.predicts, slots.predicts, recs, done)
    && AllSettled(ls.syncs, slots.syncs, recs, done)
  }

  ghost predicate IdsInRange(ids: seq<nat>, startId: nat, ls: Lists) {
    && |ids| >= |ls.offsets| == |ls.predicts|
    && forall j :: 0 <= j < |ids| ==> startId <= ids[j] < startId + |ls.byId|
  }

  // Move the segment [begin..end) down to dst and let the offset lists follow.
  method MoveSegment(lemmas: array<Byte>, begin: nat, end: nat, dst: nat, ls0: Lists, ids: seq<nat>, startId: nat,
                     ghost recs: seq<Rec>, ghost rest: seq<Byte>, ghost slots: Slots, ghost done: nat, ghost b: nat,
                       ghost e: nat)
    returns (ls: Lists)
    requires Sliding(lemmas, recs, rest, done) && StepRange(recs, done, b, e)
    requires begin == Start(recs, b) && end == Start(recs, e) && dst == |Flat(Keep(recs[..done]))|
    requires ListsSettled(ls0, slots, recs, done) && IdsInRange(ids, startId, ls0)
    modifies lemmas
    ensures Sliding(lemmas, recs, rest, e) && |Flat(Keep(recs[..e]))| == dst + end - begin
    ensures ListsSettled(ls, slots, recs, e) && IdsInRange(ids, startId, ls) && |ls.byId| == |ls0.byId|
  {
    hide *;
    StepIs(recs, done, b, e);
    StartMono(recs, done, b);
    StartMono(recs, b, e);
    SlidingFacts(lemmas, recs, rest, done);
    ListsParts(ls0, slots, recs, done, ids, startId);
    ghost var was := lemmas[..];
    MemMove(lemmas, dst, begin, end - begin);
    AfterMove(lemmas, was, recs, rest, done, b, e);
    var offsets, byId, predicts :=
      RelocateIndex(ls0.offsets, ls0.byId, ls0.predicts, ids, startId, begin, end, dst, slots.index, slots.predicts,
                    recs, done, b, e);
    var syncs := RelocateSyncs(ls0.syncs, begin, end, dst, slots.syncs, recs, done, b, e);
    ls := Lists(offsets, byId, predicts, syncs);
    IsLists(ls, slots, recs, e, ids, startId);
  }

  lemma StepIs(recs: seq<Rec>, done: nat, b: nat, e: nat)
    requires StepRange(recs, done, b, e)
    ensures AllRecs(recs) && done <= b <= e <= |recs|
  {
    hide AllRecs, Dead;
  }

  lemma ListsParts(ls: Lists, slots: Slots, recs: seq<Rec>, done: nat, ids: seq<nat>, startId: nat)
    requires ListsSettled(ls, slots, recs, done) && IdsInRange(ids, startId, ls)
    ensures AllSettled(ls.offsets, slots.index, recs, done) && AllSettled(ls.predicts, slots.predicts, recs, done)
    ensures AllSettled(ls.syncs, slots.syncs, recs, done) && |ids| >= |ls.offsets| == |ls.predicts|
    ensures |slots.index| == |ls.offsets| && |slots.predicts| == |ls.predicts|
    ensures forall j :: 0 <= j < |ids| ==> startId <= ids[j] < startId + |ls.byId|
  {
    hide SettledOne;
  }

  lemma IsLists(ls: Lists, slots: Slots, recs: seq<Rec>, done: nat, ids: seq<nat>, startId: nat)
    requires AllSettled(ls.offsets, slots.index, recs, done) && AllSettled(ls.predicts, slots.predicts, recs, done)
    requires AllSettled(ls.syncs, slots.syncs, recs, done) && |ids| >= |slots.index| == |slots.predicts|
    requires forall j :: 0 <= j < |ids| ==> startId <= ids[j] < startId + |ls.byId|
    ensures ListsSettled(ls, slots, recs, done) && IdsInRange(ids, startId, ls)
  {
    hide SettledOne;
  }

  // Last phase: the live records slide down, offset lists and sync queue follow.
  // `gaps` tells whether there was anything to slide over.
  method Slide(lemmas: array<Byte>, realSize: nat, ls0: Lists, ids: seq<nat>, startId: nat,
               ghost recs: seq<Rec>, ghost rest: seq<Byte>, ghost slots: Slots)
    returns (gaps: bool, dst: nat, ls: Lists)
    requires AllRecs(recs) && LogIs(lemmas, recs, rest) && realSize == |Flat(recs)|
    requires ListsSettled(ls0, slots, recs, 0) && IdsInRange(ids, startId, ls0)
    modifies lemmas
    ensures dst == |Flat(Keep(recs))| <= lemmas.Length && lemmas[..dst] == Flat(Keep(recs))
    ensures ListsSettled(ls, slots, recs, |recs|) && IdsInRange(ids, startId, ls) && |ls.byId| == |ls0.byId|
    ensures gaps <==> exists k :: 0 <= k < |recs| && Dead(recs[k])
    ensures !gaps ==> ls == ls0 && lemmas[..] == old(lemmas[..]) && dst == realSize
  {
    hide Sliding, Flat, Keep, Start, ListsSettled, IdsInRange, LogIs, IsRec, RecSize, Dead;
    ls := ls0;
    ghost var done := 0;
    StartSliding(lemmas, recs, rest);
    dst, done := SkipLive(lemmas, 0, realSize, recs, rest, 0, 0);
    ListsSettledAtStart(ls, slots, recs, done);
    SlidingPrefix(lemmas, recs, rest, done);
    if dst >= realSize {
      EndSliding(lemmas, recs, rest, done);
      assert recs[..done] == recs;
      FlatWhole(recs);
      gaps := false;
      return;
    }
    gaps := true;
    assert Dead(recs[done]);
    var end := dst;
    while end < realSize
      invariant done <= |recs| && end == Start(recs, done) && dst == |Flat(Keep(recs[..done]))|
      invariant Sliding(lemmas, recs, rest, done)
      invariant if end < realSize then done < |recs| && Dead(recs[done]) else done == |recs|
      invariant ListsSettled(ls, slots, recs, done) && IdsInRange(ids, startId, ls) && |ls.byId| == |ls0.byId|
      decreases realSize - end
    {
      ReadAt(lemmas, recs, rest, done, done);
      var begin := end + RecSize(lemmas[end + 1]);
      ghost var b, e;
      begin, b := SkipFlagged(lemmas, begin, realSize, recs, rest, done, done + 1);
      if begin >= realSize {
        ListsSettledAtEnd(ls, slots, recs, done);
        break;
      }
      ReadAt(lemmas, recs, rest, done, b);
      end := begin + RecSize(lemmas[begin + 1]);
      end, e := SkipLive(lemmas, end, realSize, recs, rest, done, b + 1);
      StartMono(recs, done, b);
      StartMono(recs, b, e);
      ls := MoveSegment(lemmas, begin, end, dst, ls, ids, startId, recs, rest, slots, done, b, e);
      dst := dst + (end - begin);
      done := e;
    }
    EndSliding(lemmas, recs, rest, done);
  }

  lemma ListsSettledAtStart(ls: Lists, slots: Slots, recs: seq<Rec>, a: nat)
    requires ListsSettled(ls, slots, recs, 0) && a <= |recs|
    requires forall k :: 0 <= k < a ==> !Dead(recs[k])
    ensures ListsSettled(ls, slots, recs, a) && Keep(recs[..a]) == recs[..a]
    ensures Start(recs, a) == |Flat(Keep(recs[..a]))|
  {
    SettledAtStart(ls.offsets, slots.index, recs, a);
    SettledAtStart(ls.predicts, slots.predicts, recs, a);
    SettledAtStart(ls.syncs, slots.syncs, recs, a);
  }

  lemma ListsSettledAtEnd(ls: Lists, slots: Slots, recs: seq<Rec>, done: nat)
    requires ListsSettled(ls, slots, recs, done) && done <= |recs|
    requires forall k :: done <= k < |recs| ==> Dead(recs[k])
    ensures ListsSettled(ls, slots, recs, |recs|)
  {
    SettledAtEnd(ls.offsets, slots.index, recs, done, |recs|);
    SettledAtEnd(ls.predicts, slots.predicts, recs, done, |recs|);
    SettledAtEnd(ls.syncs, slots.syncs, recs, done, |recs|);
  }

  lemma StartSliding(lemmas: array<Byte>, recs: seq<Rec>, rest: seq<Byte>)
    requires AllRecs(recs) && LogIs(lemmas, recs, rest)
    ensures Sliding(lemmas, recs, rest, 0) && Start(recs, 0) == 0
  {
    assert recs[..0] == [];
  }

  lemma SlidingPrefix(lemmas: array<Byte>, recs: seq<Rec>, rest: seq<Byte>, a: nat)
    requires AllRecs(recs) && LogIs(lemmas, recs, rest) && a <= |recs| && Keep(recs[..a]) == recs[..a]
    ensures Sliding(lemmas, recs, rest, a)
  {
    hide Flat, Keep;
    AtEnd(recs, a);
    assert recs == recs[..a] + recs[a..];
    FlatConcat(recs[..a], recs[a..]);
    assert lemmas[..Start(recs, a)] == lemmas[..][..Start(recs, a)];
    assert lemmas[Start(recs, a)..] == lemmas[..][Start(recs, a)..];
  }

  lemma SlidingFacts(lemmas: array<Byte>, recs: seq<Rec>, rest: seq<Byte>, done: nat)
    requires Sliding(lemmas, recs, rest, done)
    ensures lemmas.Length == |Flat(recs) + rest|
    ensures |Flat(Keep(recs[..done]))| <= Start(recs, done) <= |Flat(recs)|
    ensures lemmas[..][..|Flat(Keep(recs[..done]))|] == Flat(Keep(recs[..done]))
    ensures lemmas[..][Start(recs, done)..] == (Flat(recs) + rest)[Start(recs, done)..]
  {}

  lemma EndSliding(lemmas: array<Byte>, recs: seq<Rec>, rest: seq<Byte>, done: nat)
    requires Sliding(lemmas, recs, rest, done)
    requires forall k :: done <= k < |recs| ==> Dead(recs[k])
    ensures Keep(recs) == Keep(recs[..done])
    ensures |Flat(Keep(recs))| <= lemmas.Length && lemmas[..|Flat(Keep(recs))|] == Flat(Keep(recs))
  {
    assert recs == recs[..done] + recs[done..];
    KeepConcat(recs[..done], recs[done..]);
    KeepNone(recs[done..]);
    assert Keep(recs[..done]) + [] == Keep(recs[..done]);
  }
}
