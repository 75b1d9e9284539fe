// What sliding compaction does to a store: the live lemmas keep their order,
// spelling ids, words and scores, and the result is valid with nothing removed.

module UserDefrag {
  import opened Perms
  import opened UserLog
  import opened UserKeys
  import opened UserCompact
  import opened UserStore

  ghost function EntriesOf(st: Store): (es: seq<Entry>)
    requires |st.slot| == |st.offsets| == |st.scores| == |st.ids|
    ensures |es| == |st.slot|
  {
    seq(|st.slot|, i requires 0 <= i < |st.slot| => Entry(st.offsets[i], st.scores[i], st.ids[i], st.slot[i]))
  }

  ghost function PredictsOf(st: Store): (es: seq<Entry>)
    requires |st.pslot| == |st.predicts|
    ensures |es| == |st.pslot|
  {
    seq(|st.pslot|, i requires 0 <= i < |st.pslot| => Entry(st.predicts[i], 0, 0, st.pslot[i]))
  }

  function LemmaAt(recs: seq<Rec>, k: nat): Lemma {
    if k < |recs| && IsRec(recs[k]) then LemmaOf(recs[k]) else Lemma([], [])
  }

  function ViewOf(es: seq<Entry>, recs: seq<Rec>): (v: seq<(Lemma, nat)>)
    ensures |v| == |es|
  {
    seq(|es|, i requires 0 <= i < |es| => (LemmaAt(recs, es[i].slot), es[i].score))
  }

  // What a reader sees of a store: the live lemmas in index order, each with its
  // spelling ids, word and score.
  ghost function View(st: Store): seq<(Lemma, nat)> {
    if |st.slot| == |st.offsets| == |st.scores| == |st.ids| then ViewOf(LiveOf(EntriesOf(st)), st.recs) else []
  }

  // The lemmas waiting in the sync queue.
  ghost function SyncView(st: Store): seq<Lemma> {
    seq(|st.sslot|, i requires 0 <= i < |st.sslot| =>
      if st.sslot[i] >= 0 then LemmaAt(st.recs, st.sslot[i]) else Lemma([], []))
  }

  lemma {:induction false} LiveOfIsLive(es: seq<Entry>, i: nat)
    requires i < |LiveOf(es)|
    ensures !Removed(LiveOf(es)[i].off)
  {
    var p := es[..|es| - 1];
    if i < |LiveOf(p)| {
      LiveOfIsLive(p, i);
    }
  }

  // Live rows keep their order.
  lemma {:induction false} LiveOfOrder(es: seq<Entry>, i: nat, j: nat) returns (a: nat, b: nat)
    requires i < j < |LiveOf(es)|
    ensures a < b < |es| && LiveOf(es)[i] == es[a] && LiveOf(es)[j] == es[b]
  {
    var p := es[..|es| - 1];
    if j < |LiveOf(p)| {
      a, b := LiveOfOrder(p, i, j);
    } else {
      a := LiveOfFrom(p, i);
      b := |es| - 1;
    }
  }

  lemma {:induction false} LiveOfFrom(es: seq<Entry>, i: nat) returns (a: nat)
    requires i < |LiveOf(es)|
    ensures a < |es| && LiveOf(es)[i] == es[a]
  {
    var p := es[..|es| - 1];
    if i < |LiveOf(p)| {
      a := LiveOfFrom(p, i);
    } else {
      a := |es| - 1;
    }
  }

  lemma {:induction false} LiveOfAll(es: seq<Entry>)
    requires forall i :: 0 <= i < |es| ==> !Removed(es[i].off)
    ensures LiveOf(es) == es
  {
    if es != [] {
      LiveOfAll(es[..|es| - 1]);
    }
  }

  lemma SlotIn(es: seq<Entry>, n: nat, k: nat) returns (i: nat)
    requires IsPerm(SlotsOf(es), n) && k < n
    ensures i < |es| && es[i].slot == k
  {
    assert k in SlotsOf(es);
    i :| 0 <= i < |es| && SlotsOf(es)[i] == k;
  }

  // A scan that has looked at every row.
  ghost predicate Scanned(s: Scan) {
    Fixing(s) && s.g == |s.es| && |s.dead| == |s.recs0| && forall k :: 0 <= k < |s.recs0| && Dead(s.recs0[k]) ==>
      s.dead[k]
  }

  lemma ScannedLive(s: Scan, i: nat)
    requires Scanned(s) && i < |s.es|
    ensures s.es[i].slot < |s.recs| == |s.dead| == |s.recs0|
    ensures Removed(s.es[i].off) <==> i >= s.f
    ensures Removed(s.es[i].off) <==> s.dead[s.es[i].slot]
    ensures s.es0[..|s.es|] == s.es0 && s.es[..s.f] == LiveOf(s.es0)
    ensures i >= s.f ==> Dead(s.recs[s.es[i].slot])
    ensures i < s.f ==> s.recs[s.es[i].slot] == s.recs0[s.es[i].slot] && Off(s.es[i].off) == Start(s.recs, s.es[i].slot)
  {
    hide Flat, Start, LiveOf, IsPerm, Mark;
    assert s.es0[..|s.es|] == s.es0;
    if i < s.f {
      LiveOfIsLive(s.es0, i);
      assert s.es[i] == s.es[..s.f][i] == LiveOf(s.es0)[i];
    }
  }

  // After the scan exactly the dead records carry the flag.
  lemma DeadExactly(s: Scan, k: nat)
    requires Scanned(s) && k < |s.recs|
    ensures |s.dead| == |s.recs| == |s.recs0|
    ensures Dead(s.recs[k]) <==> s.dead[k]
    ensures !s.dead[k] ==> s.recs[k] == s.recs0[k]
  {
    var i := SlotIn(s.es, |s.recs|, k);
    ScannedLive(s, i);
    hide Flat, Start, LiveOf, IsPerm, Mark;
  }

  ghost predicate LiveSlots(recs: seq<Rec>, slots: seq<nat>) {
    AllRecs(recs) && forall i :: 0 <= i < |slots| ==> slots[i] < |recs| && !Dead(recs[slots[i]])
  }

  ghost function RanksOf(recs: seq<Rec>, slots: seq<nat>): (r: seq<nat>)
    requires LiveSlots(recs, slots)
    ensures |r| == |slots|
  {
    seq(|slots|, i requires 0 <= i < |slots| => Rank(recs, slots[i]))
  }

  lemma RankInjective(recs: seq<Rec>, j: nat, k: nat)
    requires AllRecs(recs) && j < |recs| && k < |recs| && !Dead(recs[j]) && !Dead(recs[k])
    ensures Rank(recs, j) == Rank(recs, k) ==> j == k
  {
    KeptAt(recs, j);
    KeptAt(recs, k);
    if j < k {
      RankMono(recs, j + 1, k);
    } else if k < j {
      RankMono(recs, k + 1, j);
    }
  }

  // The live slots, renumbered, list the kept records.
  lemma RanksPerm(recs: seq<Rec>, slots: seq<nat>)
    requires LiveSlots(recs, slots) && Distinct(slots)
    requires forall k: nat :: k < |recs| && !Dead(recs[k]) ==> k in slots
    ensures IsPerm(RanksOf(recs, slots), |Keep(recs)|) && |slots| == |Keep(recs)|
  {
    hide Keep, Rank, IsRec, Dead;
    var rs := RanksOf(recs, slots);
    forall i, j | 0 <= i < j < |rs|
      ensures rs[i] != rs[j]
    {
      RankInjective(recs, slots[i], slots[j]);
    }
    forall i | 0 <= i < |rs|
      ensures rs[i] < |Keep(recs)|
    {
      KeptAt(recs, slots[i]);
    }
    forall r: nat | r < |Keep(recs)|
      ensures r in rs
    {
      var k := RankOnto(recs, r);
      assert k in slots;
      var i :| 0 <= i < |slots| && slots[i] == k;
      assert rs[i] == r;
    }
    PermLength(rs, |Keep(recs)|);
  }

  lemma ScannedSlots(s: Scan)
    requires Scanned(s)
    ensures s.f <= |s.es|
    ensures LiveSlots(s.recs, SlotsOf(s.es[..s.f])) && Distinct(SlotsOf(s.es[..s.f]))
    ensures forall k: nat :: k < |s.recs| && !Dead(s.recs[k]) ==> k in SlotsOf(s.es[..s.f])
  {
    var slots := SlotsOf(s.es[..s.f]);
    forall i | 0 <= i < |slots|
      ensures slots[i] < |s.recs| && !Dead(s.recs[slots[i]])
    {
      ScannedLive(s, i);
    }
    assert Distinct(slots) by {
      assert slots == SlotsOf(s.es)[..s.f];
    }
    forall k: nat | k < |s.recs| && !Dead(s.recs[k])
      ensures k in slots
    {
      var i := SlotIn(s.es, |s.recs|, k);
      ScannedLive(s, i);
      assert slots[i] == k;
    }
  }

  function AllFalse(n: nat): (r: seq<bool>)
    ensures |r| == n
  {
    seq(n, _ => false)
  }

  lemma {:induction false} NothingDead(recs: seq<Rec>)
    ensures CountDead(AllFalse(|recs|)) == 0 && DeadBytes(recs, AllFalse(|recs|)) == 0
  {
    if recs != [] {
      NothingDead(recs[..|recs| - 1]);
      assert AllFalse(|recs|)[..|recs| - 1] == AllFalse(|recs| - 1);
    }
  }

  // Where the records of the sync queue went; -1 for those that are gone.
  ghost function SyncRanks(recs: seq<Rec>, sslot: seq<int>): (r: seq<int>)
    requires AllRecs(recs) && forall i :: 0 <= i < |sslot| ==> sslot[i] < |recs|
    ensures |r| == |sslot|
  {
    seq(|sslot|, i requires 0 <= i < |sslot| =>
      if 0 <= sslot[i] && !Dead(recs[sslot[i]]) then Rank(recs, sslot[i]) else -1)
  }

  // The store after compaction: s and t are the finished scans over index and
  // predicts, ls the relocated lists.
  ghost function Compacted(st: Store, s: Scan, t: Scan, ls: Lists): Store
    requires Scanned(s) && Scanned(t) && t.recs == s.recs
    requires LiveSlots(s.recs, SlotsOf(s.es[..s.f])) && LiveSlots(s.recs, SlotsOf(t.es[..t.f]))
    requires forall i :: 0 <= i < |st.sslot| ==> st.sslot[i] < |s.recs|
  {
    var recs := Keep(s.recs);
    Store(recs, AllFalse(|recs|),
          ls.offsets, seq(s.f, i requires 0 <= i < s.f => s.es[i].score), seq(s.f, i => st.startId + i),
          RanksOf(s.recs, SlotsOf(s.es[..s.f])),
          ls.predicts, RanksOf(s.recs, SlotsOf(t.es[..t.f])),
          ls.syncs, SyncRanks(s.recs, st.sslot),
          ls.byId, st.startId, 0, 0)
  }

  // The situation in which the last phase of defragment ends.
  ghost predicate Finished(sp: Spellings, st: Store, s: Scan, t: Scan, ls: Lists) {
    && ValidStore(sp, st)
    && Scanned(s) && s.es0 == EntriesOf(st) && s.recs0 == st.recs && s.dead == st.dead
    && Scanned(t) && t.recs == s.recs
    && AllSettled(ls.offsets, SlotsOf(s.es[..s.f]), s.recs, |s.recs|)
    && AllSettled(ls.predicts, SlotsOf(t.es[..t.f]), s.recs, |s.recs|)
    && AllSettled(ls.syncs, st.sslot, s.recs, |s.recs|)
    && s.f <= |ls.byId| && forall i :: 0 <= i < s.f ==> ls.byId[i] == ls.offsets[i]
  }

  lemma SettledIsStart(recs: seq<Rec>, k: nat)
    requires AllRecs(recs) && k < |recs| && !Dead(recs[k]) && Start(recs, k) <= OFFSET_MASK
    ensures Rank(recs, k) < |Keep(recs)| && Keep(recs)[Rank(recs, k)] == recs[k]
    ensures Settled(recs, k, |recs|) == Start(Keep(recs), Rank(recs, k)) <= OFFSET_MASK
  {
    KeptAt(recs, k);
    KeepIsRecs(recs[..k]);
    hide Keep, Flat, IsRec;
  }

  lemma PointingCompacted(offs: seq<nat>, slots: seq<nat>, recs: seq<Rec>)
    requires AllSettled(offs, slots, recs, |recs|) && LiveSlots(recs, slots)
    requires forall k :: 0 <= k < |recs| ==> Start(recs, k) <= OFFSET_MASK
    ensures Pointing(offs, RanksOf(recs, slots), Keep(recs), AllFalse(|Keep(recs)|))
  {
    hide Keep, Rank, Start, Settled, IsRec, Dead, Flat;
    forall i | 0 <= i < |offs|
      ensures var r := Rank(recs, slots[i]);
              r < |Keep(recs)| && offs[i] == Start(Keep(recs), r) && !Removed(offs[i])
    {
      assert SettledOne(offs[i], slots[i], recs, |recs|);
      SettledIsStart(recs, slots[i]);
    }
  }

  lemma StartsBelowMask(sp: Spellings, st: Store, s: Scan)
    requires LogOk(sp, st) && Fixing(s) && s.recs0 == st.recs
    ensures |s.recs| == |st.recs| && AllRecs(s.recs)
    ensures forall k :: 0 <= k < |s.recs| ==> Start(s.recs, k) <= OFFSET_MASK
  {
    hide Start, Flat, LiveOf, IsPerm, Mark, IsRec, Dead, Points;
  }

  lemma CompactedLog(sp: Spellings, st: Store, s: Scan)
    requires ValidStore(sp, st) && Scanned(s) && s.recs0 == st.recs && s.dead == st.dead
    ensures var recs := Keep(s.recs);
            && AllRecs(recs)
            && (forall r :: 0 <= r < |recs| ==>
                 !Dead(recs[r]) && Start(recs, r) <= OFFSET_MASK && FullIds(sp, RecIds(recs[r])))
  {
    StartsBelowMask(sp, st, s);
    hide Keep, Rank, Start, IsRec, Dead, Flat, FullIds, Fixing, SortedOk, UniqueOk, IdsOk, FreeOk, SyncShape, IndexOk;
    KeepIsRecs(s.recs);
    forall r | 0 <= r < |Keep(s.recs)|
      ensures IsRec(Keep(s.recs)[r])
      ensures Start(Keep(s.recs), r) <= OFFSET_MASK && FullIds(sp, RecIds(Keep(s.recs)[r]))
    {
      var k := RankOnto(s.recs, r);
      DeadExactly(s, k);
      SettledIsStart(s.recs, k);
    }
  }

  // Position i of the compacted index holds the record that the i-th live row held.
  lemma CompactedAt(sp: Spellings, st: Store, s: Scan, i: nat)
    requires ValidStore(sp, st) && Scanned(s) && s.recs0 == st.recs && s.dead == st.dead && i < s.f
    ensures i < |s.es| && s.es[i].slot < |s.recs| == |st.recs| && !Dead(s.recs[s.es[i].slot])
    ensures Rank(s.recs, s.es[i].slot) < |Keep(s.recs)|
    ensures Keep(s.recs)[Rank(s.recs, s.es[i].slot)] == s.recs[s.es[i].slot] == st.recs[s.es[i].slot]
  {
    hide Keep, Rank, Start, IsRec, Dead, Flat, FullIds, SortedOk, UniqueOk, IdsOk, FreeOk, SyncShape, IndexOk, LogOk;
    hide LiveOf, IsPerm, Points;
    ScannedLive(s, i);
    DeadExactly(s, s.es[i].slot);
    KeptAt(s.recs, s.es[i].slot);
  }

  lemma FinishedSlots(sp: Spellings, st: Store, s: Scan, t: Scan, ls: Lists)
    requires Finished(sp, st, s, t, ls)
    ensures LiveSlots(s.recs, SlotsOf(s.es[..s.f])) && LiveSlots(s.recs, SlotsOf(t.es[..t.f]))
    ensures |s.recs| == |st.recs| && forall i :: 0 <= i < |st.sslot| ==> st.sslot[i] < |s.recs|
    ensures s.f == t.f == |Keep(s.recs)| == |ls.offsets| == |ls.predicts|
    ensures IsPerm(RanksOf(s.recs, SlotsOf(s.es[..s.f])), |Keep(s.recs)|)
    ensures IsPerm(RanksOf(s.recs, SlotsOf(t.es[..t.f])), |Keep(s.recs)|)
  {
    ScannedSlots(s);
    ScannedSlots(t);
    RanksPerm(s.recs, SlotsOf(s.es[..s.f]));
    RanksPerm(s.recs, SlotsOf(t.es[..t.f]));
  }

  // Fresh ids in index order.
  lemma FreshIds(st: Store)
    requires Pointing(st.offsets, st.slot, st.recs, st.dead) && |st.ids| == |st.offsets| <= |st.byId|
    requires forall i :: 0 <= i < |st.ids| ==> st.ids[i] == st.startId + i && st.byId[i] == st.offsets[i]
    ensures IdsOk(st)
  {
    hide Start, Off;
  }

  lemma CompactedIndex(sp: Spellings, st: Store, s: Scan, t: Scan, ls: Lists)
    requires Finished(sp, st, s, t, ls)
    requires LiveSlots(s.recs, SlotsOf(s.es[..s.f])) && LiveSlots(s.recs, SlotsOf(t.es[..t.f]))
    requires forall i :: 0 <= i < |st.sslot| ==> st.sslot[i] < |s.recs|
    ensures IndexOk(Compacted(st, s, t, ls)) && IdsOk(Compacted(st, s, t, ls)) && FreeOk(Compacted(st, s, t, ls))
  {
    FinishedSlots(sp, st, s, t, ls);
    StartsBelowMask(sp, st, s);
    PointingCompacted(ls.offsets, SlotsOf(s.es[..s.f]), s.recs);
    PointingCompacted(ls.predicts, SlotsOf(t.es[..t.f]), s.recs);
    NothingDead(Keep(s.recs));
    assert s.f <= |ls.byId| && forall i :: 0 <= i < s.f ==> ls.byId[i] == ls.offsets[i];
    hide Finished, Keep, Scanned, LiveSlots, RanksOf, SlotsOf, SyncRanks, Pointing, IsPerm, CountDead, DeadBytes;
    hide Scanned, IdsOk;
    FreshIds(Compacted(st, s, t, ls));
  }

  lemma CompactedSorted(sp: Spellings, st: Store, s: Scan, i: nat, j: nat)
    requires ValidStore(sp, st) && Scanned(s) && s.es0 == EntriesOf(st) && s.recs0 == st.recs && s.dead == st.dead
    requires i < j < s.f
    ensures s.f <= |s.es| && s.es[i].slot < |st.recs| && s.es[j].slot < |st.recs|
    ensures IsRec(st.recs[s.es[i].slot]) && IsRec(st.recs[s.es[j].slot])
    ensures FullIds(sp, RecIds(st.recs[s.es[i].slot])) && FullIds(sp, RecIds(st.recs[s.es[j].slot]))
    ensures CmpKey(KeyAtSlot(sp, st.recs, s.es[i].slot), KeyAtSlot(sp, st.recs, s.es[j].slot)) <= 0
  {
    hide Keep, Rank, Start, Dead, Flat, FullIds, UniqueOk, SyncShape, IsPerm, Points, IdsOk, FreeOk, CmpKey;
    hide KeyAtSlot, Fixing, LiveOf;
    ScannedPrefix(s);
    ScannedLive(s, i);
    ScannedLive(s, j);
    var a, b := LiveOfOrder(s.es0, i, j);
    assert s.es[i] == s.es[..s.f][i] && s.es[j] == s.es[..s.f][j];
    assert s.es0[a].slot == st.slot[a] && s.es0[b].slot == st.slot[b];
  }

  lemma ScannedPrefix(s: Scan)
    requires Scanned(s)
    ensures s.f <= |s.es| && s.es[..s.f] == LiveOf(s.es0)
  {
    assert s.es0[..|s.es|] == s.es0;
  }

  lemma CompactedUnique(sp: Spellings, st: Store, s: Scan, a: nat, b: nat)
    requires ValidStore(sp, st) && Scanned(s) && s.recs0 == st.recs && s.dead == st.dead
    requires a < b < |Keep(s.recs)|
    ensures IsRec(Keep(s.recs)[a]) && IsRec(Keep(s.recs)[b])
    ensures LemmaOf(Keep(s.recs)[a]) != LemmaOf(Keep(s.recs)[b])
  {
    hide Keep, Rank, Start, Dead, Flat, FullIds, SyncShape, IsPerm, Points, IdsOk, FreeOk, SortedOk, LemmaOf, LiveOf;
    hide SlotsOf;
    var j := RankOnto(s.recs, a);
    var k := RankOnto(s.recs, b);
    DeadExactly(s, j);
    DeadExactly(s, k);
    KeptAt(s.recs, j);
    KeptAt(s.recs, k);
  }

  lemma CompactedSync(sp: Spellings, st: Store, s: Scan, t: Scan, ls: Lists)
    requires Finished(sp, st, s, t, ls)
    requires LiveSlots(s.recs, SlotsOf(s.es[..s.f])) && LiveSlots(s.recs, SlotsOf(t.es[..t.f]))
    requires forall i :: 0 <= i < |st.sslot| ==> st.sslot[i] < |s.recs|
    ensures SyncShape(Compacted(st, s, t, ls))
    ensures SyncOk(st) ==> SyncOk(Compacted(st, s, t, ls))
    ensures SyncOk(st) ==> forall i :: 0 <= i < |st.sslot| ==>
      && 0 <= st.sslot[i] && 0 <= SyncRanks(s.recs, st.sslot)[i] < |Keep(s.recs)|
      && Keep(s.recs)[SyncRanks(s.recs, st.sslot)[i]] == st.recs[st.sslot[i]]
  {
    var st' := Compacted(st, s, t, ls);
    assert st'.recs == Keep(s.recs) && st'.dead == AllFalse(|Keep(s.recs)|);
    assert st'.syncs == ls.syncs && st'.sslot == SyncRanks(s.recs, st.sslot);
    hide Finished, SyncShape, SyncOk, SyncRanks, SyncMoved, LiveSlots, RanksOf, Scanned, Keep, Compacted;
    SyncSizes(sp, st, s, t, ls);
    forall i | 0 <= i < |st.sslot| && 0 <= st.sslot[i]
      ensures SyncMoved(st, s, ls, i)
    {
      CompactedSyncAt(sp, st, s, t, ls, i);
    }
    SyncFromMoved(st, s, ls, st');
  }

  lemma SyncSizes(sp: Spellings, st: Store, s: Scan, t: Scan, ls: Lists)
    requires Finished(sp, st, s, t, ls)
    ensures AllRecs(s.recs) && |st.dead| == |s.recs| == |st.recs| && |st.sslot| == |ls.syncs|
  {
    hide LogOk, IdsOk, FreeOk, SortedOk, UniqueOk, IsPerm;
  }

  lemma SyncFromMoved(st: Store, s: Scan, ls: Lists, st': Store)
    requires AllRecs(s.recs) && |st.dead| == |s.recs| == |st.recs| && |st.sslot| == |ls.syncs|
    requires forall i :: 0 <= i < |st.sslot| ==> st.sslot[i] < |s.recs|
    requires forall i :: 0 <= i < |st.sslot| && 0 <= st.sslot[i] ==> SyncMoved(st, s, ls, i)
    requires st'.recs == Keep(s.recs) && st'.dead == AllFalse(|Keep(s.recs)|)
    requires st'.syncs == ls.syncs && st'.sslot == SyncRanks(s.recs, st.sslot)
    ensures SyncShape(st')
    ensures SyncOk(st) ==> SyncOk(st')
    ensures SyncOk(st) ==> forall i :: 0 <= i < |st.sslot| ==>
      && 0 <= st.sslot[i] && 0 <= SyncRanks(s.recs, st.sslot)[i] < |Keep(s.recs)|
      && Keep(s.recs)[SyncRanks(s.recs, st.sslot)[i]] == st.recs[st.sslot[i]]
  {
    hide Keep, Rank, Start, IsRec, Dead;
  }

  ghost predicate SyncMoved(st: Store, s: Scan, ls: Lists, i: nat)
    requires AllRecs(s.recs) && |st.dead| == |s.recs| == |st.recs|
    requires i < |st.sslot| == |ls.syncs| && 0 <= st.sslot[i] < |s.recs|
  {
    var k := st.sslot[i];
    && (Dead(s.recs[k]) <==> st.dead[k])
    && (!Dead(s.recs[k]) ==>
      && Rank(s.recs, k) < |Keep(s.recs)| && Keep(s.recs)[Rank(s.recs, k)] == st.recs[k]
      && ls.syncs[i] == Start(Keep(s.recs), Rank(s.recs, k)))
  }

  lemma CompactedSyncAt(sp: Spellings, st: Store, s: Scan, t: Scan, ls: Lists, i: nat)
    requires Finished(sp, st, s, t, ls) && i < |st.sslot| && 0 <= st.sslot[i]
    ensures AllRecs(s.recs) && |st.dead| == |s.recs| == |st.recs| && |st.sslot| == |ls.syncs| && st.sslot[i] < |s.recs|
    ensures SyncMoved(st, s, ls, i)
  {
    StartsBelowMask(sp, st, s);
    hide Keep, Rank, Start, IsRec, Dead, Flat, FullIds, SortedOk, UniqueOk, LogOk, LiveOf, Points, Fixing, Settled;
    hide IsPerm, IndexOk, IdsOk;
    DeadExactly(s, st.sslot[i]);
    assert SettledOne(ls.syncs[i], st.sslot[i], s.recs, |s.recs|);
    if !Dead(s.recs[st.sslot[i]]) {
      SettledIsStart(s.recs, st.sslot[i]);
    }
  }

  lemma CompactedIsValid(sp: Spellings, st: Store, s: Scan, t: Scan, ls: Lists)
    requires Finished(sp, st, s, t, ls)
    requires LiveSlots(s.recs, SlotsOf(s.es[..s.f])) && LiveSlots(s.recs, SlotsOf(t.es[..t.f]))
    requires forall i :: 0 <= i < |st.sslot| ==> st.sslot[i] < |s.recs|
    ensures ValidStore(sp, Compacted(st, s, t, ls))
  {
    var st' := Compacted(st, s, t, ls);
    CompactedLog(sp, st, s);
    CompactedIndex(sp, st, s, t, ls);
    CompactedSync(sp, st, s, t, ls);
    FinishedSlots(sp, st, s, t, ls);
    hide Keep, Rank, Start, IsRec, Dead, Flat, FullIds, LiveOf, Points, Fixing, Settled, IsPerm, IdsOk, FreeOk;
    hide SyncShape, LemmaOf, AllSettled, CmpKey, Pointing;
    assert SortedOk(sp, st') by {
      forall i, j | 0 <= i < j < |st'.slot|
        ensures CmpKey(KeyAtSlot(sp, st'.recs, st'.slot[i]), KeyAtSlot(sp, st'.recs, st'.slot[j])) <= 0
      {
        CompactedSorted(sp, st, s, i, j);
        CompactedAt(sp, st, s, i);
        CompactedAt(sp, st, s, j);
      }
    }
    assert UniqueOk(sp, st') by {
      forall a, b | 0 <= a < b < |st'.recs|
        ensures LemmaOf(st'.recs[a]) != LemmaOf(st'.recs[b])
      {
        CompactedUnique(sp, st, s, a, b);
      }
    }
  }

  lemma CompactedRow(sp: Spellings, st: Store, s: Scan, t: Scan, ls: Lists, st': Store, i: nat)
    requires Finished(sp, st, s, t, ls)
    requires LiveSlots(s.recs, SlotsOf(s.es[..s.f])) && LiveSlots(s.recs, SlotsOf(t.es[..t.f]))
    requires forall i :: 0 <= i < |st.sslot| ==> st.sslot[i] < |s.recs|
    requires st' == Compacted(st, s, t, ls) && i < s.f == |st'.slot| && |LiveOf(EntriesOf(st))| == s.f
    ensures i < |st'.scores|
    ensures (LemmaAt(st'.recs, st'.slot[i]), st'.scores[i]) == ViewOf(LiveOf(EntriesOf(st)), st.recs)[i]
  {
    CompactedAt(sp, st, s, i);
    ScannedPrefix(s);
    assert s.es[i] == LiveOf(s.es0)[i];
    hide Keep, Rank, Start, IsRec, Dead, Flat, Points, Fixing, IsPerm, IdsOk, FreeOk, SyncShape, LemmaOf, AllSettled;
    hide SortedOk, UniqueOk, LogOk, LiveOf, LiveSlots;
  }

  // Compaction shows the same lemmas in the same order, and leaves none removed.
  lemma CompactedView(sp: Spellings, st: Store, s: Scan, t: Scan, ls: Lists, st': Store)
    requires Finished(sp, st, s, t, ls)
    requires LiveSlots(s.recs, SlotsOf(s.es[..s.f])) && LiveSlots(s.recs, SlotsOf(t.es[..t.f]))
    requires forall i :: 0 <= i < |st.sslot| ==> st.sslot[i] < |s.recs|
    requires st' == Compacted(st, s, t, ls) && IndexOk(st')
    ensures View(st') == View(st)
    ensures forall i :: 0 <= i < |st'.offsets| ==> !Removed(st'.offsets[i])
  {
    hide *;
    CompactedSizes(sp, st, s, t, ls, st');
    NoneRemoved(st');
    LiveOfAll(EntriesOf(st'));
    ViewIs(st);
    ViewIs(st');
    var v, v' := ViewOf(LiveOf(EntriesOf(st)), st.recs), View(st');
    forall i | 0 <= i < s.f
      ensures v'[i] == v[i]
    {
      CompactedRow(sp, st, s, t, ls, st', i);
      ViewRow(st', i);
    }
    assert v == v';
  }

  lemma CompactedSizes(sp: Spellings, st: Store, s: Scan, t: Scan, ls: Lists, st': Store)
    requires Finished(sp, st, s, t, ls)
    requires LiveSlots(s.recs, SlotsOf(s.es[..s.f])) && LiveSlots(s.recs, SlotsOf(t.es[..t.f]))
    requires forall i :: 0 <= i < |st.sslot| ==> st.sslot[i] < |s.recs|
    requires st' == Compacted(st, s, t, ls)
    ensures |st.slot| == |st.offsets| == |st.scores| == |st.ids| && |LiveOf(EntriesOf(st))| == s.f
    ensures |st'.slot| == s.f && st'.dead == AllFalse(|st'.recs|)
  {
    FinishedSlots(sp, st, s, t, ls);
    ScannedPrefix(s);
    hide ViewOf, LiveOf, IndexOk, LogOk, SortedOk, SlotsOf, LiveSlots, Fixing, AllSettled, Keep;
  }

  lemma ViewIs(st: Store)
    requires |st.slot| == |st.offsets| == |st.scores| == |st.ids|
    ensures View(st) == ViewOf(LiveOf(EntriesOf(st)), st.recs) && |EntriesOf(st)| == |st.slot|
  {
    hide ViewOf, LiveOf;
  }

  lemma ViewRow(st: Store, i: nat)
    requires |st.slot| == |st.offsets| == |st.scores| == |st.ids| && i < |st.slot|
    requires LiveOf(EntriesOf(st)) == EntriesOf(st)
    ensures View(st)[i] == (LemmaAt(st.recs, st.slot[i]), st.scores[i])
  {
    hide LiveOf, LemmaAt;
  }

  lemma CompactedSyncView(sp: Spellings, st: Store, s: Scan, t: Scan, ls: Lists, st': Store)
    requires Finished(sp, st, s, t, ls) && SyncOk(st)
    requires LiveSlots(s.recs, SlotsOf(s.es[..s.f])) && LiveSlots(s.recs, SlotsOf(t.es[..t.f]))
    requires forall i :: 0 <= i < |st.sslot| ==> st.sslot[i] < |s.recs|
    requires st' == Compacted(st, s, t, ls)
    ensures SyncView(st') == SyncView(st)
  {
    CompactedSync(sp, st, s, t, ls);
    hide Finished, Scanned, LiveSlots, Keep, RanksOf, SyncRanks, LemmaOf, IsRec;
  }

  lemma NoneRemoved(st: Store)
    requires IndexOk(st) && st.dead == AllFalse(|st.recs|)
    ensures |st.slot| == |st.offsets| == |st.scores| == |st.ids|
    ensures forall i :: 0 <= i < |st.offsets| ==> !Removed(st.offsets[i])
    ensures forall i :: 0 <= i < |EntriesOf(st)| ==> !Removed(EntriesOf(st)[i].off)
  {
    hide Start, IsPerm, Off;
  }

  // ---- Before and around the scans ----

  ghost function IndexScan(st: Store): Scan
    requires |st.slot| == |st.offsets| == |st.scores| == |st.ids|
  {
    Scan(EntriesOf(st), st.recs, st.dead, EntriesOf(st), st.recs, 0, 0)
  }

  lemma StartIndexScan(sp: Spellings, st: Store)
    requires ValidStore(sp, st)
    ensures |st.slot| == |st.offsets| == |st.scores| == |st.ids|
    ensures Fixing(IndexScan(st)) && Rows(st.offsets, st.scores, st.ids, EntriesOf(st))
  {
    hide Start, Flat, IsRec, Dead, FullIds, IsPerm, SortedOk, UniqueOk, SyncShape, IdsOk, FreeOk;
    assert SlotsOf(EntriesOf(st)) == st.slot;
  }

  ghost function PredictScan(st: Store, s: Scan): Scan
    requires |st.pslot| == |st.predicts|
  {
    Scan(PredictsOf(st), s.recs, st.dead, PredictsOf(st), s.recs, 0, 0)
  }

  lemma StartPredictScan(sp: Spellings, st: Store, s: Scan)
    requires ValidStore(sp, st) && Scanned(s) && s.recs0 == st.recs && s.dead == st.dead
    ensures |st.pslot| == |st.predicts| && Column(st.predicts, PredictsOf(st))
    ensures Fixing(PredictScan(st, s)) && DeadFlagged(PredictScan(st, s))
    ensures forall k :: 0 <= k < |s.recs| && Dead(s.recs[k]) ==> s.dead[k]
  {
    assert SlotsOf(PredictsOf(st)) == st.pslot;
    forall k | 0 <= k < |s.recs|
      ensures Dead(s.recs[k]) <==> s.dead[k]
    {
      DeadExactly(s, k);
    }
    hide Start, Flat, IsRec, Dead, FullIds, IsPerm, SortedOk, UniqueOk, SyncShape, IdsOk, FreeOk, SlotsOf;
  }

  lemma ScannedStart(sp: Spellings, st: Store, s: Scan)
    requires ValidStore(sp, st) && Fixing(s) && s.g == |s.es| && s.recs0 == st.recs && s.dead == st.dead
    ensures Scanned(s)
  {
    hide Start, Flat, IsRec, Dead, FullIds, IsPerm, SortedOk, UniqueOk, SyncShape, IdsOk, FreeOk, Points;
  }

  // Without a removed record the scans change nothing.
  lemma NothingToDo(s: Scan)
    requires Scanned(s) && forall k :: 0 <= k < |s.recs| ==> !Dead(s.recs[k])
    ensures s.es == s.es0 && s.f == |s.es| && s.recs == s.recs0
    ensures forall k :: 0 <= k < |s.dead| ==> !s.dead[k]
  {
    if s.f < |s.es| {
      ScannedLive(s, s.f);
    }
    ScannedPrefix(s);
    forall i | 0 <= i < |s.es0|
      ensures !Removed(s.es0[i].off)
    {
      OffLive(s, i);
    }
    LiveOfAll(s.es0);
    forall k | 0 <= k < |s.recs|
      ensures s.recs[k] == s.recs0[k] && !s.dead[k]
    {
      DeadExactly(s, k);
    }
  }

  // Every row of the old list is live if no record is dead.
  lemma OffLive(s: Scan, i: nat)
    requires Scanned(s) && i < |s.es0| && s.f == |s.es|
    ensures !Removed(s.es0[i].off)
  {
    ScannedPrefix(s);
    assert s.es[..s.f] == s.es;
    if Removed(s.es0[i].off) {
      LiveOfShort(s.es0, i);
    }
  }

  lemma {:induction false} LiveOfShort(es: seq<Entry>, i: nat)
    requires i < |es|
    ensures |LiveOf(es)| <= |es|
    ensures Removed(es[i].off) ==> |LiveOf(es)| < |es|
  {
    var m := |es| - 1;
    if m > 0 {
      LiveOfShort(es[..m], if i < m then i else 0);
    }
  }
}
