// Glue between the scans of defragment, its slide and the compacted store.

module UserSlide {
  import opened Perms
  import opened UserLog
  import opened UserKeys
  import opened UserCompact
  import opened UserStore
  import opened UserDefrag
  import opened UserReload
  import opened UserSearch

  // Both scans of defragment have ended: s over the index, t over predicts.
  ghost predicate BothScanned(sp: Spellings, st: Store, s: Scan, t: Scan) {
    && ValidStore(sp, st) && |st.pslot| == |st.predicts|
    && Scanned(s) && s.es0 == EntriesOf(st) && s.recs0 == st.recs && s.dead == st.dead
    && Scanned(t) && t.es0 == PredictsOf(st) && t.recs == s.recs && t.recs0 == s.recs && t.dead == st.dead
  }

  lemma ScannedBoth(sp: Spellings, st: Store, s: Scan, t: Scan)
    requires ValidStore(sp, st) && |st.pslot| == |st.predicts|
    requires Scanned(s) && s.es0 == EntriesOf(st) && s.recs0 == st.recs && s.dead == st.dead
    requires Fixing(t) && t.g == |t.es| && t.es0 == PredictsOf(st) && t.recs == s.recs && t.recs0 == s.recs
    requires t.dead == st.dead
    ensures BothScanned(sp, st, s, t)
  {
    hide Fixing, ValidStore, Dead;
    DeadSizes(s);
    forall k | 0 <= k < |t.recs0| && Dead(t.recs0[k])
      ensures t.dead[k]
    {
      DeadExactly(s, k);
    }
  }

  lemma DeadSizes(s: Scan)
    requires Scanned(s)
    ensures |s.dead| == |s.recs0| == |s.recs|
  {}

  // The live rows of a finished scan point where their records start.
  lemma LiveSettled(s: Scan, offs: seq<nat>)
    requires Scanned(s) && |offs| == s.f <= |s.es| && forall i :: 0 <= i < s.f ==> offs[i] == s.es[i].off
    ensures AllSettled(offs, SlotsOf(s.es[..s.f]), s.recs, 0)
  {
    hide Start, Flat, Keep, LiveOf, IsPerm;
    forall j | 0 <= j < |offs|
      ensures SettledOne(offs[j], SlotsOf(s.es[..s.f])[j], s.recs, 0)
    {
      ScannedLive(s, j);
    }
  }

  lemma SyncsSettled(sp: Spellings, st: Store, s: Scan)
    requires ValidStore(sp, st) && Scanned(s) && s.recs0 == st.recs && s.dead == st.dead
    ensures AllSettled(st.syncs, st.sslot, s.recs, 0)
  {
    forall j | 0 <= j < |st.syncs|
      ensures SettledOne(st.syncs[j], st.sslot[j], s.recs, 0)
    {
      if 0 <= st.sslot[j] {
        DeadExactly(s, st.sslot[j]);
      }
    }
    hide Start, Flat, Keep, LiveOf, IsPerm, Points, SortedOk, UniqueOk, IdsOk, FreeOk, LogOk, IndexOk;
  }

  lemma {:induction false} LiveIds(es: seq<Entry>, lo: nat, hi: nat)
    requires forall i :: 0 <= i < |es| ==> lo <= es[i].id < hi
    ensures forall i :: 0 <= i < |LiveOf(es)| ==> lo <= LiveOf(es)[i].id < hi
  {
    forall i | 0 <= i < |LiveOf(es)|
      ensures lo <= LiveOf(es)[i].id < hi
    {
      var a := LiveOfFrom(es, i);
    }
  }

  lemma SameLive(s: Scan, t: Scan)
    requires Scanned(s) && Scanned(t) && s.recs == t.recs
    ensures s.f == t.f <= |s.es| && t.f <= |t.es|
  {
    hide Scanned, IsPerm, RanksOf, LiveSlots, SlotsOf;
    ScannedSlots(s);
    ScannedSlots(t);
    RanksPerm(s.recs, SlotsOf(s.es[..s.f]));
    RanksPerm(s.recs, SlotsOf(t.es[..t.f]));
  }

  lemma IdsLive(sp: Spellings, st: Store, s: Scan, offsets: seq<nat>, scores: seq<nat>, ids: seq<nat>,
                predicts: seq<nat>, ls: Lists)
    requires ValidStore(sp, st) && Scanned(s) && s.es0 == EntriesOf(st) && Rows(offsets, scores, ids, s.es)
    requires s.f <= |s.es|
    requires |ls.offsets| == |ls.predicts| == s.f && ls.byId == st.byId
    ensures IdsInRange(ids[..s.f], st.startId, ls)
  {
    ScannedPrefix(s);
    EntryIds(sp, st);
    LiveIds(s.es0, st.startId, st.startId + |st.byId|);
    hide Scanned, ValidStore, LiveOf;
    forall j | 0 <= j < s.f
      ensures st.startId <= ids[..s.f][j] < st.startId + |st.byId|
    {
      assert s.es[j] == s.es[..s.f][j];
    }
  }

  lemma AreSettled(s: Scan, t: Scan, ls: Lists, slots: Slots)
    requires s.f <= |s.es| && t.f <= |t.es| && s.f == t.f
    requires AllSettled(ls.offsets, SlotsOf(s.es[..s.f]), s.recs, 0)
    requires AllSettled(ls.predicts, SlotsOf(t.es[..t.f]), s.recs, 0)
    requires AllSettled(ls.syncs, slots.syncs, s.recs, 0)
    requires slots.index == SlotsOf(s.es[..s.f]) && slots.predicts == SlotsOf(t.es[..s.f])
    ensures ListsSettled(ls, slots, s.recs, 0)
  {}

  lemma RowSizes(offsets: seq<nat>, scores: seq<nat>, ids: seq<nat>, es: seq<Entry>, f: nat)
    requires Rows(offsets, scores, ids, es) && f <= |es|
    ensures |offsets| == |scores| == |ids| == |es|
    ensures forall i :: 0 <= i < f ==> offsets[..f][i] == es[i].off
  {}

  lemma ColumnSizes(predicts: seq<nat>, es: seq<Entry>, f: nat)
    requires Column(predicts, es) && f <= |es|
    ensures |predicts| == |es|
    ensures forall i :: 0 <= i < f ==> predicts[..f][i] == es[i].off
  {}

  lemma RowCount(sp: Spellings, st: Store, s: Scan)
    requires ValidStore(sp, st) && Scanned(s) && s.es0 == EntriesOf(st)
    ensures |s.es| == |st.offsets|
  {}

  // Where defragment stands before the slide.
  lemma BeforeSlide(sp: Spellings, st: Store, s: Scan, t: Scan, offsets: seq<nat>, scores: seq<nat>, ids: seq<nat>,
                    predicts: seq<nat>)
    requires BothScanned(sp, st, s, t) && Rows(offsets, scores, ids, s.es) && Column(predicts, t.es)
    ensures s.f == t.f <= |offsets| == |scores| == |ids| && s.f <= |predicts| && s.f <= |s.es| && s.f <= |t.es|
    ensures |Flat(s.recs)| == |Flat(st.recs)| && AllRecs(s.recs) && |offsets| == |st.offsets|
    ensures var ls := Lists(offsets[..s.f], st.byId, predicts[..s.f], st.syncs);
            && ListsSettled(ls, Slots(SlotsOf(s.es[..s.f]), SlotsOf(t.es[..s.f]), st.sslot), s.recs, 0)
            && IdsInRange(ids[..s.f], st.startId, ls)
  {
    hide Scanned, ValidStore, Rows, Column, ListsSettled, IdsInRange, AllSettled, AllRecs, Flat;
    SameLive(s, t);
    RowSizes(offsets, scores, ids, s.es, s.f);
    ColumnSizes(predicts, t.es, t.f);
    SameBytes(s);
    RowCount(sp, st, s);
    LiveSettled(s, offsets[..s.f]);
    LiveSettled(t, predicts[..s.f]);
    SyncsSettled(sp, st, s);
    var ls := Lists(offsets[..s.f], st.byId, predicts[..s.f], st.syncs);
    AreSettled(s, t, ls, Slots(SlotsOf(s.es[..s.f]), SlotsOf(t.es[..s.f]), st.sslot));
    IdsLive(sp, st, s, offsets, scores, ids, predicts, ls);
  }

  lemma EntryIds(sp: Spellings, st: Store)
    requires ValidStore(sp, st)
    ensures |st.slot| == |st.offsets| == |st.scores| == |st.ids| <= |st.byId|
    ensures forall i :: 0 <= i < |EntriesOf(st)| ==> st.startId <= EntriesOf(st)[i].id < st.startId + |st.byId|
  {
    hide Start, Off, Removed, IsPerm, SortedOk, UniqueOk, FreeOk, SyncShape, LogOk;
  }

  lemma SameBytes(s: Scan)
    requires Scanned(s)
    ensures |Flat(s.recs)| == |Flat(s.recs0)| && |s.recs| == |s.recs0| && AllRecs(s.recs)
  {
    FlatWhole(s.recs);
    FlatWhole(s.recs0);
    hide Start, Flat, LiveOf, IsPerm, Points, Dead;
  }

  // Nothing was removed: the lists are as they were.
  lemma NoGaps(sp: Spellings, st: Store, s: Scan, t: Scan, offsets: seq<nat>, scores: seq<nat>, ids: seq<nat>,
               predicts: seq<nat>)
    requires BothScanned(sp, st, s, t) && Rows(offsets, scores, ids, s.es) && Column(predicts, t.es)
    requires forall k :: 0 <= k < |s.recs| ==> !Dead(s.recs[k])
    ensures s.f == |offsets| && t.f == |predicts|
    ensures offsets == st.offsets && scores == st.scores && ids == st.ids && predicts == st.predicts
    ensures s.recs == st.recs
    ensures forall i :: 0 <= i < |offsets| ==> !Removed(offsets[i])
    ensures st.freeCount == 0 == st.freeSize
  {
    NothingToDo(s);
    NothingToDo(t);
    assert st.dead == AllFalse(|st.recs|);
    NothingDead(st.recs);
    NoneRemoved(st);
    hide ValidStore, Scanned, LiveOf, Removed;
    EntryIds(sp, st);
    assert offsets == st.offsets && scores == st.scores && ids == st.ids;
    assert predicts == st.predicts;
  }

  // The slide is over and ids are renumbered: the store is the compacted one.
  lemma AfterSlide(sp: Spellings, st: Store, s: Scan, t: Scan, ls: Lists, st': Store)
    requires BothScanned(sp, st, s, t) && s.f == t.f
    requires ListsSettled(ls, Slots(SlotsOf(s.es[..s.f]), SlotsOf(t.es[..s.f]), st.sslot), s.recs, |s.recs|)
    requires s.f <= |ls.byId| && forall i :: 0 <= i < s.f ==> ls.byId[i] == ls.offsets[i]
    requires LiveSlots(s.recs, SlotsOf(s.es[..s.f])) && LiveSlots(s.recs, SlotsOf(t.es[..t.f]))
    requires forall i :: 0 <= i < |st.sslot| ==> st.sslot[i] < |s.recs|
    requires st' == Compacted(st, s, t, ls)
    ensures ValidStore(sp, st') && View(st') == View(st) && Scored(Dict(st')) == Scored(Dict(st))
    ensures forall i :: 0 <= i < |st'.offsets| ==> !Removed(st'.offsets[i])
    ensures SyncOk(st) ==> SyncOk(st') && SyncView(st') == SyncView(st)
  {
    assert Finished(sp, st, s, t, ls);
    hide *;
    CompactedIsValid(sp, st, s, t, ls);
    IndexIn(sp, st');
    CompactedView(sp, st, s, t, ls, st');
    CompactedScored(sp, st, s, t, ls, st');
    CompactedSync(sp, st, s, t, ls);
    if SyncOk(st) {
      CompactedSyncView(sp, st, s, t, ls, st');
    }
  }

  lemma IndexIn(sp: Spellings, st: Store)
    requires ValidStore(sp, st)
    ensures IndexOk(st)
  {}

  lemma CompactedScored(sp: Spellings, st: Store, s: Scan, t: Scan, ls: Lists, st': Store)
    requires Finished(sp, st, s, t, ls) && ValidStore(sp, st') && View(st') == View(st)
    ensures Scored(Dict(st')) == Scored(Dict(st))
  {
    assert ValidStore(sp, st);
    hide *;
    SameViewSameScores(sp, st', st);
  }

  lemma FinishedLive(sp: Spellings, st: Store, s: Scan, t: Scan)
    requires BothScanned(sp, st, s, t)
    ensures Scanned(s) && Scanned(t) && t.recs == s.recs
    ensures LiveSlots(s.recs, SlotsOf(s.es[..s.f])) && LiveSlots(s.recs, SlotsOf(t.es[..t.f]))
    ensures forall i :: 0 <= i < |st.sslot| ==> st.sslot[i] < |s.recs|
  {
    ScannedSlots(s);
    ScannedSlots(t);
    SameBytes(s);
    hide Scanned, LiveOf, IsPerm;
  }

  // The last loop of defragment: ids in index order.
  method RenumberIds(offsets: seq<nat>, byId0: seq<nat>, startId: nat) returns (ids: seq<nat>, byId: seq<nat>)
    requires |offsets| <= |byId0|
    ensures ids == IdsFrom(startId, |offsets|)
    ensures |byId| == |byId0| && forall i :: 0 <= i < |offsets| ==> byId[i] == offsets[i]
  {
    ids, byId := [], byId0;
    for i := 0 to |offsets|
      invariant ids == IdsFrom(startId, i)
      invariant |byId| == |byId0| && forall j :: 0 <= j < i ==> byId[j] == offsets[j]
    {
      ids := ids + [startId + i];
      byId := byId[i := offsets[i]];
    }
  }

  lemma CompactedFields(st: Store, s: Scan, t: Scan, ls: Lists, scores: seq<nat>)
    requires Scanned(s) && Scanned(t) && t.recs == s.recs
    requires LiveSlots(s.recs, SlotsOf(s.es[..s.f])) && LiveSlots(s.recs, SlotsOf(t.es[..t.f]))
    requires forall i :: 0 <= i < |st.sslot| ==> st.sslot[i] < |s.recs|
    requires |scores| >= s.f && forall i :: 0 <= i < s.f ==> scores[i] == s.es[i].score
    ensures var c := Compacted(st, s, t, ls);
            && c.recs == Keep(s.recs) && c.offsets == ls.offsets && c.scores == scores[..s.f]
            && c.ids == IdsFrom(st.startId, s.f) && c.predicts == ls.predicts && c.syncs == ls.syncs
            && c.byId == ls.byId
            && c.startId == st.startId && c.freeCount == 0 && c.freeSize == 0
  {}

  lemma RowScores(offsets: seq<nat>, scores: seq<nat>, ids: seq<nat>, es: seq<Entry>, f: nat)
    requires Rows(offsets, scores, ids, es) && f <= |es|
    ensures |scores| == |es| && forall i :: 0 <= i < f ==> scores[i] == es[i].score
  {}

  lemma ListSizes(ls: Lists, slots: Slots, recs: seq<Rec>, done: nat)
    requires ListsSettled(ls, slots, recs, done)
    ensures |ls.offsets| == |slots.index| && |ls.predicts| == |slots.predicts| && |ls.syncs| == |slots.syncs|
  {}

  lemma LogBytes(lemmas: array<Byte>, recs: seq<Rec>, rest: seq<Byte>)
    requires LogIs(lemmas, recs, rest)
    ensures lemmas[..] == Flat(recs) + rest
  {}

  lemma BackedBytes(lemmas: array<Byte>, st: Store, bytes: seq<Byte>, rest: seq<Byte>)
    requires lemmas[..] == bytes == Flat(st.recs) + rest
    ensures Backs(lemmas, st)
  {
    hide Flat;
    assert lemmas[..|Flat(st.recs)|] == lemmas[..][..|Flat(st.recs)|];
  }

  lemma BackedKept(lemmas: array<Byte>, st: Store)
    requires |Flat(st.recs)| <= lemmas.Length && lemmas[..|Flat(st.recs)|] == Flat(st.recs)
    ensures Backs(lemmas, st)
  {}

  lemma LogStart(lemmas: array<Byte>, st: Store, rest: seq<Byte>)
    requires Backs(lemmas, st) && |Flat(st.recs)| <= lemmas.Length && rest == lemmas[|Flat(st.recs)|..]
    ensures LogIs(lemmas, st.recs, rest)
  {
    hide Flat;
    var n := |Flat(st.recs)|;
    assert lemmas[..] == lemmas[..n] + lemmas[n..];
  }
}
