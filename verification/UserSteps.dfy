// What the operations of the user dictionary do to a store, and why each keeps
// the store valid.

module UserSteps {
  import opened Perms
  import opened UserLog
  import opened UserKeys
  import opened UserStore

  // ---- Removing the lemma of index entry i ----

  // p is the position of the same record in predicts; the sync queue may lose one entry.
  ghost function RemoveAt(st: Store, i: nat, p: nat, syncs: seq<nat>, sslot: seq<int>): Store
    requires i < |st.slot| == |st.offsets| && p < |st.predicts| && st.slot[i] < |st.recs| == |st.dead|
  {
    var k := st.slot[i];
    st.(dead := st.dead[k := true],
        offsets := st.offsets[i := SetRemoved(st.offsets[i])],
        predicts := st.predicts[p := SetRemoved(st.predicts[p])],
        syncs := syncs, sslot := sslot,
        freeCount := st.freeCount + 1, freeSize := st.freeSize + |st.recs[k]|)
  }

  lemma PointingRemove(words: seq<nat>, slots: seq<nat>, recs: seq<Rec>, dead: seq<bool>, i: nat)
    requires Pointing(words, slots, recs, dead) && Distinct(slots) && i < |words|
    ensures Pointing(words[i := SetRemoved(words[i])], slots, recs, dead[slots[i] := true])
  {
    hide Start;
  }

  lemma {:induction false} CountDeadUpdate(recs: seq<Rec>, dead: seq<bool>, k: nat)
    requires |recs| == |dead| && k < |dead| && !dead[k]
    ensures CountDead(dead[k := true]) == CountDead(dead) + 1
    ensures DeadBytes(recs, dead[k := true]) == DeadBytes(recs, dead) + |recs[k]|
  {
    var m := |dead| - 1;
    var dead' := dead[k := true];
    if k < m {
      CountDeadUpdate(recs[..m], dead[..m], k);
      assert dead'[..m] == dead[..m][k := true];
    } else {
      assert dead'[..m] == dead[..m];
    }
  }

  lemma RemoveIndexOk(st: Store, i: nat, p: nat, syncs: seq<nat>, sslot: seq<int>)
    requires IndexOk(st) && i < |st.slot| && p < |st.pslot| && st.pslot[p] == st.slot[i]
    ensures IndexOk(RemoveAt(st, i, p, syncs, sslot))
  {
    PointingRemove(st.offsets, st.slot, st.recs, st.dead, i);
    PointingRemove(st.predicts, st.pslot, st.recs, st.dead, p);
    hide Pointing, IsPerm;
  }

  lemma RemoveFreeOk(st: Store, i: nat, p: nat, syncs: seq<nat>, sslot: seq<int>)
    requires IndexOk(st) && FreeOk(st) && i < |st.slot| && p < |st.pslot| && !st.dead[st.slot[i]]
    ensures FreeOk(RemoveAt(st, i, p, syncs, sslot))
  {
    CountDeadUpdate(st.recs, st.dead, st.slot[i]);
    hide Start, IsPerm, CountDead, DeadBytes;
  }

  // The invariants that speak only of the log, the order of the entries and their ids.
  lemma SameOrder(sp: Spellings, st: Store, st': Store)
    requires LogOk(sp, st) && IndexOk(st) && IndexOk(st') && IdsOk(st) && SortedOk(sp, st) && UniqueOk(sp, st)
    requires st'.recs == st.recs && st'.slot == st.slot && st'.ids == st.ids
    requires st'.byId == st.byId && st'.startId == st.startId
    requires |st'.dead| == |st.dead| && forall k :: 0 <= k < |st.dead| && !st'.dead[k] ==> !st.dead[k]
    ensures LogOk(sp, st') && IdsOk(st') && SortedOk(sp, st') && UniqueOk(sp, st')
  {
    hide Start, Flat, IndexOk, KeyAtSlot, LemmaOf, CmpKey, IsRec, Dead, FullIds, Off, AllRecs;
  }

  lemma RemoveKeepsValid(sp: Spellings, st: Store, st': Store, i: nat, p: nat, syncs: seq<nat>, sslot: seq<int>)
    requires ValidStore(sp, st) && i < |st.slot| && p < |st.pslot|
    requires st.pslot[p] == st.slot[i] && !st.dead[st.slot[i]]
    requires st' == RemoveAt(st, i, p, syncs, sslot) && SyncShape(st')
    ensures ValidStore(sp, st')
  {
    hide LogOk, IdsOk, SortedOk, UniqueOk, SyncShape, FreeOk, OkSpellings, Start, IsPerm;
    RemoveIndexOk(st, i, p, syncs, sslot);
    RemoveFreeOk(st, i, p, syncs, sslot);
    SameOrder(sp, st, st');
  }

  lemma HoldsAfterRemove(sp: Spellings, st: Store, st': Store, i: nat, p: nat, syncs: seq<nat>, sslot: seq<int>,
                         j: nat, m: Lemma)
    requires ValidStore(sp, st) && i < |st.slot| && p < |st.pslot| && st.pslot[p] == st.slot[i]
    requires st' == RemoveAt(st, i, p, syncs, sslot)
    ensures Holds(st', j, m) <==> Holds(st, j, m) && j != i
  {
    hide Start, Flat, Pointing, KeyAtSlot, LemmaOf, SortedOk, UniqueOk, SyncShape, FreeOk, IdsOk, OkSpellings, FullIds;
    assert forall j :: 0 <= j < |st.slot| ==> (st'.dead[st.slot[j]] <==> j == i || st.dead[st.slot[j]]);
  }

  lemma DictRemovedAt(sp: Spellings, st: Store, st': Store, i: nat, p: nat, syncs: seq<nat>, sslot: seq<int>,
                      l: Lemma, m: Lemma)
    requires ValidStore(sp, st) && Holds(st, i, l) && i < |st.slot| && p < |st.pslot| && st.pslot[p] == st.slot[i]
    requires st' == RemoveAt(st, i, p, syncs, sslot) && OneEntryEach(st) && OneEntryEach(st')
    ensures m in Dict(st') <==> m in Dict(st) && m != l
    ensures m in Dict(st') ==> Dict(st')[m] == Dict(st)[m]
  {
    assert st'.scores == st.scores && st'.ids == st.ids;
    hide ValidStore, Dict, OneEntryEach, RemoveAt, Holds;
    if m in Dict(st') {
      var j := DictEntry(st', m);
      HoldsAfterRemove(sp, st, st', i, p, syncs, sslot, j, m);
      DictOf(st, j, m);
      DictOf(st', j, m);
      if m == l {
        SameEntry(st, i, j, l);
      }
    }
    if m in Dict(st) && m != l {
      var j := DictEntry(st, m);
      if j == i {
        HoldsOne(st, i, l, m);
      }
      HoldsAfterRemove(sp, st, st', i, p, syncs, sslot, j, m);
      DictOf(st', j, m);
    }
  }

  // Exactly the lemma of entry i leaves the dictionary.
  lemma DictRemoved(sp: Spellings, st: Store, st': Store, i: nat, p: nat, syncs: seq<nat>, sslot: seq<int>, l: Lemma)
    requires ValidStore(sp, st) && Holds(st, i, l) && p < |st.pslot| && st.pslot[p] == st.slot[i]
    requires st' == RemoveAt(st, i, p, syncs, sslot) && ValidStore(sp, st')
    ensures Dict(st') == Dict(st) - {l}
  {
    hide ValidStore, Dict, OneEntryEach, RemoveAt;
    ValidOneEntry(sp, st);
    ValidOneEntry(sp, st');
    forall m
      ensures m in Dict(st') <==> m in Dict(st) && m != l
      ensures m in Dict(st') ==> Dict(st')[m] == Dict(st)[m]
    {
      DictRemovedAt(sp, st, st', i, p, syncs, sslot, l, m);
    }
  }

  lemma SameEntry(st: Store, i: nat, j: nat, l: Lemma)
    requires OneEntryEach(st) && Holds(st, i, l) && Holds(st, j, l)
    ensures i == j
  {}

  ghost predicate PutAt<V>(d: map<Lemma, V>, d': map<Lemma, V>, l: Lemma, v: V, m: Lemma) {
    (m in d' <==> m in d || m == l) && (m in d' ==> d'[m] == if m == l then v else d[m])
  }

  lemma PutAll<V>(d: map<Lemma, V>, d': map<Lemma, V>, l: Lemma, v: V)
    requires forall m :: PutAt(d, d', l, v, m)
    ensures d' == d[l := v]
  {
    forall m
      ensures m in d' <==> m in d[l := v]
      ensures m in d' ==> d'[m] == d[l := v][m]
    {
      assert PutAt(d, d', l, v, m);
    }
  }

  // ---- Rescoring entry i ----

  ghost function Rescore(st: Store, i: nat, score: nat): Store
    requires i < |st.scores|
  {
    st.(scores := st.scores[i := score])
  }

  lemma RescoreKeepsValid(sp: Spellings, st: Store, i: nat, score: nat)
    requires ValidStore(sp, st) && i < |st.scores|
    ensures ValidStore(sp, Rescore(st, i, score))
  {
    hide LogOk, IdsOk, SortedOk, UniqueOk, SyncShape, FreeOk, OkSpellings, Pointing, IsPerm;
    SameOrder(sp, st, Rescore(st, i, score));
    RescoreRest(st, i, score);
  }

  lemma RescoreRest(st: Store, i: nat, score: nat)
    requires SyncShape(st) && FreeOk(st) && i < |st.scores|
    ensures SyncShape(Rescore(st, i, score)) && FreeOk(Rescore(st, i, score))
  {}

  lemma RescoreHolds(st: Store, i: nat, score: nat, j: nat, m: Lemma)
    requires i < |st.scores|
    ensures Holds(Rescore(st, i, score), j, m) <==> Holds(st, j, m)
  {}

  lemma DictRescoredAt(st: Store, i: nat, l: Lemma, score: nat, m: Lemma)
    requires Holds(st, i, l) && OneEntryEach(st) && OneEntryEach(Rescore(st, i, score))
    ensures var d, d' := Dict(st), Dict(Rescore(st, i, score));
            (m in d' <==> m in d) && (m in d' ==> d'[m] == if m == l then (score, st.ids[i]) else d[m])
  {
    var st' := Rescore(st, i, score);
    hide Dict, OneEntryEach, Holds;
    if m in Dict(st') || m in Dict(st) {
      var j: nat;
      if m in Dict(st') {
        j := DictEntry(st', m);
      } else {
        j := DictEntry(st, m);
      }
      RescoreHolds(st, i, score, j, m);
      DictOf(st, j, m);
      DictOf(st', j, m);
      if m == l {
        SameEntry(st, i, j, l);
      } else if j == i {
        HoldsOne(st, i, l, m);
      }
    }
  }

  lemma DictRescored(sp: Spellings, st: Store, i: nat, l: Lemma, score: nat)
    requires ValidStore(sp, st) && Holds(st, i, l) && ValidStore(sp, Rescore(st, i, score))
    ensures Dict(Rescore(st, i, score)) == Dict(st)[l := (score, st.ids[i])]
  {
    var st' := Rescore(st, i, score);
    hide ValidStore, Dict, OneEntryEach, Rescore;
    ValidOneEntry(sp, st);
    ValidOneEntry(sp, st');
    DictOf(st, i, l);
    var d, d' := Dict(st), Dict(st');
    forall m
      ensures PutAt(d, d', l, (score, st.ids[i]), m)
    {
      DictRescoredAt(st, i, l, score, m);
    }
    PutAll(d, d', l, (score, st.ids[i]));
  }

  // ---- Appending a record ----

  // The new record goes to the end of the log, to position i of the index and to
  // position j of predicts.
  ghost predicate Fits(st: Store, i: nat, j: nat) {
    && i <= |st.offsets| == |st.scores| == |st.ids| == |st.slot|
    && j <= |st.predicts| == |st.pslot| && |st.recs| < |st.byId|
  }

  ghost function AppendAt(st: Store, r: Rec, score: nat, i: nat, j: nat): Store
    requires Fits(st, i, j)
  {
    var n, off := |st.recs|, |Flat(st.recs)|;
    st.(recs := st.recs + [r], dead := st.dead + [false],
        offsets := Insert(st.offsets, i, off), scores := Insert(st.scores, i, score),
        ids := Insert(st.ids, i, st.startId + n), slot := Insert(st.slot, i, n),
        predicts := Insert(st.predicts, j, off), pslot := Insert(st.pslot, j, n),
        byId := st.byId[n := off])
  }

  lemma AppendStarts(recs: seq<Rec>, r: Rec)
    ensures forall k :: 0 <= k <= |recs| ==> Start(recs + [r], k) == Start(recs, k)
    ensures Start(recs + [r], |recs|) == |Flat(recs)|
    ensures Flat(recs + [r]) == Flat(recs) + r
  {
    forall k | 0 <= k <= |recs|
      ensures Start(recs + [r], k) == Start(recs, k)
    {
      assert (recs + [r])[..k] == recs[..k];
    }
    FlatWhole(recs);
    FlatOne(r);
    FlatConcat(recs, [r]);
  }

  lemma PointingInsert(words: seq<nat>, slots: seq<nat>, recs: seq<Rec>, dead: seq<bool>, i: nat, r: Rec)
    requires Pointing(words, slots, recs, dead) && i <= |words| && |Flat(recs)| <= OFFSET_MASK
    ensures Pointing(Insert(words, i, |Flat(recs)|), Insert(slots, i, |recs|), recs + [r], dead + [false])
  {
    AppendStarts(recs, r);
    InsertAt(words, i, |Flat(recs)|);
    InsertAt(slots, i, |recs|);
    hide Start, Flat, Insert;
  }

  // Where a new key belongs: after the smaller keys, before the others.
  ghost predicate InsertPoint(sp: Spellings, st: Store, key: Key, i: nat)
    requires LogOk(sp, st) && IndexOk(st)
  {
    && i <= |st.slot|
    && (forall j :: 0 <= j < i ==> CmpKey(KeyAtSlot(sp, st.recs, st.slot[j]), key) < 0)
    && (i < |st.slot| ==> CmpKey(KeyAtSlot(sp, st.recs, st.slot[i]), key) >= 0)
  }

  ghost predicate CanAppend(sp: Spellings, st: Store, r: Rec, i: nat, j: nat) {
    && ValidStore(sp, st) && Fits(st, i, j)
    && IsRec(r) && !Dead(r) && FullIds(sp, RecIds(r)) && |Flat(st.recs)| <= OFFSET_MASK
    && InsertPoint(sp, st, KeyOf(sp, RecIds(r)), i)
    && forall k :: 0 <= k < |st.recs| && !st.dead[k] ==> LemmaOf(st.recs[k]) != LemmaOf(r)
  }

  lemma AppendLog(sp: Spellings, st: Store, r: Rec, score: nat, i: nat, j: nat)
    requires CanAppend(sp, st, r, i, j)
    ensures LogOk(sp, AppendAt(st, r, score, i, j))
  {
    AppendStarts(st.recs, r);
    hide IndexOk, IdsOk, SortedOk, UniqueOk, SyncShape, FreeOk, OkSpellings, Flat, Start, InsertPoint, LemmaOf, FullIds;
  }

  lemma AppendIndex(sp: Spellings, st: Store, r: Rec, score: nat, i: nat, j: nat)
    requires CanAppend(sp, st, r, i, j)
    ensures IndexOk(AppendAt(st, r, score, i, j))
  {
    PointingInsert(st.offsets, st.slot, st.recs, st.dead, i, r);
    PointingInsert(st.predicts, st.pslot, st.recs, st.dead, j, r);
    PermInsert(st.slot, i, |st.recs|);
    PermInsert(st.pslot, j, |st.recs|);
    hide LogOk, IdsOk, SortedOk, UniqueOk, SyncShape, FreeOk, OkSpellings, Flat, Start, LemmaOf, Pointing, IsPerm;
    hide Insert;
  }

  ghost function Shifted(i: nat, a: nat): nat
    requires a != i
  {
    if a < i then a else a - 1
  }

  lemma InsertShifted(s: seq<nat>, i: nat, x: nat, a: nat)
    requires i <= |s| && a <= |s| && a != i
    ensures Shifted(i, a) < |s| && Insert(s, i, x)[a] == s[Shifted(i, a)]
  {}

  ghost predicate IdAt(st: Store, a: nat) {
    && a < |st.ids| == |st.slot| && st.slot[a] < |st.recs| == |st.dead|
    && st.startId <= st.ids[a] < st.startId + |st.byId|
    && Off(st.byId[st.ids[a] - st.startId]) == Start(st.recs, st.slot[a])
    && (Removed(st.byId[st.ids[a] - st.startId]) ==> st.dead[st.slot[a]])
  }

  lemma AppendIdAt(st: Store, st': Store, r: Rec, score: nat, i: nat, j: nat, a: nat)
    requires Fits(st, i, j) && st' == AppendAt(st, r, score, i, j) && |Flat(st.recs)| <= OFFSET_MASK
    requires a <= |st.slot| && |st.dead| == |st.recs|
    requires a != i ==> IdAt(st, Shifted(i, a)) && st.ids[Shifted(i, a)] < st.startId + |st.recs|
    ensures IdAt(st', a)
    ensures a < |st'.ids| && st'.ids[a] == if a == i then st.startId + |st.recs| else st.ids[Shifted(i, a)]
  {
    AppendStarts(st.recs, r);
    InsertAt(st.ids, i, st.startId + |st.recs|);
    InsertAt(st.slot, i, |st.recs|);
    if a != i {
      InsertShifted(st.ids, i, st.startId + |st.recs|, a);
      InsertShifted(st.slot, i, |st.recs|, a);
    }
    hide Flat, Start, Insert;
  }

  lemma AppendIds(st: Store, r: Rec, score: nat, i: nat, j: nat)
    requires IndexOk(st) && IdsOk(st) && Fits(st, i, j)
    requires |st.slot| == |st.recs| && |Flat(st.recs)| <= OFFSET_MASK
    ensures IdsOk(AppendAt(st, r, score, i, j))
  {
    var st' := AppendAt(st, r, score, i, j);
    assert |st'.ids| == |st'.slot| == |st.slot| + 1 && |st'.byId| == |st.byId| && st'.startId == st.startId;
    hide Flat, Start, IsPerm, Insert, Pointing, AppendAt, Off;
    forall a: nat | a < |st'.ids|
      ensures IdAt(st', a) && st'.ids[a] == if a == i then st.startId + |st.recs| else st.ids[Shifted(i, a)]
      ensures a != i ==> st'.ids[a] < st.startId + |st.recs|
    {
      AppendIdAt(st, st', r, score, i, j, a);
    }
  }

  lemma AppendFree(st: Store, r: Rec, score: nat, i: nat, j: nat)
    requires IndexOk(st) && FreeOk(st) && Fits(st, i, j)
    ensures FreeOk(AppendAt(st, r, score, i, j))
  {
    hide Flat, Start, Pointing, IsPerm, Insert;
    var recs, dead := st.recs + [r], st.dead + [false];
    assert recs[..|recs| - 1] == st.recs && dead[..|dead| - 1] == st.dead;
  }

  lemma AppendSync(st: Store, r: Rec, score: nat, i: nat, j: nat)
    requires IndexOk(st) && SyncShape(st) && Fits(st, i, j)
    ensures SyncShape(AppendAt(st, r, score, i, j))
    ensures SyncOk(st) ==> SyncOk(AppendAt(st, r, score, i, j))
  {
    AppendStarts(st.recs, r);
    hide Flat, Start, Pointing, IsPerm, Insert;
  }

  lemma AppendUnique(sp: Spellings, st: Store, r: Rec, score: nat, i: nat, j: nat)
    requires CanAppend(sp, st, r, i, j) && LogOk(sp, AppendAt(st, r, score, i, j))
    ensures UniqueOk(sp, AppendAt(st, r, score, i, j))
  {
    hide Flat, Start, Insert, LemmaOf, IdsOk, FreeOk, SyncShape, SortedOk, OkSpellings, FullIds, Dead, IsPerm;
    var st' := AppendAt(st, r, score, i, j);
    forall a, b | 0 <= a < b < |st'.recs| && !st'.dead[a] && !st'.dead[b]
      ensures LemmaOf(st'.recs[a]) != LemmaOf(st'.recs[b])
    {
      assert st'.recs[a] == st.recs[a] && !st.dead[a];
      assert b < |st.recs| ==> st'.recs[b] == st.recs[b] && !st.dead[b];
    }
  }

  lemma AppendSorted(sp: Spellings, st: Store, st': Store, r: Rec, score: nat, i: nat, j: nat)
    requires CanAppend(sp, st, r, i, j) && st' == AppendAt(st, r, score, i, j)
    requires LogOk(sp, st') && IndexOk(st')
    ensures SortedOk(sp, st')
  {
    hide *;
    KeysThere(sp, st');
    forall a: nat, b: nat | a < b < |st'.slot|
      ensures CmpKey(KeyAtSlot(sp, st'.recs, st'.slot[a]), KeyAtSlot(sp, st'.recs, st'.slot[b])) <= 0
    {
      NewKeyAt(sp, st, st', r, score, i, j, a);
      NewKeyAt(sp, st, st', r, score, i, j, b);
      SortedPair(sp, st, r, i, j, a, b);
    }
    IsSorted(sp, st');
  }

  lemma IsSorted(sp: Spellings, st: Store)
    requires LogOk(sp, st) && IndexOk(st)
    requires forall a: nat, b: nat :: a < b < |st.slot| ==>
               CmpKey(KeyAtSlot(sp, st.recs, st.slot[a]), KeyAtSlot(sp, st.recs, st.slot[b])) <= 0
    ensures SortedOk(sp, st)
  {
    hide LogOk, IndexOk, CmpKey, KeyAtSlot;
  }

  lemma KeysThere(sp: Spellings, st: Store)
    requires LogOk(sp, st) && IndexOk(st)
    ensures forall a: nat :: a < |st.slot| ==>
              && st.slot[a] < |st.recs| && IsRec(st.recs[st.slot[a]])
              && FullIds(sp, RecIds(st.recs[st.slot[a]]))
  {
    hide IsPerm, Flat, Start;
  }

  // The key of entry a after the insertion.
  lemma NewKeyAt(sp: Spellings, st: Store, st': Store, r: Rec, score: nat, i: nat, j: nat, a: nat)
    requires CanAppend(sp, st, r, i, j) && st' == AppendAt(st, r, score, i, j) && LogOk(sp, st') && IndexOk(st')
    requires a < |st'.slot|
    ensures |st'.slot| == |st.slot| + 1 && a <= |st.slot| && st'.slot[a] < |st'.recs|
    ensures KeyAtSlot(sp, st'.recs, st'.slot[a]) == NewKey(sp, st, r, i, a)
  {
    InsertAt(st.slot, i, |st.recs|);
    hide CmpKey, KeyOf, Flat, Start, SyncShape, UniqueOk, IdsOk, FreeOk, SortedOk;
    assert st'.slot[a] == if a < i then st.slot[a] else if a == i then |st.recs| else st.slot[a - 1];
  }

  // The key at position a of the new index.
  ghost function NewKey(sp: Spellings, st: Store, r: Rec, i: nat, a: nat): Key
    requires LogOk(sp, st) && IndexOk(st) && IsRec(r) && FullIds(sp, RecIds(r)) && i <= |st.slot| && a <= |st.slot|
  {
    if a < i then KeyAtSlot(sp, st.recs, st.slot[a])
    else if a == i then KeyOf(sp, RecIds(r))
    else KeyAtSlot(sp, st.recs, st.slot[a - 1])
  }

  lemma SortedPair(sp: Spellings, st: Store, r: Rec, i: nat, j: nat, a: nat, b: nat)
    requires CanAppend(sp, st, r, i, j) && a < b <= |st.slot|
    ensures CmpKey(NewKey(sp, st, r, i, a), NewKey(sp, st, r, i, b)) <= 0
  {
    hide Flat, Start, IsPerm, LemmaOf, IdsOk, FreeOk, SyncShape, UniqueOk, OkSpellings, Dead, CmpKey, KeyAtSlot, Off;
    var q := KeyOf(sp, RecIds(r));
    if a == i {
      KeyOrder(KeyAtSlot(sp, st.recs, st.slot[i]), q, q);
      KeyOrder(q, KeyAtSlot(sp, st.recs, st.slot[i]), KeyAtSlot(sp, st.recs, st.slot[b - 1]));
      if b - 1 == i {
      }
    } else if b > i && a > i {
    }
  }

  lemma AppendKeepsValid(sp: Spellings, st: Store, st': Store, r: Rec, score: nat, i: nat, j: nat)
    requires CanAppend(sp, st, r, i, j) && st' == AppendAt(st, r, score, i, j)
    ensures ValidStore(sp, st') && (SyncOk(st) ==> SyncOk(st'))
  {
    PermLength(st.slot, |st.recs|);
    AppendLog(sp, st, r, score, i, j);
    AppendIndex(sp, st, r, score, i, j);
    AppendIds(st, r, score, i, j);
    AppendFree(st, r, score, i, j);
    AppendSync(st, r, score, i, j);
    AppendUnique(sp, st, r, score, i, j);
    AppendSorted(sp, st, st', r, score, i, j);
    hide LogOk, IndexOk, IdsOk, FreeOk, SyncShape, SortedOk, UniqueOk, OkSpellings;
  }

  ghost function Raised(i: nat, b: nat): nat { if b < i then b else b + 1 }

  lemma HoldsNew(sp: Spellings, st: Store, st': Store, r: Rec, score: nat, i: nat, j: nat, m: Lemma)
    requires CanAppend(sp, st, r, i, j) && st' == AppendAt(st, r, score, i, j)
    ensures Holds(st', i, m) <==> m == LemmaOf(r)
    ensures i < |st'.scores| && i < |st'.ids| && st'.scores[i] == score && st'.ids[i] == st.startId + |st.recs|
  {
    InsertAt(st.slot, i, |st.recs|);
    InsertAt(st.scores, i, score);
    InsertAt(st.ids, i, st.startId + |st.recs|);
    hide Flat, Start, LemmaOf, IdsOk, FreeOk, SyncShape, SortedOk, UniqueOk, OkSpellings, Insert, InsertPoint;
    hide FullIds, Off, IsPerm;
  }

  lemma InsertRaised(s: seq<nat>, i: nat, x: nat, b: nat)
    requires i <= |s| && b < |s|
    ensures Raised(i, b) <= |s| && Insert(s, i, x)[Raised(i, b)] == s[b]
  {}

  lemma SlotOld(sp: Spellings, st: Store, st': Store, r: Rec, score: nat, i: nat, j: nat, b: nat)
    requires CanAppend(sp, st, r, i, j) && st' == AppendAt(st, r, score, i, j) && b < |st.slot|
    ensures Raised(i, b) < |st'.slot| == |st'.scores| == |st'.ids| && b < |st.scores| && b < |st.ids|
    ensures st.slot[b] < |st.recs| == |st.dead| && st'.slot[Raised(i, b)] == st.slot[b]
    ensures st'.recs[st.slot[b]] == st.recs[st.slot[b]] && (st'.dead[st.slot[b]] <==> st.dead[st.slot[b]])
    ensures st'.scores[Raised(i, b)] == st.scores[b] && st'.ids[Raised(i, b)] == st.ids[b]
    ensures |st'.recs| == |st'.dead| == |st.recs| + 1
    ensures !st.dead[st.slot[b]] ==> IsRec(st.recs[st.slot[b]]) && LemmaOf(st.recs[st.slot[b]]) != LemmaOf(r)
  {
    hide Flat, Start, LemmaOf, IdsOk, FreeOk, SyncShape, SortedOk, UniqueOk, OkSpellings, Insert, FullIds, Off;
    hide IsPerm, Removed, KeyAtSlot, CmpKey;
    InsertRaised(st.slot, i, |st.recs|, b);
    InsertRaised(st.scores, i, score, b);
    InsertRaised(st.ids, i, st.startId + |st.recs|, b);
  }

  lemma HoldsOld(sp: Spellings, st: Store, st': Store, r: Rec, score: nat, i: nat, j: nat, b: nat, m: Lemma)
    requires CanAppend(sp, st, r, i, j) && st' == AppendAt(st, r, score, i, j) && b < |st.slot|
    ensures !Holds(st, b, LemmaOf(r))
    ensures Holds(st, b, m) <==> Holds(st', Raised(i, b), m)
    ensures b < |st.scores| && b < |st.ids| && Raised(i, b) < |st'.scores| && Raised(i, b) < |st'.ids|
    ensures st'.scores[Raised(i, b)] == st.scores[b] && st'.ids[Raised(i, b)] == st.ids[b]
  {
    hide ValidStore, Insert, Flat, Dead;
    SlotOld(sp, st, st', r, score, i, j, b);
  }

  // An old entry keeps its lemma, score and id.
  lemma DictOldKept(sp: Spellings, st: Store, st': Store, r: Rec, score: nat, i: nat, j: nat, l: Lemma, m: Lemma)
    requires CanAppend(sp, st, r, i, j) && Fits(st, i, j) && st' == AppendAt(st, r, score, i, j)
    requires IsRec(r) && l == LemmaOf(r) && OneEntryEach(st) && OneEntryEach(st') && m in Dict(st)
    ensures m in Dict(st') && Dict(st')[m] == Dict(st)[m] && m != l
  {
    hide Dict, OneEntryEach, AppendAt, Holds, LemmaOf, ValidStore, CanAppend, IsRec;
    var b := DictEntry(st, m);
    HoldsOld(sp, st, st', r, score, i, j, b, m);
    DictOf(st, b, m);
    DictOf(st', Raised(i, b), m);
  }

  // The only other lemma is the new one.
  lemma DictNewFrom(sp: Spellings, st: Store, st': Store, r: Rec, score: nat, i: nat, j: nat, l: Lemma, m: Lemma)
    requires CanAppend(sp, st, r, i, j) && Fits(st, i, j) && st' == AppendAt(st, r, score, i, j)
    requires |st'.slot| == |st.slot| + 1
    requires IsRec(r) && l == LemmaOf(r) && OneEntryEach(st) && m in Dict(st') && m != l
    ensures m in Dict(st)
  {
    hide Dict, OneEntryEach, AppendAt, Holds, LemmaOf, ValidStore, CanAppend, IsRec;
    var a := DictEntry(st', m);
    if a == i {
      HoldsNew(sp, st, st', r, score, i, j, m);
    } else {
      HoldsOld(sp, st, st', r, score, i, j, Shifted(i, a), m);
      DictOf(st, Shifted(i, a), m);
    }
  }

  lemma DictNew(sp: Spellings, st: Store, st': Store, r: Rec, score: nat, i: nat, j: nat, l: Lemma)
    requires CanAppend(sp, st, r, i, j) && Fits(st, i, j) && st' == AppendAt(st, r, score, i, j)
    requires IsRec(r) && l == LemmaOf(r) && OneEntryEach(st')
    ensures l in Dict(st') && Dict(st')[l] == (score, st.startId + |st.recs|)
  {
    hide Dict, OneEntryEach, AppendAt, Holds, LemmaOf, ValidStore, CanAppend, IsRec;
    HoldsNew(sp, st, st', r, score, i, j, l);
    DictOf(st', i, l);
  }

  // The dictionary gains exactly the new lemma, under a fresh id.
  lemma DictAppended(sp: Spellings, st: Store, st': Store, r: Rec, score: nat, i: nat, j: nat)
    requires CanAppend(sp, st, r, i, j) && st' == AppendAt(st, r, score, i, j) && ValidStore(sp, st')
    ensures LemmaOf(r) !in Dict(st)
    ensures Dict(st') == Dict(st)[LemmaOf(r) := (score, st.startId + |st.recs|)]
  {
    assert |st'.slot| == |st.slot| + 1 && Fits(st, i, j) && IsRec(r);
    hide ValidStore, Dict, OneEntryEach, AppendAt, LemmaOf, CanAppend, IsRec, Fits;
    ValidOneEntry(sp, st);
    ValidOneEntry(sp, st');
    var d, d', l, v := Dict(st), Dict(st'), LemmaOf(r), (score, st.startId + |st.recs|);
    DictNew(sp, st, st', r, score, i, j, l);
    forall m
      ensures PutAt(d, d', l, v, m)
    {
      if m in d {
        DictOldKept(sp, st, st', r, score, i, j, l, m);
      } else if m in d' && m != l {
        DictNewFrom(sp, st, st', r, score, i, j, l, m);
      }
    }
    PutAll(d, d', l, v);
    if l in d {
      DictOldKept(sp, st, st', r, score, i, j, l, l);
    }
  }
}
