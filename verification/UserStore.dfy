// The state of the user dictionary as a value: the record log and the parallel
// index lists over it, with the invariant every operation keeps and the
// dictionary it stands for.

module UserStore {
  import opened Perms
  import opened UserLog
  import opened UserKeys

  // A lemma as its user knows it: spelling ids and word.
  datatype Lemma = Lemma(ids: seq<nat>, word: seq<nat>)

  function LemmaOf(r: Rec): Lemma
    requires IsRec(r)
  {
    Lemma(RecIds(r), RecWord(r))
  }

  // recs, dead: the log's records and which of them are removed;
  // slot, pslot, sslot: the records that offsets, predicts and syncs point to.
  datatype Store = Store(
    recs: seq<Rec>, dead: seq<bool>,
    offsets: seq<nat>, scores: seq<nat>, ids: seq<nat>, slot: seq<nat>,
    predicts: seq<nat>, pslot: seq<nat>,
    syncs: seq<nat>, sslot: seq<int>,
    byId: seq<nat>, startId: nat, freeCount: nat, freeSize: nat)

  ghost predicate LogOk(sp: Spellings, st: Store) {
    && AllRecs(st.recs) && |st.dead| == |st.recs|
    && (forall k :: 0 <= k < |st.recs| ==> !Dead(st.recs[k]) && Start(st.recs, k) <= OFFSET_MASK)
    && (forall k :: 0 <= k < |st.recs| ==> FullIds(sp, RecIds(st.recs[k])))
  }

  // Word i points to record slots[i] and carries the remove bit exactly when that record is dead.
  ghost predicate Pointing(words: seq<nat>, slots: seq<nat>, recs: seq<Rec>, dead: seq<bool>) {
    && |words| == |slots| && |dead| == |recs|
    && forall i :: 0 <= i < |words| ==>
      slots[i] < |recs| && Off(words[i]) == Start(recs, slots[i]) && (Removed(words[i]) <==> dead[slots[i]])
  }

  ghost predicate IndexOk(st: Store) {
    && |st.scores| == |st.ids| == |st.offsets|
    && Pointing(st.offsets, st.slot, st.recs, st.dead) && IsPerm(st.slot, |st.recs|)
    && Pointing(st.predicts, st.pslot, st.recs, st.dead) && IsPerm(st.pslot, |st.recs|)
  }

  // Sync entry i belongs to record sslot[i], or to none when sslot[i] is negative;
  // entries of live records hold the record's offset.
  ghost predicate SyncShape(st: Store) {
    && |st.syncs| == |st.sslot| && |st.dead| == |st.recs|
    && forall i :: 0 <= i < |st.syncs| ==>
      && st.sslot[i] < |st.recs|
      && (0 <= st.sslot[i] && !st.dead[st.sslot[i]] ==> st.syncs[i] == Start(st.recs, st.sslot[i]))
  }

  // Every queued entry belongs to a live lemma.
  ghost predicate SyncOk(st: Store) {
    && |st.dead| == |st.recs|
    && forall i :: 0 <= i < |st.sslot| ==> 0 <= st.sslot[i] < |st.recs| && !st.dead[st.sslot[i]]
  }

  // ids are startId..startId+n-1 in some order, and offsets_by_id_ agrees modulo
  // the remove bit, which it sets on dead records only.
  ghost predicate IdsOk(st: Store) {
    && |st.ids| == |st.slot| <= |st.byId|
    && Distinct(st.ids)
    && forall i :: 0 <= i < |st.ids| ==>
      && st.startId <= st.ids[i] < st.startId + |st.ids|
      && st.slot[i] < |st.recs| == |st.dead| && Off(st.byId[st.ids[i] - st.startId]) == Start(st.recs, st.slot[i])
      && (Removed(st.byId[st.ids[i] - st.startId]) ==> st.dead[st.slot[i]])
  }

  function CountDead(dead: seq<bool>): nat {
    if dead == [] then 0 else CountDead(dead[..|dead| - 1]) + if dead[|dead| - 1] then 1 else 0
  }

  function DeadBytes(recs: seq<Rec>, dead: seq<bool>): nat
    requires |recs| == |dead|
  {
    if dead == [] then 0
    else DeadBytes(recs[..|recs| - 1], dead[..|dead| - 1]) + if dead[|dead| - 1] then |recs[|recs| - 1]| else 0
  }

  ghost predicate FreeOk(st: Store) {
    |st.recs| == |st.dead| && st.freeCount == CountDead(st.dead) && st.freeSize == DeadBytes(st.recs, st.dead)
  }

  ghost function KeyAtSlot(sp: Spellings, recs: seq<Rec>, k: nat): Key
    requires k < |recs| && IsRec(recs[k]) && FullIds(sp, RecIds(recs[k]))
  {
    KeyOf(sp, RecIds(recs[k]))
  }

  // The index is sorted by number of syllables, then by initials.
  ghost predicate SortedOk(sp: Spellings, st: Store)
    requires LogOk(sp, st) && IndexOk(st)
  {
    forall i, j :: 0 <= i < j < |st.slot| ==>
      CmpKey(KeyAtSlot(sp, st.recs, st.slot[i]), KeyAtSlot(sp, st.recs, st.slot[j])) <= 0
  }

  // No two live records hold the same lemma.
  ghost predicate UniqueOk(sp: Spellings, st: Store)
    requires LogOk(sp, st)
  {
    forall j, k :: 0 <= j < k < |st.recs| && !st.dead[j] && !st.dead[k] ==>
      LemmaOf(st.recs[j]) != LemmaOf(st.recs[k])
  }

  ghost predicate ValidStore(sp: Spellings, st: Store) {
    && OkSpellings(sp)
    && LogOk(sp, st) && IndexOk(st) && SyncShape(st) && IdsOk(st) && FreeOk(st)
    && SortedOk(sp, st) && UniqueOk(sp, st)
  }

  // Index entry i holds lemma l and is not removed.
  ghost predicate Holds(st: Store, i: nat, l: Lemma) {
    && i < |st.slot| && i < |st.scores| && i < |st.ids|
    && st.slot[i] < |st.recs| == |st.dead| && !st.dead[st.slot[i]]
    && IsRec(st.recs[st.slot[i]]) && LemmaOf(st.recs[st.slot[i]]) == l
  }

  ghost predicate OneEntryEach(st: Store) {
    forall i: nat, j: nat, l :: Holds(st, i, l) && Holds(st, j, l) ==> i == j
  }

  // Live records with the same lemma are the same record, hence the same index entry.
  lemma ValidOneEntry(sp: Spellings, st: Store)
    requires ValidStore(sp, st)
    ensures OneEntryEach(st)
  {
    hide Start, Flat, Off, SortedOk, SyncShape, IdsOk, FreeOk, FullIds, Dead, CmpKey, LemmaOf, IsRec;
  }

  ghost function LiveLemmas(st: Store): set<Lemma> {
    set i | 0 <= i < |st.slot| && st.slot[i] < |st.recs| && IsRec(st.recs[st.slot[i]])
      && Holds(st, i, LemmaOf(st.recs[st.slot[i]])) :: LemmaOf(st.recs[st.slot[i]])
  }

  ghost function EntryOf(st: Store, l: Lemma): (i: nat)
    requires l in LiveLemmas(st)
    ensures Holds(st, i, l)
  {
    var i: nat :| Holds(st, i, l);
    i
  }

  // The dictionary a store stands for: score and lemma id of every live lemma.
  ghost function Dict(st: Store): map<Lemma, (nat, nat)> {
    map l | l in LiveLemmas(st) :: (st.scores[EntryOf(st, l)], st.ids[EntryOf(st, l)])
  }

  lemma DictOf(st: Store, i: nat, l: Lemma)
    requires OneEntryEach(st) && Holds(st, i, l)
    ensures i < |st.slot| && i < |st.scores| && i < |st.ids|
    ensures l in Dict(st) && Dict(st)[l] == (st.scores[i], st.ids[i])
  {
    hide LemmaOf;
    assert LemmaOf(st.recs[st.slot[i]]) in LiveLemmas(st);
    assert EntryOf(st, l) == i;
  }

  lemma DictEntry(st: Store, l: Lemma) returns (i: nat)
    requires l in Dict(st)
    ensures Holds(st, i, l) && i < |st.slot| && i < |st.scores| && i < |st.ids|
  {
    i := EntryOf(st, l);
  }

  lemma HoldsOne(st: Store, i: nat, l: Lemma, m: Lemma)
    requires Holds(st, i, l) && Holds(st, i, m)
    ensures l == m
  {}
}
