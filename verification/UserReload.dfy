// Writing the dictionary back and loading it again (UserDict::flush_cache), and
// the dictionary's words and scores as a reader sees them, whatever their ids.

module UserReload {
  import opened Perms
  import opened UserLog
  import opened UserKeys
  import opened UserCompact
  import opened UserStore
  import opened UserSteps
  import opened UserDefrag

  const PRE_ALLOC: nat := 32
  const AVERAGE_NCHAR: nat := 8
  const SPARE_BYTES: nat := PRE_ALLOC * RecSize(AVERAGE_NCHAR)

  // The scores of a dictionary, without the lemma ids.
  ghost function Scored(d: map<Lemma, (nat, nat)>): map<Lemma, nat> {
    map l | l in d :: d[l].0
  }

  // n ids from first on.
  function IdsFrom(first: nat, n: nat): (r: seq<nat>)
    ensures |r| == n
  {
    seq(n, i => first + i)
  }

  // The offset table of a freshly loaded dictionary.
  function WithRoom(offsets: seq<nat>): (r: seq<nat>)
    ensures |r| == |offsets| + PRE_ALLOC && r[..|offsets|] == offsets
  {
    offsets + seq(PRE_ALLOC, _ => 0)
  }

  method NumberIds(first: nat, n: nat) returns (ids: seq<nat>)
    ensures ids == IdsFrom(first, n)
  {
    ids := [];
    for i := 0 to n
      invariant ids == IdsFrom(first, i)
    {
      ids := ids + [first + i];
    }
  }

  // Loading renumbers the ids in index order and leaves room for PRE_ALLOC lemmas.
  ghost function Reloaded(st: Store): Store {
    st.(ids := IdsFrom(st.startId, |st.offsets|), byId := WithRoom(st.offsets))
  }

  // Ids are looked at by IdsOk only.
  lemma NewIdsValid(sp: Spellings, st: Store, ids: seq<nat>, byId: seq<nat>)
    requires ValidStore(sp, st) && |ids| == |st.ids| && IdsOk(st.(ids := ids, byId := byId))
    ensures ValidStore(sp, st.(ids := ids, byId := byId))
    ensures SyncOk(st.(ids := ids, byId := byId)) <==> SyncOk(st)
  {
    hide IdsOk, AllRecs, Pointing, IsPerm, Start, KeyAtSlot, LemmaOf, CmpKey, FullIds, OkSpellings;
  }

  lemma ReloadKeepsValid(sp: Spellings, st: Store)
    requires ValidStore(sp, st)
    ensures ValidStore(sp, Reloaded(st)) && View(Reloaded(st)) == View(st)
    ensures SyncOk(Reloaded(st)) <==> SyncOk(st)
  {
    var st' := Reloaded(st);
    assert Pointing(st'.offsets, st'.slot, st'.recs, st'.dead);
    assert |st.slot| == |st.offsets| == |st.scores| == |st.ids|;
    hide ValidStore, IdsOk, Pointing, SyncOk, View;
    FreshIds(st');
    NewIdsValid(sp, st, st'.ids, st'.byId);
    ReloadedView(st);
  }

  lemma ReloadedView(st: Store)
    requires |st.slot| == |st.offsets| == |st.scores| == |st.ids|
    ensures View(Reloaded(st)) == View(st)
  {
    SameButIds(EntriesOf(st), EntriesOf(Reloaded(st)), st.recs);
  }

  // The view does not look at ids.
  lemma {:induction false} SameButIds(es: seq<Entry>, fs: seq<Entry>, recs: seq<Rec>)
    requires |es| == |fs|
    requires forall i :: 0 <= i < |es| ==>
               es[i].off == fs[i].off && es[i].score == fs[i].score && es[i].slot == fs[i].slot
    ensures ViewOf(LiveOf(es), recs) == ViewOf(LiveOf(fs), recs)
  {
    if es != [] {
      var p, q := es[..|es| - 1], fs[..|fs| - 1];
      SameButIds(p, q, recs);
      ViewSnoc(LiveOf(p), es[|es| - 1], recs);
      ViewSnoc(LiveOf(q), fs[|fs| - 1], recs);
    }
  }

  lemma ViewSnoc(es: seq<Entry>, e: Entry, recs: seq<Rec>)
    ensures ViewOf(es + [e], recs) == ViewOf(es, recs) + [(LemmaAt(recs, e.slot), e.score)]
    ensures ViewOf(es + [], recs) == ViewOf(es, recs)
  {
    assert es + [] == es;
  }

  // ---- The view lists exactly the dictionary ----

  lemma {:induction false} LiveOfHas(es: seq<Entry>, i: nat) returns (j: nat)
    requires i < |es| && !Removed(es[i].off)
    ensures j < |LiveOf(es)| && LiveOf(es)[j] == es[i]
  {
    var m := |es| - 1;
    if i < m {
      j := LiveOfHas(es[..m], i);
    } else {
      j := |LiveOf(es[..m])|;
    }
  }

  lemma ViewHas(sp: Spellings, st: Store, l: Lemma)
    requires ValidStore(sp, st) && l in Dict(st)
    ensures (l, Dict(st)[l].0) in View(st)
  {
    ValidOneEntry(sp, st);
    var i := DictEntry(st, l);
    DictOf(st, i, l);
    assert EntriesOf(st)[i] == Entry(st.offsets[i], st.scores[i], st.ids[i], st.slot[i]);
    hide Start, Flat, Dict, OneEntryEach, IsPerm, LiveOf, FullIds, LemmaOf, IsRec, SortedOk, UniqueOk, IdsOk, FreeOk;
    hide SyncShape, AllRecs, Off, Removed;
    var j := LiveOfHas(EntriesOf(st), i);
    assert View(st)[j] == (LemmaAt(st.recs, st.slot[i]), st.scores[i]);
  }

  lemma ViewFrom(sp: Spellings, st: Store, j: nat)
    requires ValidStore(sp, st) && j < |View(st)|
    ensures View(st)[j].0 in Dict(st) && Dict(st)[View(st)[j].0].0 == View(st)[j].1
  {
    ValidOneEntry(sp, st);
    var es := EntriesOf(st);
    var i := LiveOfFrom(es, j);
    LiveOfIsLive(es, j);
    hide Start, Flat, Dict, OneEntryEach, IsPerm, LiveOf, FullIds, LemmaOf, SortedOk, UniqueOk, IdsOk, FreeOk;
    hide SyncShape, Off, Removed;
    assert Holds(st, i, LemmaOf(st.recs[st.slot[i]]));
    DictOf(st, i, LemmaOf(st.recs[st.slot[i]]));
  }

  // Stores with the same view have the same words and scores.
  lemma SameViewSameScores(sp: Spellings, st: Store, st': Store)
    requires ValidStore(sp, st) && ValidStore(sp, st') && View(st) == View(st')
    ensures Scored(Dict(st)) == Scored(Dict(st'))
  {
    hide ValidStore, View, Dict;
    ViewIncluded(sp, st, st');
    ViewIncluded(sp, st', st);
  }

  lemma ViewIncluded(sp: Spellings, st: Store, st': Store)
    requires ValidStore(sp, st) && ValidStore(sp, st') && View(st) == View(st')
    ensures forall l :: l in Dict(st) ==> l in Dict(st') && Dict(st')[l].0 == Dict(st)[l].0
  {
    hide ValidStore, View, Dict;
    forall l | l in Dict(st)
      ensures l in Dict(st') && Dict(st')[l].0 == Dict(st)[l].0
    {
      ViewHas(sp, st, l);
      var j :| 0 <= j < |View(st)| && View(st)[j] == (l, Dict(st)[l].0);
      ViewFrom(sp, st', j);
    }
  }

  lemma ScoredPut(d: map<Lemma, (nat, nat)>, l: Lemma, v: (nat, nat))
    ensures Scored(d[l := v]) == Scored(d)[l := v.0]
  {}

  // ---- Lemma ids ----

  // Every id between startId and startId + n - 1 belongs to one index entry.
  lemma IdOnto(st: Store, id: nat) returns (i: nat)
    requires IdsOk(st) && st.startId <= id < st.startId + |st.ids|
    ensures i < |st.ids| && st.ids[i] == id
  {
    var n := |st.ids|;
    var s: seq<nat> := seq(n, i requires 0 <= i < n => st.ids[i] - st.startId);
    assert Distinct(s);
    hide IdsOk;
    Pigeonhole(s, n, id - st.startId);
    i :| 0 <= i < |s| && s[i] == id - st.startId;
  }
}
