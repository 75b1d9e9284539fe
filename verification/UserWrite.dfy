// Writing a lemma record into the log buffer, finding its place in the index,
// and finding removed words in the offset lists.

module UserWrite {
  import opened Limits
  import opened Perms
  import opened UserLog
  import opened UserKeys
  import opened UserStore
  import opened UserSteps
  import opened UserCache
  import opened UserSearch

  // What a caller may store: a word and its full spelling ids, one per character.
  predicate Storable(sp: Spellings, l: Lemma) {
    && 1 <= |l.ids| == |l.word| <= MAX_LEMMA_SIZE && FullIds(sp, l.ids)
    && (forall i :: 0 <= i < |l.ids| ==> l.ids[i] < 0x1_0000)
    && (forall i :: 0 <= i < |l.word| ==> l.word[i] < 0x1_0000)
  }

  function Le16(s: seq<nat>, b: nat): Byte
    requires b < 2 * |s| && forall i :: 0 <= i < |s| ==> s[i] < 0x1_0000
  {
    if b % 2 == 0 then s[b / 2] % 256 else s[b / 2] / 256
  }

  // The record of a lemma.
  function RecOf(sp: Spellings, l: Lemma): (r: Rec)
    requires Storable(sp, l)
    ensures |r| == RecSize(|l.ids|)
  {
    var n := |l.ids|;
    seq<Byte>(RecSize(n), b requires 0 <= b < RecSize(n) =>
      if b == 0 then 0
      else if b == 1 then n
      else if b < 2 + 2 * n then Le16(l.ids, b - 2)
      else Le16(l.word, b - 2 - 2 * n))
  }

  // The bytes of character i in a record.
  lemma RecBytes(sp: Spellings, l: Lemma, i: nat)
    requires Storable(sp, l) && i < |l.ids|
    ensures var r, n := RecOf(sp, l), |l.ids|;
            && r[0] == 0 && r[1] == n
            && r[2 + 2 * i] == Le16(l.ids, 2 * i) && r[2 + 2 * i + 1] == Le16(l.ids, 2 * i + 1)
            && r[2 + 2 * n + 2 * i] == Le16(l.word, 2 * i) && r[2 + 2 * n + 2 * i + 1] == Le16(l.word, 2 * i + 1)
  {
    hide Le16;
  }

  // Reading a written record gives the lemma back.
  lemma RecOfReads(sp: Spellings, l: Lemma)
    requires Storable(sp, l)
    ensures IsRec(RecOf(sp, l)) && !Dead(RecOf(sp, l)) && LemmaOf(RecOf(sp, l)) == l
  {
    var r, n := RecOf(sp, l), |l.ids|;
    RecBytes(sp, l, 0);
    hide RecOf, Le16, FullIds;
    forall i | 0 <= i < n
      ensures U16s(r, 2, n)[i] == l.ids[i] && U16s(r, 2 + 2 * n, n)[i] == l.word[i]
    {
      RecBytes(sp, l, i);
      Le16Pair(l.ids, i);
      Le16Pair(l.word, i);
    }
    assert RecIds(r) == l.ids && RecWord(r) == l.word;
  }

  lemma Le16Pair(s: seq<nat>, i: nat)
    requires i < |s| && forall j :: 0 <= j < |s| ==> s[j] < 0x1_0000
    ensures U16(Le16(s, 2 * i), Le16(s, 2 * i + 1)) == s[i]
  {}

  // The writes at the start of UserDict::append_a_lemma
  method WriteRecord(sp: Spellings, lemmas: array<Byte>, offset: nat, l: Lemma)
    requires Storable(sp, l) && offset + RecSize(|l.ids|) <= lemmas.Length
    modifies lemmas
    ensures lemmas[..offset] == old(lemmas[..offset])
    ensures lemmas[offset..offset + RecSize(|l.ids|)] == RecOf(sp, l)
  {
    hide *;
    StorableIs(sp, l);
    var n := |l.ids|;
    ghost var r, was := RecOf(sp, l), lemmas[..];
    RecBytes(sp, l, 0);
    SizeIs(n);
    lemmas[offset] := 0;
    lemmas[offset + 1] := n;
    PairIs(was, offset, 0, n);
    WrittenStart(was, lemmas[..], offset, r, n);
    for i := 0 to n
      invariant Written(was, lemmas[..], offset, r, n, i)
    {
      RecBytes(sp, l, i);
      ghost var now := lemmas[..];
      WritePair(lemmas, offset + 2 + 2 * i, l.ids, i);
      WritePair(lemmas, offset + 2 + 2 * n + 2 * i, l.word, i);
      WrittenNext(was, now, lemmas[..], offset, r, n, i);
    }
    BytesWritten(was, lemmas[..], offset, r, n);
    assert lemmas[..offset] == lemmas[..][..offset];
    assert lemmas[offset..offset + RecSize(n)] == lemmas[..][offset..offset + RecSize(n)];
  }

  lemma StorableIs(sp: Spellings, l: Lemma)
    requires Storable(sp, l)
    ensures 1 <= |l.ids| == |l.word| <= MAX_LEMMA_SIZE == 8
    ensures forall i :: 0 <= i < |l.ids| ==> l.ids[i] < 0x1_0000
    ensures forall i :: 0 <= i < |l.word| ==> l.word[i] < 0x1_0000
  {}

  lemma SizeIs(n: nat)
    ensures RecSize(n) == 2 + 4 * n
  {}

  lemma PairIs(s: seq<Byte>, p: nat, a: Byte, b: Byte)
    requires p + 2 <= |s|
    ensures PutPair(s, p, a, b) == s[p := a][p + 1 := b]
  {}

  function PutPair(s: seq<Byte>, p: nat, a: Byte, b: Byte): seq<Byte>
    requires p + 2 <= |s|
  {
    s[p := a][p + 1 := b]
  }

  method WritePair(lemmas: array<Byte>, p: nat, s: seq<nat>, i: nat)
    requires p + 2 <= lemmas.Length && i < |s| && forall j :: 0 <= j < |s| ==> s[j] < 0x1_0000
    modifies lemmas
    ensures lemmas[..] == PutPair(old(lemmas[..]), p, Le16(s, 2 * i), Le16(s, 2 * i + 1))
  {
    lemmas[p] := s[i] % 256;
    lemmas[p + 1] := s[i] / 256;
  }

  // The head and the first i characters of record r are written at offset.
  ghost predicate Written(was: seq<Byte>, now: seq<Byte>, offset: nat, r: Rec, n: nat, i: nat) {
    && i <= n && |r| == RecSize(n) && |now| == |was| && offset + |r| <= |now|
    && now[offset] == r[0] && now[offset + 1] == r[1]
    && (forall b :: 2 <= b < 2 + 2 * i ==> now[offset + b] == r[b])
    && (forall b :: 2 + 2 * n <= b < 2 + 2 * n + 2 * i ==> now[offset + b] == r[b])
    && (forall b :: 0 <= b < offset ==> now[b] == was[b])
  }

  lemma WrittenStart(was: seq<Byte>, now: seq<Byte>, offset: nat, r: Rec, n: nat)
    requires |r| == RecSize(n) && |now| == |was| && offset + |r| <= |now|
    requires now == PutPair(was, offset, r[0], r[1])
    ensures Written(was, now, offset, r, n, 0)
  {}

  lemma WrittenNext(was: seq<Byte>, now: seq<Byte>, next: seq<Byte>, offset: nat, r: Rec, n: nat, i: nat)
    requires Written(was, now, offset, r, n, i) && i < n && |r| == RecSize(n) && offset + |r| <= |now|
    requires var p, q := 2 + 2 * i, 2 + 2 * n + 2 * i;
             next == PutPair(PutPair(now, offset + p, r[p], r[p + 1]), offset + q, r[q], r[q + 1])
    ensures Written(was, next, offset, r, n, i + 1)
  {}

  lemma BytesWritten(was: seq<Byte>, now: seq<Byte>, offset: nat, r: Rec, n: nat)
    requires Written(was, now, offset, r, n, n)
    ensures offset + |r| <= |now| == |was| && |r| == RecSize(n)
    ensures now[offset..offset + |r|] == r && now[..offset] == was[..offset]
  {}

  // A record written behind the log extends the log.
  lemma BacksAppended(lemmas: array<Byte>, st: Store, st': Store, was: seq<Byte>, r: Rec)
    requires |Flat(st.recs)| + |r| <= lemmas.Length && |was| == lemmas.Length
    requires was[..|Flat(st.recs)|] == Flat(st.recs)
    requires lemmas[..|Flat(st.recs)|] == was[..|Flat(st.recs)|]
    requires lemmas[|Flat(st.recs)|..|Flat(st.recs)| + |r|] == r
    requires st'.recs == st.recs + [r]
    ensures Backs(lemmas, st')
  {
    AppendStarts(st.recs, r);
    var n := |Flat(st.recs)|;
    assert lemmas[..n + |r|] == lemmas[..n] + lemmas[n..n + |r|];
  }

  // The insertion scan of UserDict::append_a_lemma
  method FindInsertPoint(sp: Spellings, lemmas: array<Byte>, offsets: seq<nat>, off: nat, s: Searchable,
                         ghost st: Store)
    returns (i: nat)
    requires ValidStore(sp, st) && Backs(lemmas, st) && OkSearchable(s)
    requires off == |st.offsets| && offsets == st.offsets
    ensures InsertPoint(sp, st, SigKey(s), i)
  {
    hide ValidStore, Backs, Flat, Start, SigKey, KeyAt, CmpKey, FullIds, AllRecs, IsRec;
    StoreSizes(sp, st);
    i := 0;
    while i < off
      invariant i <= off && forall j :: 0 <= j < i ==> CmpKey(KeyAt(sp, st, j), SigKey(s)) < 0
    {
      EntryFacts(sp, st, i);
      var spl := SpellIds(lemmas, offsets[i], st, st.slot[i]);
      FullIdsBelow(sp, spl);
      var cmp := FuzzyCompareSpellId(sp, spl, s);
      if 0 <= cmp {
        break;
      }
      i := i + 1;
    }
    InsertPointFrom(sp, st, SigKey(s), i);
  }

  lemma InsertPointFrom(sp: Spellings, st: Store, key: Key, i: nat)
    requires ValidStore(sp, st) && i <= |st.slot| && forall j :: 0 <= j < i ==> CmpKey(KeyAt(sp, st, j), key) < 0
    requires i < |st.slot| ==> CmpKey(KeyAt(sp, st, i), key) >= 0
    ensures InsertPoint(sp, st, key, i)
  {
    hide CmpKey, SortedOk, UniqueOk, IdsOk, FreeOk, SyncShape;
    forall j | 0 <= j < i
      ensures CmpKey(KeyAtSlot(sp, st.recs, st.slot[j]), key) < 0
    {
      assert CmpKey(KeyAt(sp, st, j), key) < 0;
    }
  }

  // Word order: first difference, then length.
  method CompareWords(ws: seq<nat>, words: seq<nat>) returns (cmp: int)
    ensures cmp == 0 <==> ws == words
  {
    var minl := if |ws| < |words| then |ws| else |words|;
    for k := 0 to minl
      invariant ws[..k] == words[..k]
    {
      if ws[k] < words[k] {
        return -1;
      } else if ws[k] > words[k] {
        return 1;
      }
    }
    assert ws[..|ws|] == ws && words[..|words|] == words;
    if |ws| < |words| {
      return -1;
    } else if |ws| > |words| {
      return 1;
    }
    cmp := 0;
  }

  // UserDict::locate_where_to_insert_in_predicts. It searches the offset index,
  // which is not sorted by word, so only the bounds of its result are known.
  method LocateWhereToInsertInPredicts(lemmas: array<Byte>, offsets: seq<nat>, words: seq<nat>, ghost st: Store,
                                       ghost slots: seq<nat>)
    returns (lastMatched: nat)
    requires Backs(lemmas, st) && AllRecs(st.recs) && Pointing(offsets, slots, st.recs, st.dead) && |offsets| > 0
    ensures lastMatched < |offsets|
  {
    hide Backs, Flat, Start, AllRecs;
    var begin: int, end: int := 0, |offsets| - 1;
    lastMatched := |offsets| - 1;
    while begin <= end
      invariant 0 <= begin <= end + 1 <= |offsets| && lastMatched < |offsets|
    {
      var middle := (begin + end) / 2;
      var ws := WordOf(lemmas, offsets[middle], st, slots[middle]);
      var cmp := CompareWords(ws, words);
      if cmp < 0 {
        begin := middle + 1;
        lastMatched := middle;
      } else if cmp > 0 {
        end := middle - 1;
      } else {
        end := middle - 1;
        lastMatched := middle;
      }
    }
  }

  lemma StartInjective(recs: seq<Rec>, j: nat, k: nat)
    requires AllRecs(recs) && j < |recs| && k < |recs| && Start(recs, j) == Start(recs, k)
    ensures j == k
  {
    if j < k {
      StartMono(recs, j, k);
    } else if k < j {
      StartMono(recs, k, j);
    }
  }

  // The search loop of UserDict::remove_lemma_from_predict_list
  method FindInPredicts(predicts: seq<nat>, word: nat, ghost st: Store, ghost k: nat) returns (p: nat)
    requires IndexOk(st) && AllRecs(st.recs) && predicts == st.predicts
    requires k < |st.recs| && Off(word) == Start(st.recs, k)
    ensures p < |st.pslot| == |predicts| && st.pslot[p] == k
  {
    hide Start, AllRecs, Off, Removed;
    p := 0;
    ghost var q := SlotAt(st.pslot, |st.recs|, k);
    while p < |predicts| && Off(predicts[p]) != Off(word)
      invariant p <= q
    {
      p := p + 1;
    }
    StartInjective(st.recs, st.pslot[p], k);
  }

  lemma SlotAt(s: seq<nat>, n: nat, k: nat) returns (i: nat)
    requires IsPerm(s, n) && k < n
    ensures i < |s| && s[i] == k
  {
    assert k in s;
    i :| 0 <= i < |s| && s[i] == k;
  }

  // ---- The sync queue ----

  // The queue without entry i, whose place the last entry takes.
  function SwapRemove<T>(s: seq<T>, i: nat): (r: seq<T>)
    requires i < |s|
    ensures |r| == |s| - 1
  {
    s[i := s[|s| - 1]][..|s| - 1]
  }

  // UserDict::remove_lemma_from_sync_list
  method RemoveFromSyncs(syncs: seq<nat>, word: nat, ghost sslot: seq<int>)
    returns (syncs': seq<nat>, ghost sslot': seq<int>, ghost at: nat)
    requires |sslot| == |syncs|
    ensures at <= |syncs| && (forall i :: 0 <= i < at ==> Off(syncs[i]) != Off(word))
    ensures at < |syncs| ==>
              Off(syncs[at]) == Off(word) && syncs' == SwapRemove(syncs, at) && sslot' == SwapRemove(sslot, at)
    ensures at == |syncs| ==> syncs' == syncs && sslot' == sslot
  {
    var i := 0;
    while i < |syncs| && Off(syncs[i]) != Off(word)
      invariant i <= |syncs| && forall j :: 0 <= j < i ==> Off(syncs[j]) != Off(word)
    {
      i := i + 1;
    }
    syncs', sslot', at := syncs, sslot, i;
    if i < |syncs| {
      syncs' := SwapRemove(syncs, i);
      sslot' := SwapRemove(sslot, i);
    }
  }

  // The record of k was queued at most once.
  ghost predicate QueuedOnce(st: Store, k: nat) {
    forall i, j :: 0 <= i < j < |st.sslot| ==> st.sslot[i] != k || st.sslot[j] != k
  }

  // What remove_lemma_from_sync_list did to the queue of st: `at` is the first entry
  // with record k's offset, or the queue's end.
  ghost predicate TakenOut(st: Store, k: nat, syncs: seq<nat>, sslot: seq<int>, at: nat)
    requires k <= |st.recs|
  {
    && |st.sslot| == |st.syncs| && at <= |st.syncs|
    && (forall j :: 0 <= j < at ==> Off(st.syncs[j]) != Start(st.recs, k))
    && (at < |st.syncs| ==>
      && Off(st.syncs[at]) == Start(st.recs, k)
      && syncs == SwapRemove(st.syncs, at) && sslot == SwapRemove(st.sslot, at))
    && (at == |st.syncs| ==> syncs == st.syncs && sslot == st.sslot)
  }

  // Entries of a queue of live lemmas with record k's offset belong to record k.
  lemma QueuedAt(st: Store, k: nat, j: nat)
    requires IndexOk(st) && AllRecs(st.recs) && SyncShape(st) && SyncOk(st) && k < |st.recs| && j < |st.syncs|
    requires Start(st.recs, k) <= OFFSET_MASK && forall i :: 0 <= i < |st.recs| ==> Start(st.recs, i) <= OFFSET_MASK
    ensures 0 <= st.sslot[j] < |st.recs|
    ensures Off(st.syncs[j]) == Start(st.recs, k) <==> st.sslot[j] == k
  {
    hide Start, AllRecs, IndexOk;
    if Off(st.syncs[j]) == Start(st.recs, k) {
      StartInjective(st.recs, st.sslot[j], k);
    }
  }

  lemma ShapeAfterRemove(st: Store, i: nat, p: nat, syncs: seq<nat>, sslot: seq<int>, at: nat)
    requires SyncShape(st) && i < |st.slot| == |st.offsets| && p < |st.predicts|
    requires st.slot[i] < |st.recs| == |st.dead| && TakenOut(st, st.slot[i], syncs, sslot, at)
    ensures SyncShape(RemoveAt(st, i, p, syncs, sslot))
  {
    hide Start, Off;
  }

  // A queue of live lemmas stays one exactly when k was queued at most once.
  lemma QueueAfterRemove(st: Store, k: nat, syncs: seq<nat>, sslot: seq<int>, at: nat)
    requires k < |st.recs| && TakenOut(st, k, syncs, sslot, at)
    requires forall j: nat :: j < |st.syncs| ==> (Off(st.syncs[j]) == Start(st.recs, k) <==> st.sslot[j] == k)
    ensures (exists j :: 0 <= j < |sslot| && sslot[j] == k) <==> !QueuedOnce(st, k)
  {
    hide Start, Off;
    if exists j :: 0 <= j < |sslot| && sslot[j] == k {
      var j :| 0 <= j < |sslot| && sslot[j] == k;
      assert at < |st.syncs|;
      assert st.sslot[if j == at then |sslot| else j] == k && st.sslot[at] == k;
    }
    if !QueuedOnce(st, k) {
      var a, b :| 0 <= a < b < |st.sslot| && st.sslot[a] == k && st.sslot[b] == k;
      var c := if at == a then b else a;
      assert sslot[if c == |st.sslot| - 1 then at else c] == k;
    }
  }

  // Removing entry i's lemma keeps the queue in shape, and keeps it free of
  // removed lemmas exactly when the lemma was queued at most once.
  lemma SyncsAfterRemove(st: Store, i: nat, p: nat, syncs: seq<nat>, sslot: seq<int>, at: nat)
    requires IndexOk(st) && AllRecs(st.recs) && SyncShape(st) && i < |st.slot| == |st.offsets| && p < |st.predicts|
    requires st.slot[i] < |st.recs| == |st.dead| && TakenOut(st, st.slot[i], syncs, sslot, at)
    requires forall k :: 0 <= k < |st.recs| ==> Start(st.recs, k) <= OFFSET_MASK
    ensures SyncShape(RemoveAt(st, i, p, syncs, sslot))
    ensures SyncOk(st) ==> (SyncOk(RemoveAt(st, i, p, syncs, sslot)) <==> QueuedOnce(st, st.slot[i]))
  {
    var k := st.slot[i];
    ShapeAfterRemove(st, i, p, syncs, sslot, at);
    hide IndexOk, AllRecs, Start, TakenOut;
    if SyncOk(st) {
      forall j: nat | j < |st.syncs|
        ensures Off(st.syncs[j]) == Start(st.recs, k) <==> st.sslot[j] == k
      {
        QueuedAt(st, k, j);
      }
      QueueAfterRemove(st, k, syncs, sslot, at);
      QueueFrom(st, k, syncs, sslot, at);
      hide QueuedOnce, SyncShape;
    }
  }

  // What is left in the queue was in it.
  lemma QueueFrom(st: Store, k: nat, syncs: seq<nat>, sslot: seq<int>, at: nat)
    requires k <= |st.recs| && TakenOut(st, k, syncs, sslot, at)
    ensures forall j :: 0 <= j < |sslot| ==> sslot[j] in st.sslot
  {}
}
