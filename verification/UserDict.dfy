// The user dictionary: lookup through index and caches, and the operations that
// put, update, remove, flush and defragment lemmas.

module UserDict {
  import opened Limits
  import opened Perms
  import opened UserLog
  import opened UserKeys
  import opened UserCompact
  import opened UserStore
  import opened UserSteps
  import opened UserCache
  import opened UserSearch
  import opened UserDefrag
  import opened UserReload
  import opened UserSlide
  import opened UserWrite
  import UserReclaim

  const LMT_SINCE := ((2009 - 1970) * 365 * 24 * 60 * 60)
  const LMT_GRANULARITY := 60 * 60 * 24 * 7
  const MAX_FREQUENCY := 0xFFFF

  // The query for splids.
  function QueryOf(sp: Spellings, splids: seq<nat>): Searchable
    requires OkSpellings(sp) && QueryIds(sp, splids)
  {
    Searchable(|splids|,
               seq(|splids|, i requires 0 <= i < |splids| => IdStart(sp, splids[i])),
               seq(|splids|, i requires 0 <= i < |splids| => IdCount(sp, splids[i])),
               PackKey(KeyOf(sp, splids)))
  }

  lemma QueryUnique(sp: Spellings, splids: seq<nat>, s: Searchable)
    requires OkSpellings(sp) && QueryIds(sp, splids) && SearchFor(sp, splids, s)
    ensures s == QueryOf(sp, splids)
  {
    hide PackKey, KeyOf, SigKey, OkSpellings, QueryIds;
    var q := QueryOf(sp, splids);
    assert s.start == q.start && s.count == q.count;
  }

  lemma FullSearchOf(sp: Spellings, ids: seq<nat>, s: Searchable)
    requires OkSpellings(sp) && QueryIds(sp, ids) && SearchFor(sp, ids, s) && FullIds(sp, ids)
    ensures FullSearch(sp, ids, s)
  {
    hide PackKey, KeyOf, SigKey, OkSpellings;
    assert s.start == ids;
  }

  lemma FullAreQueryIds(sp: Spellings, ids: seq<nat>)
    requires FullIds(sp, ids)
    ensures QueryIds(sp, ids)
  {}

  // l is new, and no longer live lemma starts with it.
  ghost predicate NoLongerLemma(sp: Spellings, st: Store, l: Lemma)
    requires ValidStore(sp, st)
  {
    forall i: nat :: StartsWith(sp, st, i, l) ==> Holds(st, i, l)
  }

  // ---- Scores: last modified week in the high half, frequency in the low half ----

  // Unsigned 64-bit subtraction wraps for times before LMT_SINCE.
  function BuildScore(lmt: nat, freq: int): (s: nat) {
    (lmt - LMT_SINCE) % 0x1_0000_0000_0000_0000 / LMT_GRANULARITY % 0x1_0000 * 0x1_0000 + freq % 0x1_0000
  }

  function ExtractFreq(score: nat): nat { score % 0x1_0000 }

  function ExtractLmt(score: nat): nat { score / 0x1_0000 % 0x1_0000 * LMT_GRANULARITY + LMT_SINCE }

  // Conversion to a signed 16-bit value.
  function Int16(x: int): int { if x % 0x1_0000 >= 0x8000 then x % 0x1_0000 - 0x1_0000 else x % 0x1_0000 }

  // The score update_lemma stores.
  function UpdatedScore(score: nat, delta: int, selected: bool, now: nat): nat {
    var count := ExtractFreq(score);
    var d := if count + delta > MAX_FREQUENCY || count + delta < count then Int16(MAX_FREQUENCY - count) else delta;
    BuildScore(if selected then now else ExtractLmt(score), count + d)
  }

  function Weeks(lmt: nat): (w: nat)
    ensures w < 0x1_0000
  {
    (lmt - LMT_SINCE) % 0x1_0000_0000_0000_0000 / LMT_GRANULARITY % 0x1_0000
  }

  lemma ScoreParts(lmt: nat, freq: int)
    ensures ExtractFreq(BuildScore(lmt, freq)) == freq % 0x1_0000
    ensures ExtractLmt(BuildScore(lmt, freq)) == Weeks(lmt) * LMT_GRANULARITY + LMT_SINCE
    ensures BuildScore(lmt, freq) < 0x1_0000_0000
  {
    assert BuildScore(lmt, freq) == Weeks(lmt) * 0x1_0000 + freq % 0x1_0000;
  }

  lemma WeeksBack(w: nat)
    requires w < 0x1_0000
    ensures Weeks(w * LMT_GRANULARITY + LMT_SINCE) == w
  {
    assert w * LMT_GRANULARITY / LMT_GRANULARITY == w;
  }

  // Score parts survive packing; a score is rebuilt from its own parts.
  lemma ScoreRoundTrip(score: nat)
    requires score < 0x1_0000_0000
    ensures BuildScore(ExtractLmt(score), ExtractFreq(score)) == score
  {
    WeeksBack(score / 0x1_0000);
  }

  // An update adds to the frequency up to its maximum, but a negative change sets
  // it to the maximum; an unselected update keeps the time.
  lemma UpdateSaturates(score: nat, delta: int, selected: bool, now: nat)
    ensures ExtractFreq(UpdatedScore(score, delta, selected, now)) ==
            if 0 <= delta <= MAX_FREQUENCY - ExtractFreq(score) then ExtractFreq(score) + delta else MAX_FREQUENCY
    ensures !selected ==> ExtractLmt(UpdatedScore(score, delta, selected, now)) == ExtractLmt(score)
  {
    var count, w := ExtractFreq(score), score / 0x1_0000 % 0x1_0000;
    var d := if count + delta > MAX_FREQUENCY || count + delta < count then Int16(MAX_FREQUENCY - count) else delta;
    ScoreParts(if selected then now else ExtractLmt(score), count + d);
    WeeksBack(w);
    Saturated(count);
    hide BuildScore, ExtractFreq, Weeks, Int16;
  }

  lemma Saturated(count: nat)
    requires count <= MAX_FREQUENCY
    ensures (count + Int16(MAX_FREQUENCY - count)) % 0x1_0000 == MAX_FREQUENCY
  {}

  ghost function EmptyStore(startId: nat): Store {
    Store([], [], [], [], [], [], [], [], [], [], WithRoom([]), startId, 0, 0)
  }

  lemma EmptyIsValid(sp: Spellings, startId: nat)
    requires OkSpellings(sp)
    ensures ValidStore(sp, EmptyStore(startId)) && Dict(EmptyStore(startId)) == map[] && SyncOk(EmptyStore(startId))
  {
    hide OkSpellings;
    assert LiveLemmas(EmptyStore(startId)) == {};
  }

  class UserDict {
    const sp: Spellings
    var lemmas: array<Byte>
    var offsets: seq<nat>
    var scores: seq<nat>
    var ids: seq<nat>
    var predicts: seq<nat>
    var syncs: seq<nat>
    var byId: seq<nat>
    var startId: nat
    var lemmaSize: nat
    var countLeft: nat
    var sizeLeft: nat
    var limitCount: nat
    var limitSize: nat
    var freeCount: nat
    var freeSize: nat
    var hits: seq<Ring>
    var misses: seq<Ring>
    ghost var st: Store

    // The fields hold the store.
    ghost predicate Mirrors()
      reads this
    {
      && offsets == st.offsets && scores == st.scores && ids == st.ids && predicts == st.predicts
      && syncs == st.syncs && byId == st.byId && startId == st.startId > 0
      && freeCount == st.freeCount && freeSize == st.freeSize
      && lemmaSize == |Flat(st.recs)| && |offsets| + countLeft <= |byId|
    }

    ghost predicate Valid()
      reads this, lemmas
    {
      && ValidStore(sp, st) && Mirrors() && Backs(lemmas, st) && lemmaSize + sizeLeft == lemmas.Length
    }

    ghost predicate CachesValid()
      reads this, lemmas
      requires Valid()
    {
      CachesOk(sp, st, hits, misses)
    }

    // A freshly loaded empty dictionary.
    constructor (sp: Spellings, startId: nat)
      requires OkSpellings(sp) && startId > 0
      ensures Valid() && CachesValid() && Dict(st) == map[] && SyncOk(st) && fresh(lemmas)
      ensures this.sp == sp && this.startId == startId && limitCount == 0 && limitSize == 0 && st == EmptyStore(startId)
      ensures countLeft == PRE_ALLOC && sizeLeft == SPARE_BYTES
    {
      this.sp, this.startId := sp, startId;
      lemmas := new Byte[SPARE_BYTES];
      offsets, scores, ids, predicts, syncs, byId := [], [], [], [], [], WithRoom([]);
      lemmaSize, countLeft, sizeLeft, limitCount, limitSize := 0, PRE_ALLOC, SPARE_BYTES, 0, 0;
      freeCount, freeSize := 0, 0;
      hits, misses := EmptyCaches(CACHE_SIZE), EmptyCaches(MISS_CACHE_SIZE);
      st := EmptyStore(startId);
      EmptyIsValid(sp, startId);
      EmptyCachesOk(sp, EmptyStore(startId));
    }

    // UserDict::load_cache on the ring for the query's length
    method LoadCache(s: Searchable) returns (cached: bool, start: nat, count: nat)
      requires Valid() && CachesValid() && OkSearchable(s)
      ensures cached ==> RangeOk(sp, st, SigKey(s), start, count)
      ensures |hits| == MAX_LEMMA_SIZE && OkRing(hits[s.len - 1])
      ensures var i := Lookup(hits[s.len - 1], s.sig);
              if cached then i >= 0 && start == hits[s.len - 1].slots[i].offset
                && count == hits[s.len - 1].slots[i].length else i == -1
    {
      hide ValidStore, Backs, Mirrors, RangeOk, NoKey, SigByte;
      var i;
      cached, i := Load(hits[s.len - 1], s.sig);
      start, count := 0, 0;
      if cached {
        start, count := hits[s.len - 1].slots[i].offset, hits[s.len - 1].slots[i].length;
        assert SigKeyOf(s.len, s.sig) == SigKey(s);
      }
    }

    // UserDict::load_miss_cache
    method LoadMissCache(s: Searchable) returns (hit: bool)
      requires Valid() && CachesValid() && OkSearchable(s)
      ensures hit ==> NoKey(sp, st, SigKey(s))
    {
      hide ValidStore, Backs, Mirrors, RangeOk, NoKey, SigByte;
      var i;
      hit, i := Load(misses[s.len - 1], s.sig);
      if hit {
        assert SigKeyOf(s.len, s.sig) == SigKey(s);
      }
    }

    // UserDict::cache_hit
    method CacheHit(s: Searchable) returns (cached: bool, start: nat, count: nat)
      requires Valid() && CachesValid() && OkSearchable(s)
      ensures cached ==> start + count <= |offsets|
      ensures cached ==> RangeOk(sp, st, SigKey(s), start, count) || (start == 0 == count && NoKey(sp, st, SigKey(s)))
    {
      hide ValidStore, Backs, NoKey, SigKey;
      StoreSizes(sp, st);
      cached := LoadMissCache(s);
      if cached {
        return true, 0, 0;
      }
      cached, start, count := LoadCache(s);
    }

    // UserDict::cache_push for a range of entries
    method PushHit(s: Searchable, start: nat, count: nat, ghost ok: bool)
      requires Valid() && OkSearchable(s) && |hits| == MAX_LEMMA_SIZE
      requires OkRing(hits[s.len - 1]) && |hits[s.len - 1].slots| == CACHE_SIZE
      requires ok ==> CachesValid() && RangeOk(sp, st, SigKey(s), start, count)
      modifies `hits
      ensures Valid() && (ok ==> CachesValid())
    {
      hide ValidStore, Backs, Flat, RangeOk, NoKey, SigByte;
      ghost var was := hits;
      var ring := Save(hits[s.len - 1], CacheSlot(s.sig, start, count));
      hits := hits[s.len - 1 := ring];
      if ok {
        assert SigKeyOf(s.len, s.sig) == SigKey(s);
        HitSaved(sp, st, s, was, misses, ring, start, count);
      }
    }

    method PushMiss(s: Searchable)
      requires Valid() && CachesValid() && OkSearchable(s) && NoKey(sp, st, SigKey(s))
      modifies `misses
      ensures Valid() && CachesValid()
    {
      hide ValidStore, Backs, Flat, RangeOk, NoKey, SigByte;
      ghost var was := misses;
      var ring := Save(misses[s.len - 1], CacheSlot(s.sig, 0, 0));
      misses := misses[s.len - 1 := ring];
      assert SigKeyOf(s.len, s.sig) == SigKey(s);
      MissSaved(sp, st, s, hits, was, ring);
    }

    // UserDict::_get_lpis. The result is what a scan of the whole index would find,
    // cut at lpiMax; the caches stay sound unless the scan was cut.
    method GetLpis(splids: seq<nat>, lpiMax: nat) returns (items: seq<LpiItem>, needExtend: bool)
      requires Valid() && CachesValid() && QueryIds(sp, splids) && 0 < |splids| <= MAX_LEMMA_SIZE
      modifies `hits, `misses
      ensures Valid()
      ensures items <= FullScan(sp, st, QueryOf(sp, splids)) && |items| <= lpiMax
      ensures |items| < lpiMax ==> items == FullScan(sp, st, QueryOf(sp, splids)) && CachesValid()
      ensures items != [] ==> needExtend
    {
      hide ValidStore, Backs, Flat, SigKey, RangeOk, NoKey, QueryOf, SearchFor, QueryIds, FullScan, CachesOk, ScanRange;
      items, needExtend := [], false;
      if lpiMax == 0 {
        return;
      }
      assert OkSpellings(sp) by { OkSpellingsOf(sp, st); }
      var s := PrepareLocate(sp, splids);
      QueryUnique(sp, splids, s);
      StoreSizes(sp, st);
      var cached, start, count := CacheHit(s);
      var maxOff := |offsets|;
      if cached {
        maxOff := start + count;
      } else {
        var first := LocateFirstInOffsets(sp, lemmas, offsets, s, st);
        if first == -1 {
          NothingFound(sp, splids, st, s);
          PushMiss(s);
          return;
        }
        start := first;
      }
      StartScan(sp, st, SigKey(s), cached, start, maxOff);
      var middle;
      items, middle, needExtend := ScanIndex(sp, lemmas, offsets, scores, ids, s, cached, start, maxOff, lpiMax,
                                             splids, st);
      if !cached {
        RingShape(sp, st, hits, misses, s.len);
        PushHit(s, start, middle - start, |items| < lpiMax);
      }
    }

    // UserDict::locate_in_offsets. The scan gets to some entries (`Seen`) and
    // returns the first live one whose lemma is l or starts with l; if l itself is
    // live it is the one returned.
    method LocateInOffsets(l: Lemma) returns (off: int, ghost cached: bool, ghost start: nat, ghost maxOff: nat)
      requires Valid() && CachesValid() && Storable(sp, l)
      ensures Located(sp, st, l, KeyOf(sp, l.ids), cached, start, maxOff, off)
      ensures (off >= 0 <==> Meets(l)) && (l in Dict(st) ==> Meets(l))
    {
      hide *;
      FieldFacts();
      AppendFacts(sp, st, l);
      FullAreQueryIds(sp, l.ids);
      var s := PrepareLocate(sp, l.ids);
      FullSearchOf(sp, l.ids, s);
      SearchKey(sp, l.ids, s);
      var found, hit, first, end := FindReach(s);
      cached, start, maxOff := hit, first, end;
      if found {
        off := LocateScan(sp, lemmas, offsets, l, s, hit, first, end, st);
      } else {
        NotLocated(sp, st, l, s);
        off := -1;
      }
      ReachIs(l, s, cached, start, maxOff, off);
      LocatedFacts(sp, st, l, KeyOf(sp, l.ids), cached, start, maxOff, off);
    }

    // Where to scan: the cached range, or from the bisection's entry to the end.
    method FindReach(s: Searchable) returns (found: bool, hit: bool, first: nat, end: nat)
      requires Valid() && CachesValid() && OkSearchable(s)
      ensures ReachBy(s, hit, first, end) && s.len <= |hits| && OkRing(hits[s.len - 1])
      ensures found ==> LocateRange(sp, st, SigKey(s), hit, first, end)
      ensures !found ==> !hit && first == 0 == end && NoKey(sp, st, SigKey(s))
    {
      hide *;
      FieldFacts();
      SearchLen(s);
      var count;
      hit, first, count := LoadCache(s);
      found, end := true, |offsets|;
      if hit {
        end := first + count;
        RangeEnd(sp, st, SigKey(s), first, count);
      } else {
        var begin := LocateFirstInOffsets(sp, lemmas, offsets, s, st);
        if begin == -1 {
          first, end := 0, 0;
          ReachFolds(s, hit, first, end, count);
          found := false;
          return;
        }
        first := begin;
      }
      ReachFolds(s, hit, first, end, count);
      StartLocate(sp, st, SigKey(s), hit, first, end);
    }

    static lemma SearchLen(s: Searchable)
      requires OkSearchable(s)
      ensures 0 < s.len <= MAX_LEMMA_SIZE
    {}

    // Looking l up gets to l or to a lemma that starts with it.
    ghost predicate Meets(l: Lemma)
      reads this, lemmas
    {
      && Valid() && FullIds(sp, l.ids) && 1 <= |l.ids| <= |hits| && OkRing(hits[|l.ids| - 1])
      && MeetsIn(sp, st, hits, l)
    }

    lemma RoomAtFirst(l: Lemma)
      requires Valid() && st == EmptyStore(1) && startId == 1 && limitCount == 0 && limitSize == 0
      ensures !Full(|l.ids|) && lemmaSize <= OFFSET_MASK && NoLongerLemma(sp, st, l) && SyncView(st) == []
    {}

    // Looking up goes wrong on the smallest case: only a longer lemma m is stored, its
    // beginning l was never looked up, and the search for l finds m.
    lemma LongerLemmaFound(l: Lemma, m: Lemma)
      requires Valid() && CachesValid() && |st.slot| == 1 && Holds(st, 0, m) && Storable(sp, l)
      requires l.ids < m.ids && l.word < m.word
      requires |hits| == MAX_LEMMA_SIZE && OkRing(hits[|l.ids| - 1])
      requires Lookup(hits[|l.ids| - 1], PackKey(KeyOf(sp, l.ids))) == -1
      ensures Meets(l) && l !in Dict(st)
    {
      EntryFacts(sp, st, 0);
      assert StartsWith(sp, st, 0, l);
      var key := KeyOf(sp, l.ids);
      assert key <= KeyAt(sp, st, 0);
      assert FirstPrefix(sp, st, key) == 0 by {
        OneEntryPrefix(sp, st, key);
      }
      assert Seen(sp, st, key, false, 0, 1, 0);
      hide ValidStore, Dict, KeyOf, FirstPrefix, PackKey, Backs;
      assert ReachOf(sp, st, hits, l) == Reach(false, 0, 1);
      if l in Dict(st) {
        var i := DictEntry(st, l);
      }
    }

    // The reach as the two lookups give it.
    ghost predicate ReachBy(s: Searchable, cached: bool, start: nat, maxOff: nat)
      reads this, lemmas
    {
      && Valid() && OkSearchable(s) && s.len <= |hits| && OkRing(hits[s.len - 1])
      && var i, f := Lookup(hits[s.len - 1], s.sig), FirstPrefix(sp, st, SigKey(s));
         if cached then
           i >= 0 && start == hits[s.len - 1].slots[i].offset && maxOff == start + hits[s.len - 1].slots[i].length
         else i == -1 && if f < 0 then start == 0 == maxOff else start == f && maxOff == |st.slot|
    }

    lemma ReachFolds(s: Searchable, cached: bool, start: nat, maxOff: nat, count: nat)
      requires Valid() && OkSearchable(s) && s.len <= |hits| && OkRing(hits[s.len - 1])
      requires cached ==> var i := Lookup(hits[s.len - 1], s.sig);
                 i >= 0 && start == hits[s.len - 1].slots[i].offset && count == hits[s.len - 1].slots[i].length
                   && maxOff == start + count
      requires !cached ==> Lookup(hits[s.len - 1], s.sig) == -1
      requires !cached && FirstPrefix(sp, st, SigKey(s)) < 0 ==> start == 0 == maxOff
      requires !cached && FirstPrefix(sp, st, SigKey(s)) >= 0 ==>
                 start == FirstPrefix(sp, st, SigKey(s)) && maxOff == |st.slot|
      ensures ReachBy(s, cached, start, maxOff)
    {
      hide Valid, FirstPrefix, SigKey;
    }

    lemma ReachIs(l: Lemma, s: Searchable, cached: bool, start: nat, maxOff: nat, off: int)
      requires Valid() && CachesValid() && FullIds(sp, l.ids) && QueryIds(sp, l.ids) && OkSpellings(sp)
      requires SearchFor(sp, l.ids, s)
      requires 1 <= |l.ids| <= |hits| && OkRing(hits[s.len - 1]) && s.len == |l.ids|
      requires ReachBy(s, cached, start, maxOff)
      requires Located(sp, st, l, KeyOf(sp, l.ids), cached, start, maxOff, off)
      ensures off >= 0 <==> Meets(l)
    {
      hide ValidStore, Backs, Flat, RangeOk, NoKey, SigKey, PackKey, Located, MeetsIn, FirstPrefix, KeyOf, Mirrors;
      assert ReachOf(sp, st, hits, l) == Reach(cached, start, maxOff);
      hide ReachOf;
      LocatedMeets(sp, st, hits, l, off);
    }

    // UserDict::cache_init
    method CacheInit()
      requires Valid()
      modifies `hits, `misses
      ensures Valid() && CachesValid() && hits == EmptyCaches(CACHE_SIZE)
    {
      hide ValidStore, Backs, Flat, CachesOk, EmptyCaches;
      hits, misses := EmptyCaches(CACHE_SIZE), EmptyCaches(MISS_CACHE_SIZE);
      EmptyCachesOk(sp, st);
    }

    // The first part of UserDict::append_a_lemma: write the record behind the log,
    // find its place in the index and in predicts.
    method PlaceRecord(l: Lemma) returns (at: nat, pos: nat)
      requires Valid() && Storable(sp, l) && lemmaSize <= OFFSET_MASK && sizeLeft >= RecSize(|l.ids|)
      modifies lemmas
      ensures Backs(lemmas, Extended(st, RecOf(sp, l)))
      ensures pos <= |st.offsets| && at <= |st.offsets| && FullIds(sp, l.ids)
      ensures InsertPoint(sp, st, KeyOf(sp, l.ids), at)
    {
      hide *;
      FieldFacts();
      AppendFacts(sp, st, l);
      FullAreQueryIds(sp, l.ids);
      StoreSizes(sp, st);
      BacksBytes(lemmas, st);
      var n, offset := |offsets|, lemmaSize;
      ghost var r, was := RecOf(sp, l), lemmas[..];
      WriteRecord(sp, lemmas, offset, l);
      BacksPrefix(lemmas, st, was);
      var s := PrepareLocate(sp, l.ids);
      SearchKey(sp, l.ids, s);
      at := FindInsertPoint(sp, lemmas, offsets, n, s, st);
      InsertBound(sp, st, SigKey(s), at);
      ExtendedIs(st, r, at);
      BacksAppended(lemmas, st, Extended(st, r), was, r);
      RecsAppended(st.recs, r);
      PointingAppended(sp, st, at, r);
      pos := LocateWhereToInsertInPredicts(lemmas, Insert(offsets, at, offset), l.word, Extended(st, r),
                                           Insert(st.slot, at, n));
    }

    // The new row of the parallel lists and the room it takes.
    method InsertRow(at: nat, pos: nat, offset: nat, score: nat, id: nat, size: nat)
      requires at <= |offsets| == |scores| == |ids| && pos <= |predicts| && countLeft > 0 && sizeLeft >= size
      requires startId <= id < startId + |byId|
      modifies `offsets, `scores, `ids, `predicts, `byId, `lemmaSize, `countLeft, `sizeLeft
      ensures offsets == Insert(old(offsets), at, offset) && scores == Insert(old(scores), at, score)
      ensures ids == Insert(old(ids), at, id) && predicts == Insert(old(predicts), pos, offset)
      ensures byId == old(byId)[id - startId := offset] && lemmaSize == old(lemmaSize) + size
      ensures countLeft == old(countLeft) - 1 && sizeLeft == old(sizeLeft) - size
    {
      offsets := Insert(offsets, at, offset);
      scores := Insert(scores, at, score);
      ids := Insert(ids, at, id);
      predicts := Insert(predicts, pos, offset);
      byId := byId[id - startId := offset];
      lemmaSize, countLeft, sizeLeft := lemmaSize + size, countLeft - 1, sizeLeft - size;
    }

    // The fields follow the store again.
    lemma Restored()
      requires ValidStore(sp, st) && Backs(lemmas, st) && lemmaSize + sizeLeft == lemmas.Length
      requires offsets == st.offsets && scores == st.scores && ids == st.ids && predicts == st.predicts
      requires syncs == st.syncs && byId == st.byId && startId == st.startId > 0
      requires freeCount == st.freeCount && freeSize == st.freeSize
      requires lemmaSize == |Flat(st.recs)| && |offsets| + countLeft <= |byId|
      ensures Valid()
    {}

    lemma FieldFacts()
      requires Valid()
      ensures lemmaSize + sizeLeft == lemmas.Length && lemmaSize == |Flat(st.recs)|
      ensures offsets == st.offsets && scores == st.scores && ids == st.ids && predicts == st.predicts
      ensures syncs == st.syncs && byId == st.byId && startId == st.startId > 0
      ensures freeCount == st.freeCount && freeSize == st.freeSize && |offsets| + countLeft <= |byId|
      ensures |offsets| == |scores| == |ids| == |st.slot| == |st.recs| == |st.dead| && AllRecs(st.recs)
      ensures |predicts| == |st.pslot| == |st.recs| && ValidStore(sp, st) && Backs(lemmas, st)
    {
      hide ValidStore, Flat, Backs;
      StoreSizes(sp, st);
    }

    // UserDict::append_a_lemma for an offset within the mask
    method AppendRow(l: Lemma, count: nat, lmt: nat) returns (i: nat, j: nat)
      requires Valid() && CachesValid() && Storable(sp, l) && l !in Dict(st)
      requires countLeft > 0 && sizeLeft >= RecSize(|l.ids|) && lemmaSize <= OFFSET_MASK
      modifies this, lemmas
      ensures Valid() && CachesValid() && lemmas == old(lemmas)
      ensures limitCount == old(limitCount) && limitSize == old(limitSize) && startId == old(startId)
      ensures CanAppend(sp, old(st), RecOf(sp, l), i, j) && Fits(old(st), i, j)
      ensures st == AppendAt(old(st), RecOf(sp, l), BuildScore(lmt, count), i, j) && hits == EmptyCaches(CACHE_SIZE)
    {
      hide *;
      FieldFacts();
      AppendFacts(sp, st, l);
      var offset, id := lemmaSize, startId + |offsets|;
      i, j := PlaceRecord(l);
      CanAppendNow(sp, st, l, RecOf(sp, l), i, j);
      ghost var r, score := RecOf(sp, l), BuildScore(lmt, count);
      ghost var st' := AppendAt(st, r, score, i, j);
      Appended(sp, lemmas, st, st', r, score, i, j, offset, id);
      InsertRow(i, j, offset, BuildScore(lmt, count), id, RecSize(|l.ids|));
      st := st';
      Restored();
      CacheInit();
    }

    // UserDict::append_a_lemma. The dictionary gains exactly l, under a fresh id.
    method AppendALemma(l: Lemma, count: nat, lmt: nat) returns (id: nat, ghost at: nat)
      requires Valid() && CachesValid() && Storable(sp, l) && l !in Dict(st)
      requires countLeft > 0 && sizeLeft >= RecSize(|l.ids|)
      modifies this, lemmas
      ensures Valid() && CachesValid() && lemmas == old(lemmas)
      ensures limitCount == old(limitCount) && limitSize == old(limitSize) && startId == old(startId)
      ensures id == 0 <==> old(lemmaSize) > OFFSET_MASK
      ensures id == 0 ==> st == old(st)
      ensures id != 0 ==> Dict(st) == Dict(old(st))[l := (BuildScore(lmt, count), id)] && id !in old(st).ids
      ensures id != 0 ==> at < |ids| && ids[at] == id && LiveAt(st, at) && at < |st.slot| && LemmaAtEntry(st, at) == l
      ensures id != 0 ==> SyncView(st) == SyncView(old(st)) && (SyncOk(old(st)) ==> SyncOk(st))
      ensures id != 0 ==> hits == EmptyCaches(CACHE_SIZE) && |st.slot| == |old(st).slot| + 1
    {
      hide *;
      FieldFacts();
      AppendFacts(sp, st, l);
      if lemmaSize > OFFSET_MASK {
        return 0, 0;
      }
      id := startId + |offsets|;
      ghost var st0 := st;
      FreshId(sp, st0);
      var i, j := AppendRow(l, count, lmt);
      at := i;
      FieldFacts();
      AppendedDict(sp, st0, st, l, BuildScore(lmt, count), i, j);
      OneRowMore(st0, RecOf(sp, l), BuildScore(lmt, count), i, j);
    }

    // UserDict::flush_cache: the dictionary is written back and loaded again.
    method FlushCache()
      requires Valid()
      modifies this
      ensures Valid() && CachesValid() && fresh(lemmas)
      ensures limitCount == old(limitCount) && limitSize == old(limitSize) && startId == old(startId)
      ensures st == Reloaded(old(st)) && View(st) == View(old(st)) && Scored(Dict(st)) == Scored(Dict(old(st)))
      ensures lemmaSize == old(lemmaSize) && countLeft == PRE_ALLOC && sizeLeft == SPARE_BYTES
      ensures (SyncOk(st) <==> SyncOk(old(st))) && SyncView(st) == SyncView(old(st))
    {
      hide *;
      FieldFacts();
      ghost var st0 := st;
      lemmas := CopyLog(lemmas, lemmaSize, st);
      ids := NumberIds(startId, |offsets|);
      byId := WithRoom(offsets);
      countLeft, sizeLeft := PRE_ALLOC, SPARE_BYTES;
      ReloadKeepsValid(sp, st);
      st := Reloaded(st);
      ReloadedFields(st0);
      SameViewSameScores(sp, st0, st);
      BacksSame(lemmas, st0, st);
      Restored();
      CacheInit();
    }

    // scores_[off] = score
    method RescoreEntry(off: nat, score: nat)
      requires Valid() && CachesValid() && off < |scores|
      modifies `scores, `st
      ensures Valid() && CachesValid() && off < |old(st).scores| && st == Rescore(old(st), off, score)
    {
      hide *;
      FieldFacts();
      CachesAre();
      ghost var st0 := st;
      scores := scores[off := score];
      st := Rescore(st, off, score);
      RescoreKeepsValid(sp, st0, off, score);
      RescoredFields(st0, off, score);
      BacksSame(lemmas, st0, st);
      Restored();
      CachesAfter(st0);
    }

    // The caches serve a store with the same entries.
    lemma CachesAfter(st0: Store)
      requires Valid() && ValidStore(sp, st0) && CachesOk(sp, st0, hits, misses)
      requires st.recs == st0.recs && st.slot == st0.slot && forall i: nat :: LiveAt(st, i) ==> LiveAt(st0, i)
      ensures CachesValid()
    {
      hide *;
      FieldFacts();
      CachesKept(sp, st0, st, hits, misses);
      CachesAre();
    }

    lemma CachesAre()
      requires Valid()
      ensures ValidStore(sp, st) && (CachesValid() <==> CachesOk(sp, st, hits, misses))
    {}

    // UserDict::queue_lemma_for_sync for the id of live index entry i
    method QueueLemmaForSync(id: nat, ghost i: nat)
      requires Valid() && CachesValid() && i < |ids| && ids[i] == id && LiveAt(st, i)
      modifies `syncs, `st
      ensures Valid() && CachesValid() && i < |old(st).slot| && st == Queued(old(st), i)
    {
      hide *;
      FieldFacts();
      CachesAre();
      ghost var st0 := st;
      QueueFacts(sp, st, i);
      syncs := syncs + [byId[id - startId]];
      st := Queued(st, i);
      QueuedFields(st0, i);
      QueueKeepsValid(sp, st0, i);
      BacksSame(lemmas, st0, st);
      Restored();
      CachesAfter(st0);
    }

    // The dictionary may not take another lemma of this length.
    predicate Full(len: nat)
      reads this
    {
      || (limitCount > 0 && |offsets| >= limitCount)
      || (limitSize > 0 && lemmaSize + RecSize(len) > limitSize)
    }

    // UserDict::_put_lemma. `target` is the lemma that got the score: l itself if it
    // was in the dictionary or no longer lemma starts with it.
    method PutLemma(l: Lemma, count: nat, lmt: nat, sync: bool) returns (id: nat, ghost target: Lemma)
      requires Valid() && CachesValid() && Storable(sp, l)
      modifies this, lemmas
      ensures Valid() && CachesValid()
      ensures id != 0 ==>
                && target in Dict(st) && Dict(st)[target] == (BuildScore(lmt, count), id)
                && Scored(Dict(st)) == Scored(Dict(old(st)))[target := BuildScore(lmt, count)]
      ensures id == 0 ==> Scored(Dict(st)) == Scored(Dict(old(st)))
      ensures l.ids <= target.ids && l.word <= target.word
      ensures target == l <==> l in Dict(old(st)) || !old(Meets(l))
      ensures NoLongerLemma(sp, old(st), l) ==> target == l
      ensures target != l ==> target in Dict(old(st)) && id == Dict(old(st))[target].1
      ensures l in Dict(old(st)) ==> id == Dict(old(st))[l].1
      ensures id == 0 <==> target !in Dict(old(st)) && (old(Full(|l.ids|)) || old(lemmaSize) > OFFSET_MASK)
      ensures SyncOk(old(st)) ==> SyncOk(st)
      ensures SyncView(st) == SyncView(old(st)) + if sync && id != 0 && target !in Dict(old(st)) then [l] else []
    {
      hide *;
      FieldFacts();
      ghost var st0 := st;
      AppendFacts(sp, st, l);
      var off: int;
      ghost var cached, start, maxOff;
      off, cached, start, maxOff := LocateInOffsets(l);
      LocatedFacts(sp, st, l, KeyOf(sp, l.ids), cached, start, maxOff, off);
      if off != -1 {
        target := LemmaAtEntry(st, off);
        LiveInDict(sp, st, off);
        id := ids[off];
        RescoreEntry(off, BuildScore(lmt, count));
        FieldFacts();
        RescoredDict(sp, st0, st, off, target, BuildScore(lmt, count));
        return;
      }
      target := l;
      if Full(|l.ids|) {
        return 0, l;
      }
      RoomAfterFlush(|l.ids|);
      if countLeft == 0 || sizeLeft < RecSize(|l.ids|) {
        FlushCache();
      }
      SameKeys(st0, st, l);
      ghost var st1, at := st, 0;
      id, at := AppendALemma(l, count, lmt);
      if id != 0 {
        FieldFacts();
        ScoredPut(Dict(st1), l, (BuildScore(lmt, count), id));
        ghost var st2 := st;
        if sync {
          QueueKeepsValid(sp, st, at);
          QueueLemmaForSync(id, at);
        }
      }
    }

    // The writes of remove_lemma_by_offset_index
    method FlagRemoved(off: nat, p: nat, left: seq<nat>, size: nat)
      requires off < |offsets| && p < |predicts|
      modifies `offsets, `predicts, `syncs, `freeCount, `freeSize
      ensures offsets == old(offsets)[off := SetRemoved(old(offsets)[off])]
      ensures predicts == old(predicts)[p := SetRemoved(old(predicts)[p])]
      ensures syncs == left && freeCount == old(freeCount) + 1 && freeSize == old(freeSize) + size
    {
      offsets := offsets[off := SetRemoved(offsets[off])];
      syncs := left;
      predicts := predicts[p := SetRemoved(predicts[p])];
      freeCount, freeSize := freeCount + 1, freeSize + size;
    }

    // UserDict::remove_lemma_by_offset_index for a live entry. The lemma leaves the
    // dictionary; the queue stays free of removed lemmas exactly when it was queued
    // at most once.
    method RemoveLemmaByOffsetIndex(off: int) returns (ok: bool)
      requires Valid() && CachesValid() && off >= -1 && (off >= 0 ==> LiveAt(st, off) && off < |st.slot|)
      modifies `offsets, `predicts, `syncs, `freeCount, `freeSize, `st
      ensures Valid() && CachesValid()
      ensures ok <==> off >= 0
      ensures off == -1 ==> st == old(st)
      ensures off >= 0 ==> Dict(st) == Dict(old(st)) - {LemmaAtEntry(old(st), off)} && SameEntries(old(st), st, off)
      ensures off >= 0 && SyncOk(old(st)) ==> (SyncOk(st) <==> QueuedOnce(old(st), old(st).slot[off]))
    {
      hide *;
      ok := off >= 0;
      if !ok {
        return;
      }
      FieldFacts();
      CachesAre();
      ghost var st0, k := st, st.slot[off];
      RemoveFacts(sp, st, off);
      var offset := offsets[off];
      var nchar := Nchar(lemmas, offset, st, k);
      ghost var sslot, at;
      var left;
      left, sslot, at := RemoveFromSyncs(syncs, offset, st.sslot);
      IsTakenOut(st, k, offset, left, sslot, at);
      var p := FindInPredicts(predicts, offset, st, k);
      ghost var st1 := RemoveAt(st, off, p, left, sslot);
      RemovedStore(sp, st, st1, off, p, left, sslot, at);
      RemovedFields(st, off, p, left, sslot);
      FlagRemoved(off, p, left, RecSize(nchar));
      st := st1;
      BacksSame(lemmas, st0, st);
      EntriesKept(st0, st, off);
      Restored();
      CachesAfter(st0);
    }

    // is_valid_lemma_id
    predicate ValidId(id: nat)
      reads this
    {
      startId <= id < startId + |offsets|
    }

    // The lemma of a valid id, removed or not.
    method LemmaOfId(id: nat) returns (l: Lemma, ghost i: nat)
      requires Valid() && ValidId(id)
      ensures i < |ids| == |st.slot| && ids[i] == id && l == LemmaAtEntry(st, i) && Storable(sp, l)
      ensures LiveAt(st, i) ==> l in Dict(st) && Dict(st)[l].1 == id
    {
      hide *;
      FieldFacts();
      IdInRange(id);
      i := IdEntry(sp, st, id);
      var offset := byId[id - startId];
      var spl := SpellIds(lemmas, offset, st, st.slot[i]);
      var wrd := WordOf(lemmas, offset, st, st.slot[i]);
      l := Lemma(spl, wrd);
      EntryStorable(sp, st, i);
      LiveInDict(sp, st, i);
    }

    lemma IdInRange(id: nat)
      requires Valid() && ValidId(id)
      ensures startId <= id < startId + |offsets| <= startId + |byId|
    {}

    // UserDict::remove_lemma. `target` is the lemma removed: the lemma of the id if
    // it is in the dictionary or no longer lemma starts with it.
    method RemoveLemma(id: nat) returns (ok: bool, ghost i: nat, ghost target: Lemma)
      requires Valid() && CachesValid()
      modifies `offsets, `predicts, `syncs, `freeCount, `freeSize, `st
      ensures Valid() && CachesValid()
      ensures !ok ==> st == old(st)
      ensures !old(ValidId(id)) ==> !ok
      ensures old(ValidId(id)) ==> i < |old(st).ids| == |old(st).slot| && old(st).ids[i] == id
      ensures ok ==> target in Dict(old(st)) && Dict(st) == Dict(old(st)) - {target}
      ensures old(ValidId(id)) && LiveAt(old(st), i) ==> ok && target == LemmaAtEntry(old(st), i)
      ensures old(ValidId(id)) ==> (ok <==> old(Meets(LemmaAtEntry(st, i))))
      ensures ok && SyncOk(old(st)) ==> (SyncOk(st) <==> !QueuedTwice(old(st), target))
      ensures old(ValidId(id)) && NoLongerLemma(sp, old(st), LemmaAtEntry(old(st), i)) ==>
                && (ok <==> LemmaAtEntry(old(st), i) in Dict(old(st)))
                && (ok ==> target == LemmaAtEntry(old(st), i))
    {
      hide *;
      FieldFacts();
      target := Lemma([], []);
      i := 0;
      ValidIdIs(id);
      if !ValidId(id) {
        return false, 0, target;
      }
      var l: Lemma;
      l, i := LemmaOfId(id);
      var off: int;
      ghost var cached, start, maxOff;
      off, cached, start, maxOff := LocateInOffsets(l);
      AppendFacts(sp, st, l);
      LocatedFacts(sp, st, l, KeyOf(sp, l.ids), cached, start, maxOff, off);
      if off >= 0 {
        target := LemmaAtEntry(st, off);
        LiveInDict(sp, st, off);
        QueuedView(sp, st, off);
      }
      NoLongerAbsent(sp, st, l, off);
      ok := RemoveLemmaByOffsetIndex(off);
    }

    lemma ValidIdIs(id: nat)
      ensures ValidId(id) <==> startId <= id < startId + |offsets|
    {}

    // UserDict::update_lemma
    method UpdateLemma(id: nat, delta: int, selected: bool, now: nat)
      returns (r: nat, ghost i: nat, ghost target: Lemma)
      requires Valid() && CachesValid()
      modifies `scores, `syncs, `st
      ensures Valid() && CachesValid()
      ensures r == 0 ==> st == old(st)
      ensures !old(ValidId(id)) ==> r == 0
      ensures old(ValidId(id)) ==> i < |old(st).ids| == |old(st).slot| && old(st).ids[i] == id
      ensures r != 0 ==>
                && target in Dict(old(st)) && r == Dict(old(st))[target].1
                && Dict(st) == Dict(old(st))[target := (UpdatedScore(Dict(old(st))[target].0, delta, selected, now), r)]
                && SyncView(st) == SyncView(old(st)) + [target] && (SyncOk(old(st)) ==> SyncOk(st))
      ensures old(ValidId(id)) && LiveAt(old(st), i) ==> r == id && target == LemmaAtEntry(old(st), i)
      ensures old(ValidId(id)) ==> (r != 0 <==> old(Meets(LemmaAtEntry(st, i))))
      ensures old(ValidId(id)) && NoLongerLemma(sp, old(st), LemmaAtEntry(old(st), i)) ==>
                && (r != 0 <==> LemmaAtEntry(old(st), i) in Dict(old(st)))
                && (r != 0 ==> target == LemmaAtEntry(old(st), i))
    {
      hide *;
      FieldFacts();
      target := Lemma([], []);
      i := 0;
      ValidIdIs(id);
      if !ValidId(id) {
        return 0, 0, target;
      }
      var l: Lemma;
      l, i := LemmaOfId(id);
      var off: int;
      ghost var cached, start, maxOff;
      off, cached, start, maxOff := LocateInOffsets(l);
      AppendFacts(sp, st, l);
      LocatedFacts(sp, st, l, KeyOf(sp, l.ids), cached, start, maxOff, off);
      NoLongerAbsent(sp, st, l, off);
      if off == -1 {
        return 0, i, target;
      }
      ghost var st0 := st;
      target := LemmaAtEntry(st, off);
      LiveInDict(sp, st, off);
      r := ids[off];
      var score := UpdatedScore(scores[off], delta, selected, now);
      RescoreEntry(off, score);
      FieldFacts();
      RescoredDict(sp, st0, st, off, target, score);
      RescoredFields(st0, off, score);
      SameLemma(st0, st, off);
      QueueKeepsValid(sp, st, off);
      QueueLemmaForSync(ids[off], off);
    }

    // The scans of UserDict::defragment: live entries in front, removed records flagged.
    method Scan() returns (live: nat, ghost s: Scan, ghost t: Scan, ghost rest: seq<Byte>)
      requires Valid()
      modifies `offsets, `scores, `ids, `predicts, lemmas
      ensures BothScanned(sp, st, s, t) && Rows(offsets, scores, ids, s.es) && Column(predicts, t.es)
      ensures live == s.f && LogIs(lemmas, s.recs, rest)
    {
      hide *;
      FieldFacts();
      BacksBytes(lemmas, st);
      rest := lemmas[lemmaSize..];
      LogStart(lemmas, st, rest);
      StartIndexScan(sp, st);
      IndexScanIs(st);
      offsets, scores, ids, live, s := FixupIndex(offsets, scores, ids, lemmas, IndexScan(st), rest);
      RowAt(offsets, scores, ids, s.es, 0);
      ScannedStart(sp, st, s);
      StartPredictScan(sp, st, s);
      PredictScanIs(st, s);
      var plive;
      predicts, plive, t := FixupPredicts(predicts, PredictScan(st, s));
      ColumnSizes(predicts, t.es, 0);
      ScannedBoth(sp, st, s, t);
    }

    method Install(ls: Lists, live: nat, dst: nat)
      requires live <= |scores| && dst <= lemmaSize + sizeLeft
      modifies `offsets, `scores, `predicts, `syncs, `byId, `lemmaSize, `sizeLeft, `freeCount, `freeSize
      ensures offsets == ls.offsets && scores == old(scores)[..live] && predicts == ls.predicts
      ensures syncs == ls.syncs && byId == ls.byId && freeCount == 0 && freeSize == 0
      ensures lemmaSize == dst && lemmaSize + sizeLeft == old(lemmaSize + sizeLeft)
    {
      offsets, scores, predicts, syncs, byId := ls.offsets, scores[..live], ls.predicts, ls.syncs, ls.byId;
      freeCount, freeSize := 0, 0;
      sizeLeft := lemmaSize + sizeLeft - dst;
      lemmaSize := dst;
    }

    // The end of defragment after a slide: the lists of the live entries with ids in
    // index order, and the room gained.
    method CloseGaps(live: nat, dst: nat, ls: Lists, ghost s: Scan, ghost t: Scan, ghost slots: Slots)
      requires BothScanned(sp, st, s, t) && Rows(offsets, scores, ids, s.es) && live == s.f == t.f <= |s.es|
      requires s.f <= |t.es|
      requires AllRecs(s.recs) && dst == |Flat(Keep(s.recs))| <= lemmas.Length && lemmas[..dst] == Flat(Keep(s.recs))
      requires slots == Slots(SlotsOf(s.es[..s.f]), SlotsOf(t.es[..s.f]), st.sslot)
      requires ListsSettled(ls, slots, s.recs, |s.recs|)
      requires live + countLeft <= |ls.byId| && lemmaSize + sizeLeft == lemmas.Length && startId == st.startId > 0
      modifies `offsets, `scores, `ids, `predicts, `syncs, `byId, `lemmaSize, `sizeLeft, `freeCount, `freeSize, `st
      ensures Valid()
      ensures View(st) == View(old(st)) && Scored(Dict(st)) == Scored(Dict(old(st)))
      ensures forall i :: 0 <= i < |offsets| ==> !Removed(offsets[i])
      ensures freeCount == 0 && freeSize == 0
      ensures SyncOk(old(st)) ==> SyncOk(st) && SyncView(st) == SyncView(old(st))
    {
      hide *;
      RowScores(offsets, scores, ids, s.es, s.f);
      ListSizes(ls, slots, s.recs, |s.recs|);
      FinishedLive(sp, st, s, t);
      var byId1;
      ids, byId1 := RenumberIds(ls.offsets, ls.byId, startId);
      var ls1 := ls.(byId := byId1);
      ghost var st1 := Compacted(st, s, t, ls1);
      CompactedFields(st, s, t, ls1, scores);
      SettledAgain(ls, byId1, slots, s.recs, |s.recs|);
      AfterSlide(sp, st, s, t, ls1, st1);
      Install(ls1, live, dst);
      st := st1;
      BackedKept(lemmas, st);
      Restored();
    }

    // UserDict::defragment. The live lemmas keep their order, words and scores; no
    // removed entry is left and the freed bytes become room. The caches are not
    // reset, so nothing is promised about them.
    method Defragment()
      requires Valid()
      modifies this, lemmas
      ensures Valid() && lemmas == old(lemmas)
      ensures View(st) == View(old(st)) && Scored(Dict(st)) == Scored(Dict(old(st)))
      ensures forall i :: 0 <= i < |offsets| ==> !Removed(offsets[i])
      ensures freeCount == 0 && freeSize == 0 && countLeft == old(countLeft)
      ensures lemmaSize + sizeLeft == old(lemmaSize + sizeLeft)
      ensures SyncOk(old(st)) ==> SyncOk(st) && SyncView(st) == SyncView(old(st))
      ensures startId == old(startId) && limitCount == old(limitCount) && limitSize == old(limitSize)
      ensures hits == old(hits) && misses == old(misses)
    {
      hide *;
      FieldFacts();
      ghost var st0 := st;
      var live: nat;
      ghost var s, t, rest;
      live, s, t, rest := this.Scan();
      BeforeSlide(sp, st, s, t, offsets, scores, ids, predicts);
      LogBytes(lemmas, s.recs, rest);
      ghost var bytes := lemmas[..];
      ghost var slots := Slots(SlotsOf(s.es[..s.f]), SlotsOf(t.es[..s.f]), st.sslot);
      var ls0 := Lists(offsets[..live], byId, predicts[..live], syncs);
      var gaps, dst, ls := Slide(lemmas, lemmaSize, ls0, ids[..live], startId, s.recs, rest, slots);
      if !gaps {
        NoGaps(sp, st, s, t, offsets, scores, ids, predicts);
        BackedBytes(lemmas, st, bytes, rest);
        Restored();
        return;
      }
      CloseGaps(live, dst, ls, s, t, slots);
      FieldFacts();
    }

    // UserDict::reclaim, with nothing removed before: rc lemmas are removed, and if no shift_down meets a tie
    // those of the lowest scores.
    method Reclaim(ratio: nat) returns (rc: nat, ghost removed: set<nat>)
      requires Valid() && CachesValid() && ratio < 100
      requires forall i: nat :: i < |st.slot| ==> LiveAt(st, i)
      requires ratio == 0 || ReclaimCount(|offsets|, ratio) > 0
      modifies `offsets, `predicts, `syncs, `freeCount, `freeSize, `st
      ensures Valid() && CachesValid()
      ensures rc == if ratio == 0 then 0 else ReclaimCount(|offsets|, ratio)
      ensures |removed| == rc && scores == old(scores) && |old(scores)| == |old(st).slot|
      ensures forall i: nat :: i < |scores| ==> (i in removed <==> !LiveAt(st, i))
      ensures forall i: nat :: i in removed ==> i < |scores|
      ensures 0 < rc <= |scores| && UserReclaim.NoTieMet(scores, rc) ==>
                forall i: nat, j: nat :: i in removed && j < |scores| && j !in removed ==>
                  UserReclaim.AsInt(scores[i]) <= UserReclaim.AsInt(scores[j])
      ensures Dict(st) == Dict(old(st)) - LemmasAt(old(st), removed)
    {
      hide *;
      FieldFacts();
      removed := {};
      if ratio == 0 {
        rc := 0;
        NoneReclaimed(st);
        return;
      }
      rc := ReclaimCount(|offsets|, ratio);
      RcBound(|offsets|, ratio);
      var sop := UserReclaim.PickLowest(scores, rc);
      ghost var st0, pairs := st, sop[..];
      ReclaimStart(st, pairs);
      for i := 0 to rc
        invariant Valid() && CachesValid() && sop[..] == pairs && scores == old(scores)
        invariant Reclaimed(st0, st, pairs, i) && scores == st.scores && |scores| == |st.slot|
      {
        FieldFacts();
        ReclaimNext(st0, st, pairs, scores, i);
        ghost var was := st;
        assert sop[i] == pairs[i];
        var ok := RemoveLemmaByOffsetIndex(sop[i].index);
        ReclaimedOne(st0, was, st, pairs, scores, i);
        FieldFacts();
      }
      removed := IndexSet(pairs, rc);
      FieldFacts();
      ReclaimDone(st0, st, pairs, scores, rc);
    }
  }

  // count * reclaim_ratio / 100 on 32-bit words
  function ReclaimCount(n: nat, ratio: nat): nat { n * ratio % 0x1_0000_0000 / 100 }

  lemma RcBound(n: nat, ratio: nat)
    requires ratio < 100
    ensures ReclaimCount(n, ratio) <= n
  {
    LowPart(n * ratio, n);
  }

  lemma LowPart(x: nat, n: nat)
    requires x <= 100 * n
    ensures x % 0x1_0000_0000 / 100 <= n
  {}

  // The index entries of the first i pairs.
  ghost function IndexSet(pairs: seq<UserReclaim.Pair>, i: nat): (s: set<nat>) {
    set k | 0 <= k < i && k < |pairs| :: pairs[k].index
  }

  ghost function LemmasAt(st: Store, s: set<nat>): set<Lemma> {
    set i | i in s && i < |st.slot| :: LemmaAtEntry(st, i)
  }

  // The entries of the first i pairs have been removed from st0, and nothing else.
  ghost predicate Reclaimed(st0: Store, st: Store, pairs: seq<UserReclaim.Pair>, i: nat) {
    && st.recs == st0.recs && st.slot == st0.slot
    && (forall j: nat :: LiveAt(st, j) <==> j < |st0.slot| && j !in IndexSet(pairs, i))
    && Dict(st) == Dict(st0) - LemmasAt(st0, IndexSet(pairs, i))
  }

  lemma NoneReclaimed(st: Store)
    ensures LemmasAt(st, {}) == {}
  {
    hide Dict, LemmaAtEntry;
  }

  lemma ReclaimStart(st: Store, pairs: seq<UserReclaim.Pair>)
    requires forall i: nat :: i < |st.slot| ==> LiveAt(st, i)
    ensures Reclaimed(st, st, pairs, 0)
  {
    hide Dict;
    assert IndexSet(pairs, 0) == {};
    assert LemmasAt(st, {}) == {};
  }

  lemma IndexNotIn(pairs: seq<UserReclaim.Pair>, scores: seq<nat>, i: nat)
    requires UserReclaim.DistinctIndices(pairs) && UserReclaim.Entries(pairs, scores, |scores|) && i < |pairs|
    ensures pairs[i].index !in IndexSet(pairs, i) && pairs[i].index < |scores|
  {
    hide UserReclaim.AsInt;
  }

  lemma ReclaimNext(st0: Store, st: Store, pairs: seq<UserReclaim.Pair>, scores: seq<nat>, i: nat)
    requires Reclaimed(st0, st, pairs, i) && i < |pairs| && |scores| == |st.slot|
    requires UserReclaim.DistinctIndices(pairs) && UserReclaim.Entries(pairs, scores, |scores|)
    ensures LiveAt(st, pairs[i].index) && pairs[i].index < |st.slot|
  {
    IndexNotIn(pairs, scores, i);
    hide LiveAt, Dict;
  }

  lemma ReclaimedOne(st0: Store, st: Store, st': Store, pairs: seq<UserReclaim.Pair>, scores: seq<nat>, i: nat)
    requires Reclaimed(st0, st, pairs, i) && i < |pairs| && |scores| == |st.slot|
    requires UserReclaim.DistinctIndices(pairs) && UserReclaim.Entries(pairs, scores, |scores|)
    requires pairs[i].index < |st.slot| && SameEntries(st, st', pairs[i].index)
    requires Dict(st') == Dict(st) - {LemmaAtEntry(st, pairs[i].index)}
    ensures Reclaimed(st0, st', pairs, i + 1)
  {
    hide LiveAt, Dict, LemmaAtEntry;
    var a, b := IndexSet(pairs, i), IndexSet(pairs, i + 1);
    assert b == a + {pairs[i].index};
    assert LemmaAtEntry(st, pairs[i].index) == LemmaAtEntry(st0, pairs[i].index) by {
      SameLemma(st0, st, pairs[i].index);
    }
    assert LemmasAt(st0, b) == LemmasAt(st0, a) + {LemmaAtEntry(st0, pairs[i].index)};
    hide LemmasAt, IndexSet;
    assert Dict(st') == Dict(st0) - LemmasAt(st0, b);
  }

  lemma ReclaimDone(st0: Store, st: Store, pairs: seq<UserReclaim.Pair>, scores: seq<nat>, rc: nat)
    requires Reclaimed(st0, st, pairs, rc) && rc == |pairs| && |scores| == |st.slot|
    requires UserReclaim.DistinctIndices(pairs) && UserReclaim.Entries(pairs, scores, |scores|)
    ensures var removed := IndexSet(pairs, rc);
            && |removed| == rc
            && (forall i: nat :: i < |scores| ==> (i in removed <==> !LiveAt(st, i)))
            && (forall i: nat :: i in removed ==> i < |scores|)
            && (UserReclaim.Lowest(pairs, scores, |scores|) ==>
                  forall i: nat, j: nat :: i in removed && j < |scores| && j !in removed ==>
                    UserReclaim.AsInt(scores[i]) <= UserReclaim.AsInt(scores[j]))
            && Dict(st) == Dict(st0) - LemmasAt(st0, removed)
  {
    hide LiveAt, Dict, UserReclaim.AsInt, LemmasAt;
    var s := seq(rc, k requires 0 <= k < rc => pairs[k].index);
    DistinctSize(s);
    forall x: nat
      ensures x in s <==> x in IndexSet(pairs, rc)
    {
      if x in IndexSet(pairs, rc) {
        var k :| 0 <= k < rc && pairs[k].index == x;
        assert s[k] == x;
      }
    }
    assert Elems(s) == IndexSet(pairs, rc);
    forall j: nat | j < |scores| && j !in IndexSet(pairs, rc)
      ensures !UserReclaim.Picked(pairs, j)
    {}
  }

  lemma SettledAgain(ls: Lists, byId: seq<nat>, slots: Slots, recs: seq<Rec>, done: nat)
    requires ListsSettled(ls, slots, recs, done)
    ensures ListsSettled(ls.(byId := byId), slots, recs, done)
  {}

  lemma IndexScanIs(st: Store)
    requires |st.slot| == |st.offsets| == |st.scores| == |st.ids|
    ensures var s := IndexScan(st);
            && s.es == EntriesOf(st) == s.es0 && s.recs == st.recs == s.recs0 && s.dead == st.dead && s.f == 0 == s.g
  {}

  lemma PredictScanIs(st: Store, s: Scan)
    requires |st.pslot| == |st.predicts|
    ensures var t := PredictScan(st, s);
            && t.es == PredictsOf(st) == t.es0 && t.recs == s.recs == t.recs0 && t.dead == st.dead && t.f == 0 == t.g
  {}

  lemma SameLemma(st: Store, st': Store, i: nat)
    requires st'.recs == st.recs && st'.slot == st.slot && i < |st.slot|
    ensures LemmaAtEntry(st', i) == LemmaAtEntry(st, i)
  {}

  // The index entry of a valid id, and where its record starts.
  lemma IdEntry(sp: Spellings, st: Store, id: nat) returns (i: nat)
    requires ValidStore(sp, st) && st.startId <= id < st.startId + |st.offsets|
    ensures i < |st.ids| == |st.slot| && st.ids[i] == id && st.slot[i] < |st.recs|
    ensures id - st.startId < |st.byId| && Off(st.byId[id - st.startId]) == Start(st.recs, st.slot[i])
  {
    i := IdOnto(st, id);
    hide Start, IsPerm, SortedOk, UniqueOk, FreeOk, SyncShape, LogOk, OkSpellings, Off, Removed;
  }

  lemma U16Small(r: Rec, b: nat, n: nat)
    requires b + 2 * n <= |r|
    ensures forall i :: 0 <= i < n ==> U16s(r, b, n)[i] < 0x1_0000
  {}

  // Whatever the log holds may be stored again.
  lemma EntryStorable(sp: Spellings, st: Store, i: nat)
    requires ValidStore(sp, st) && i < |st.slot|
    ensures Storable(sp, LemmaAtEntry(st, i)) && st.slot[i] < |st.recs| && IsRec(st.recs[st.slot[i]])
    ensures LemmaAtEntry(st, i) == Lemma(RecIds(st.recs[st.slot[i]]), RecWord(st.recs[st.slot[i]]))
  {
    EntryFacts(sp, st, i);
    var r := st.recs[st.slot[i]];
    U16Small(r, 2, r[1]);
    U16Small(r, 2 + 2 * (r[1] as int), r[1]);
    hide ValidStore, U16s;
  }

  lemma LiveInDict(sp: Spellings, st: Store, i: nat)
    requires ValidStore(sp, st) && i < |st.slot|
    ensures i < |st.scores| && i < |st.ids|
    ensures LiveAt(st, i) ==>
              && LemmaAtEntry(st, i) in Dict(st)
              && Dict(st)[LemmaAtEntry(st, i)] == (st.scores[i], st.ids[i]) && st.ids[i] >= st.startId
  {
    EntryFacts(sp, st, i);
    assert st.ids[i] >= st.startId;
    if LiveAt(st, i) {
      RemoveFacts(sp, st, i);
      ValidOneEntry(sp, st);
      DictOf(st, i, LemmaAtEntry(st, i));
    }
  }

  lemma NoLongerAbsent(sp: Spellings, st: Store, l: Lemma, off: int)
    requires ValidStore(sp, st) && off >= -1
    requires l in Dict(st) ==> off >= 0
    requires off >= 0 ==> off < |st.slot| && LiveAt(st, off)
    requires off >= 0 && NoLongerLemma(sp, st, l) ==> LemmaAtEntry(st, off) == l
    ensures NoLongerLemma(sp, st, l) ==> (off >= 0 <==> l in Dict(st))
  {
    hide *;
    if off >= 0 {
      LiveInDict(sp, st, off);
    }
  }

  lemma IsTakenOut(st: Store, k: nat, word: nat, syncs: seq<nat>, sslot: seq<int>, at: nat)
    requires |st.sslot| == |st.syncs| && k < |st.recs| && Off(word) == Start(st.recs, k)
    requires at <= |st.syncs| && forall i :: 0 <= i < at ==> Off(st.syncs[i]) != Off(word)
    requires at < |st.syncs| ==>
               Off(st.syncs[at]) == Off(word) && syncs == SwapRemove(st.syncs, at) && sslot == SwapRemove(st.sslot, at)
    requires at == |st.syncs| ==> syncs == st.syncs && sslot == st.sslot
    ensures TakenOut(st, k, syncs, sslot, at)
  {
    hide Start, Off;
  }

  lemma EntriesKept(st: Store, st': Store, i: nat)
    requires SameEntries(st, st', i)
    ensures st'.recs == st.recs && st'.slot == st.slot && forall j: nat :: LiveAt(st', j) ==> LiveAt(st, j)
  {}

  // The number of syllables of record k.
  method Nchar(lemmas: array<Byte>, word: nat, ghost st: Store, ghost k: nat) returns (nchar: nat)
    requires Backs(lemmas, st) && AllRecs(st.recs) && k < |st.recs| && Off(word) == Start(st.recs, k)
    ensures RecSize(nchar) == |st.recs[k]|
  {
    RecordBytes(lemmas, st, k);
    hide Flat, Start, Off;
    ghost var r := st.recs[k];
    var off := Off(word);
    assert lemmas[off + 1] == lemmas[off..off + |r|][1] == r[1];
    nchar := lemmas[off + 1];
  }

  lemma RemoveFacts(sp: Spellings, st: Store, i: nat)
    requires ValidStore(sp, st) && LiveAt(st, i) && i < |st.slot|
    ensures i < |st.offsets| && st.slot[i] < |st.recs| && !st.dead[st.slot[i]] && IndexOk(st)
    ensures |st.sslot| == |st.syncs|
    ensures Off(st.offsets[i]) == Start(st.recs, st.slot[i])
    ensures Holds(st, i, LemmaAtEntry(st, i))
  {
    EntryFacts(sp, st, i);
  }

  // Entry for entry the same store, except that entry i is removed.
  ghost predicate SameEntries(st: Store, st': Store, i: nat) {
    && st'.recs == st.recs && st'.slot == st.slot && st'.scores == st.scores && st'.ids == st.ids && st'.byId == st.byId
    && |st'.offsets| == |st.offsets| && st'.startId == st.startId
    && forall j: nat :: LiveAt(st', j) <==> LiveAt(st, j) && j != i
  }

  lemma RemovedFields(st: Store, i: nat, p: nat, syncs: seq<nat>, sslot: seq<int>)
    requires i < |st.slot| == |st.offsets| && p < |st.predicts| && st.slot[i] < |st.recs| == |st.dead|
    ensures var t := RemoveAt(st, i, p, syncs, sslot);
            && t.offsets == st.offsets[i := SetRemoved(st.offsets[i])]
            && t.predicts == st.predicts[p := SetRemoved(st.predicts[p])]
            && t.syncs == syncs && t.ids == st.ids && t.byId == st.byId && t.slot == st.slot && t.scores == st.scores
            && t.startId == st.startId && t.recs == st.recs
            && t.freeCount == st.freeCount + 1 && t.freeSize == st.freeSize + |st.recs[st.slot[i]]|
  {}

  lemma RemovedStore(sp: Spellings, st: Store, st': Store, i: nat, p: nat, syncs: seq<nat>, sslot: seq<int>, at: nat)
    requires ValidStore(sp, st) && LiveAt(st, i) && i < |st.slot| == |st.offsets| && p < |st.pslot| == |st.predicts|
    requires st.slot[i] < |st.recs| == |st.dead| && st.pslot[p] == st.slot[i]
    requires st' == RemoveAt(st, i, p, syncs, sslot)
    requires TakenOut(st, st.slot[i], syncs, sslot, at)
    ensures ValidStore(sp, st') && Dict(st') == Dict(st) - {LemmaAtEntry(st, i)} && SameEntries(st, st', i)
    ensures SyncOk(st) ==> (SyncOk(st') <==> QueuedOnce(st, st.slot[i]))
  {
    StartsBounded(sp, st);
    RemoveFacts(sp, st, i);
    OnlyEntry(sp, st, st', i, p, syncs, sslot);
    hide *;
    SyncsAfterRemove(st, i, p, syncs, sslot, at);
    RemoveKeepsValid(sp, st, st', i, p, syncs, sslot);
    DictRemoved(sp, st, st', i, p, syncs, sslot, LemmaAtEntry(st, i));
  }

  lemma StartsBounded(sp: Spellings, st: Store)
    requires ValidStore(sp, st)
    ensures AllRecs(st.recs) && SyncShape(st) && forall k :: 0 <= k < |st.recs| ==> Start(st.recs, k) <= OFFSET_MASK
  {}

  lemma OnlyEntry(sp: Spellings, st: Store, st': Store, i: nat, p: nat, syncs: seq<nat>, sslot: seq<int>)
    requires ValidStore(sp, st) && LiveAt(st, i) && i < |st.slot| == |st.offsets| && p < |st.pslot| == |st.predicts|
    requires st.slot[i] < |st.recs| == |st.dead| && st' == RemoveAt(st, i, p, syncs, sslot)
    ensures SameEntries(st, st', i)
  {
    assert Distinct(st.slot) by {
      assert IsPerm(st.slot, |st.recs|);
    }
    hide ValidStore;
  }

  lemma RoomAfterFlush(len: nat)
    requires len <= MAX_LEMMA_SIZE
    ensures RecSize(len) <= SPARE_BYTES && PRE_ALLOC > 0
  {}

  lemma SameKeys(st: Store, st': Store, l: Lemma)
    requires Scored(Dict(st)) == Scored(Dict(st'))
    ensures l in Dict(st) <==> l in Dict(st')
  {
    hide Dict;
    assert l in Scored(Dict(st)) <==> l in Dict(st);
    assert l in Scored(Dict(st')) <==> l in Dict(st');
  }

  // What the entry found says about the dictionary.
  lemma LocatedFacts(sp: Spellings, st: Store, l: Lemma, key: Key, cached: bool, start: nat, maxOff: nat, off: int)
    requires ValidStore(sp, st) && Located(sp, st, l, key, cached, start, maxOff, off)
    ensures off >= -1
    ensures l in Dict(st) ==> off >= 0 && off < |st.slot| && LemmaAtEntry(st, off) == l
    ensures off >= 0 && NoLongerLemma(sp, st, l) ==> off < |st.slot| && LemmaAtEntry(st, off) == l
    ensures off >= 0 ==>
              && off < |st.slot| && LiveAt(st, off) && Holds(st, off, LemmaAtEntry(st, off))
              && l.ids <= LemmaAtEntry(st, off).ids && l.word <= LemmaAtEntry(st, off).word
  {
    if off >= 0 {
      EntryFacts(sp, st, off);
      assert Holds(st, off, LemmaAtEntry(st, off));
    }
    hide ValidStore, Seen, RangeOk, Dict;
    if l in Dict(st) {
      var i := DictEntry(st, l);
    }
  }

  lemma RescoredDict(sp: Spellings, st: Store, st': Store, i: nat, l: Lemma, score: nat)
    requires ValidStore(sp, st) && Holds(st, i, l) && i < |st.scores| && i < |st.ids|
    requires st' == Rescore(st, i, score) && ValidStore(sp, st')
    ensures l in Dict(st) && Dict(st)[l].1 == st.ids[i] >= st.startId
    ensures Dict(st') == Dict(st)[l := (score, st.ids[i])]
    ensures Scored(Dict(st')) == Scored(Dict(st))[l := score]
    ensures SyncView(st') == SyncView(st) && (SyncOk(st) ==> SyncOk(st'))
  {
    assert st.ids[i] >= st.startId;
    RescoredFields(st, i, score);
    assert SyncView(st') == SyncView(st);
    hide ValidStore, Dict, Holds, Rescore, SyncView, SyncOk;
    ValidOneEntry(sp, st);
    DictOf(st, i, l);
    DictRescored(sp, st, i, l, score);
    ScoredPut(Dict(st), l, (score, st.ids[i]));
  }

  // What queueing the live lemma of entry i does.
  ghost function Queued(st: Store, i: nat): Store
    requires i < |st.slot|
  {
    st.(syncs := st.syncs + [Start0(st.recs, st.slot[i])], sslot := st.sslot + [st.slot[i]])
  }

  ghost function Start0(recs: seq<Rec>, k: nat): nat {
    if k <= |recs| then Start(recs, k) else 0
  }

  lemma QueueFacts(sp: Spellings, st: Store, i: nat)
    requires ValidStore(sp, st) && i < |st.ids| && LiveAt(st, i)
    ensures i < |st.slot| && st.startId <= st.ids[i] < st.startId + |st.byId|
    ensures st.byId[st.ids[i] - st.startId] == Start0(st.recs, st.slot[i])
  {
    hide Start, IsPerm, SortedOk, UniqueOk, FreeOk, SyncShape, LogOk, OkSpellings;
  }

  lemma QueuedFields(st: Store, i: nat)
    requires i < |st.slot|
    ensures var t := Queued(st, i);
            && t.syncs == st.syncs + [Start0(st.recs, st.slot[i])]
            && t.ids == st.ids && t.byId == st.byId && t.slot == st.slot && t.dead == st.dead
            && t.offsets == st.offsets && t.scores == st.scores && t.predicts == st.predicts
            && t.startId == st.startId && t.freeCount == st.freeCount && t.freeSize == st.freeSize && t.recs == st.recs
    ensures forall j: nat :: LiveAt(Queued(st, i), j) <==> LiveAt(st, j)
  {}

  lemma QueuedShape(st: Store, i: nat)
    requires SyncShape(st) && i < |st.slot| && LiveAt(st, i) && st.slot[i] < |st.recs|
    ensures SyncShape(Queued(st, i)) && (SyncOk(st) ==> SyncOk(Queued(st, i)))
    ensures SyncView(Queued(st, i)) == SyncView(st) + [LemmaAtEntry(st, i)]
  {
    hide Start, LemmaOf, IsRec;
  }

  lemma QueuedRest(sp: Spellings, st: Store, i: nat)
    requires ValidStore(sp, st) && i < |st.slot|
    ensures var t := Queued(st, i);
            LogOk(sp, t) && IndexOk(t) && IdsOk(t) && FreeOk(t) && OkSpellings(sp) && SortedOk(sp, t) && UniqueOk(sp, t)
    ensures SyncShape(st) && st.slot[i] < |st.recs|
  {
    hide Start, KeyAtSlot, LemmaOf, CmpKey, IsRec, Off, Removed, AllRecs, FullIds, Dead, CountDead, DeadBytes, IsPerm;
  }

  // Queueing a live lemma keeps the store valid and shows the lemma in the queue.
  lemma QueueKeepsValid(sp: Spellings, st: Store, i: nat)
    requires ValidStore(sp, st) && i < |st.slot| && LiveAt(st, i)
    ensures ValidStore(sp, Queued(st, i)) && Dict(Queued(st, i)) == Dict(st)
    ensures SyncView(Queued(st, i)) == SyncView(st) + [LemmaAtEntry(st, i)]
    ensures SyncOk(st) ==> SyncOk(Queued(st, i))
  {
    QueuedRest(sp, st, i);
    hide LogOk, IndexOk, IdsOk, FreeOk, OkSpellings, SortedOk, UniqueOk, SyncShape, SyncOk, SyncView, Queued, Dict;
    hide LiveAt;
    QueuedShape(st, i);
    QueuedDict(sp, st, i);
  }

  lemma QueuedHolds(st: Store, i: nat)
    requires i < |st.slot|
    ensures forall j: nat, m :: Holds(Queued(st, i), j, m) <==> Holds(st, j, m)
    ensures OneEntryEach(st) ==> OneEntryEach(Queued(st, i))
  {
    var st' := Queued(st, i);
    forall j: nat, m
      ensures Holds(st', j, m) <==> Holds(st, j, m)
    {
      hide LemmaOf, IsRec;
    }
    hide Holds, Queued;
  }

  lemma QueuedDict(sp: Spellings, st: Store, i: nat)
    requires ValidStore(sp, st) && i < |st.slot|
    ensures Dict(Queued(st, i)) == Dict(st)
  {
    hide *;
    var st' := Queued(st, i);
    ValidOneEntry(sp, st);
    QueuedHolds(st, i);
    QueuedFields(st, i);
    forall m
      ensures m in Dict(st') <==> m in Dict(st)
      ensures m in Dict(st') ==> Dict(st')[m] == Dict(st)[m]
    {
      SameHolds(st, st', m);
    }
  }

  // Stores with the same entries agree on a lemma.
  lemma SameHolds(st: Store, st': Store, m: Lemma)
    requires OneEntryEach(st) && OneEntryEach(st') && st'.scores == st.scores && st'.ids == st.ids
    requires forall j: nat :: Holds(st', j, m) <==> Holds(st, j, m)
    ensures m in Dict(st') <==> m in Dict(st)
    ensures m in Dict(st') ==> Dict(st')[m] == Dict(st)[m]
  {
    hide Dict, OneEntryEach, Holds;
    if m in Dict(st') {
      var j := DictEntry(st', m);
      DictOf(st', j, m);
      DictOf(st, j, m);
    } else if m in Dict(st) {
      var j := DictEntry(st, m);
      DictOf(st', j, m);
    }
  }

  ghost function LemmaAtEntry(st: Store, i: nat): Lemma
    requires i < |st.slot|
  {
    LemmaAt(st.recs, st.slot[i])
  }

  lemma RescoredFields(st: Store, i: nat, score: nat)
    requires i < |st.scores|
    ensures var t := Rescore(st, i, score);
            && t.scores == st.scores[i := score]
            && t.ids == st.ids && t.byId == st.byId && t.slot == st.slot && t.dead == st.dead
            && t.offsets == st.offsets && t.predicts == st.predicts && t.syncs == st.syncs
            && t.startId == st.startId && t.freeCount == st.freeCount && t.freeSize == st.freeSize && t.recs == st.recs
    ensures forall j: nat :: LiveAt(Rescore(st, i, score), j) <==> LiveAt(st, j)
    ensures SyncOk(Rescore(st, i, score)) <==> SyncOk(st)
  {}

  // The bytes of the log, with room behind them.
  method CopyLog(lemmas: array<Byte>, size: nat, ghost st: Store) returns (copy: array<Byte>)
    requires Backs(lemmas, st) && size == |Flat(st.recs)|
    ensures fresh(copy) && copy.Length == size + SPARE_BYTES && Backs(copy, st)
  {
    BacksBytes(lemmas, st);
    hide Flat;
    copy := new Byte[size + SPARE_BYTES];
    for i := 0 to size
      invariant copy[..i] == lemmas[..i]
    {
      copy[i] := lemmas[i];
    }
  }

  lemma ReloadedFields(st: Store)
    ensures var t := Reloaded(st);
            && t.ids == IdsFrom(st.startId, |st.offsets|) && t.byId == WithRoom(st.offsets)
            && t.offsets == st.offsets && t.scores == st.scores && t.predicts == st.predicts && t.syncs == st.syncs
            && t.startId == st.startId && t.freeCount == st.freeCount && t.freeSize == st.freeSize && t.recs == st.recs
            && SyncView(t) == SyncView(st)
  {}

  lemma FreshId(sp: Spellings, st: Store)
    requires ValidStore(sp, st)
    ensures st.startId + |st.offsets| !in st.ids
  {
    hide Start, Off, Removed, LogOk, SyncShape, SortedOk, UniqueOk, FreeOk, OkSpellings, IsPerm;
  }

  lemma AppendedSyncView(st: Store, st': Store, r: Rec)
    requires SyncShape(st) && st'.recs == st.recs + [r] && st'.sslot == st.sslot
    ensures SyncView(st') == SyncView(st)
  {
    hide Start, LemmaOf, IsRec;
  }

  lemma AppendedDict(sp: Spellings, st: Store, st': Store, l: Lemma, score: nat, i: nat, j: nat)
    requires ValidStore(sp, st) && ValidStore(sp, st') && Storable(sp, l)
    requires CanAppend(sp, st, RecOf(sp, l), i, j) && Fits(st, i, j) && st' == AppendAt(st, RecOf(sp, l), score, i, j)
    ensures Dict(st') == Dict(st)[l := (score, st.startId + |st.recs|)]
    ensures SyncView(st') == SyncView(st) && (SyncOk(st) ==> SyncOk(st'))
    ensures i < |st'.ids| == |st'.slot| && st'.ids[i] == st.startId + |st.recs|
    ensures LiveAt(st', i) && LemmaAtEntry(st', i) == l
  {
    RecOfReads(sp, l);
    HoldsNew(sp, st, st', RecOf(sp, l), score, i, j, l);
    hide RecOf, CanAppend, AppendAt, Dict, SyncView, SyncOk, Storable;
    AppendKeepsValid(sp, st, st', RecOf(sp, l), score, i, j);
    DictAppended(sp, st, st', RecOf(sp, l), score, i, j);
    AppendMirror(st, st', RecOf(sp, l), score, i, j);
    AppendedSyncView(st, st', RecOf(sp, l));
  }

  // The log with record r behind it.
  ghost function Extended(st: Store, r: Rec): Store {
    st.(recs := st.recs + [r], dead := st.dead + [false])
  }

  lemma AppendFacts(sp: Spellings, st: Store, l: Lemma)
    requires ValidStore(sp, st) && Storable(sp, l)
    ensures OkSpellings(sp) && FullIds(sp, l.ids) && 0 < |l.ids| == |l.word| <= MAX_LEMMA_SIZE
    ensures IsRec(RecOf(sp, l)) && |RecOf(sp, l)| == RecSize(|l.ids|)
  {
    RecOfReads(sp, l);
  }

  lemma BacksBytes(lemmas: array<Byte>, st: Store)
    requires Backs(lemmas, st)
    ensures |Flat(st.recs)| <= lemmas.Length && lemmas[..][..|Flat(st.recs)|] == Flat(st.recs)
  {
    hide Flat;
    assert lemmas[..][..|Flat(st.recs)|] == lemmas[..|Flat(st.recs)|];
  }

  lemma BacksPrefix(lemmas: array<Byte>, st: Store, was: seq<Byte>)
    requires |was| == lemmas.Length && |Flat(st.recs)| <= |was| && was[..|Flat(st.recs)|] == Flat(st.recs)
    requires lemmas[..|Flat(st.recs)|] == was[..|Flat(st.recs)|]
    ensures Backs(lemmas, st)
  {}

  lemma BacksSame(lemmas: array<Byte>, st: Store, st': Store)
    requires Backs(lemmas, st) && st'.recs == st.recs
    ensures Backs(lemmas, st')
  {}

  lemma InsertBound(sp: Spellings, st: Store, key: Key, i: nat)
    requires ValidStore(sp, st) && InsertPoint(sp, st, key, i)
    ensures i <= |st.slot|
  {}

  lemma ExtendedIs(st: Store, r: Rec, at: nat)
    requires at <= |st.offsets|
    ensures Extended(st, r).recs == st.recs + [r] && Extended(st, r).dead == st.dead + [false]
    ensures |Insert(st.offsets, at, |Flat(st.recs)|)| == |st.offsets| + 1
  {
    hide Flat;
  }

  lemma RecsAppended(recs: seq<Rec>, r: Rec)
    requires AllRecs(recs) && IsRec(r)
    ensures AllRecs(recs + [r]) && |Flat(recs + [r])| == |Flat(recs)| + |r|
  {
    AppendStarts(recs, r);
  }

  lemma PointingAppended(sp: Spellings, st: Store, i: nat, r: Rec)
    requires ValidStore(sp, st) && i <= |st.offsets| == |st.slot| == |st.recs| && |Flat(st.recs)| <= OFFSET_MASK
    ensures Pointing(Insert(st.offsets, i, |Flat(st.recs)|), Insert(st.slot, i, |st.recs|), st.recs + [r],
              st.dead + [false])
  {
    PointingInsert(st.offsets, st.slot, st.recs, st.dead, i, r);
  }

  lemma CanAppendNow(sp: Spellings, st: Store, l: Lemma, r: Rec, i: nat, j: nat)
    requires ValidStore(sp, st) && Storable(sp, l) && l !in Dict(st) && r == RecOf(sp, l)
    requires |st.recs| < |st.byId| && |Flat(st.recs)| <= OFFSET_MASK && j <= |st.predicts|
    requires FullIds(sp, l.ids) && InsertPoint(sp, st, KeyOf(sp, l.ids), i)
    ensures CanAppend(sp, st, r, i, j) && Fits(st, i, j)
  {
    RecOfReads(sp, l);
    assert RecIds(r) == LemmaOf(r).ids == l.ids;
    ValidOneEntry(sp, st);
    hide RecOf, Flat, Start, Dict, SortedOk, UniqueOk, IdsOk, FreeOk, SyncShape, OneEntryEach, Dead, FullIds, CmpKey;
    hide KeyAtSlot, Off, Removed;
    forall k | 0 <= k < |st.recs| && !st.dead[k]
      ensures LemmaOf(st.recs[k]) != LemmaOf(r)
    {
      var e := SlotAt(st.slot, |st.recs|, k);
      if LemmaOf(st.recs[k]) == l {
        DictOf(st, e, l);
      }
    }
  }

  lemma Appended(sp: Spellings, lemmas: array<Byte>, st: Store, st': Store, r: Rec, score: nat, i: nat, j: nat,
                 offset: nat, id: nat)
    requires CanAppend(sp, st, r, i, j) && Fits(st, i, j) && st' == AppendAt(st, r, score, i, j)
    requires offset == |Flat(st.recs)| && id == st.startId + |st.recs|
    requires Backs(lemmas, Extended(st, r)) && AllRecs(st.recs) && IsRec(r)
    ensures ValidStore(sp, st') && |Flat(st'.recs)| == |Flat(st.recs)| + |r| && Backs(lemmas, st')
    ensures st'.offsets == Insert(st.offsets, i, offset) && st'.scores == Insert(st.scores, i, score)
    ensures st'.ids == Insert(st.ids, i, id) && st'.predicts == Insert(st.predicts, j, offset)
    ensures st'.byId == st.byId[id - st.startId := offset] && st'.syncs == st.syncs && st'.startId == st.startId
    ensures st'.freeCount == st.freeCount && st'.freeSize == st.freeSize && st'.recs == st.recs + [r]
  {
    AppendMirror(st, st', r, score, i, j);
    AppendKeepsValid(sp, st, st', r, score, i, j);
    BacksSame(lemmas, Extended(st, r), st');
    RecsAppended(st.recs, r);
  }

  lemma AppendMirror(st: Store, st': Store, r: Rec, score: nat, i: nat, j: nat)
    requires Fits(st, i, j) && st' == AppendAt(st, r, score, i, j)
    ensures st'.offsets == Insert(st.offsets, i, |Flat(st.recs)|) && st'.scores == Insert(st.scores, i, score)
    ensures st'.ids == Insert(st.ids, i, st.startId + |st.recs|)
    ensures st'.predicts == Insert(st.predicts, j, |Flat(st.recs)|)
    ensures st'.byId == st.byId[|st.recs| := |Flat(st.recs)|] && st'.syncs == st.syncs && st'.startId == st.startId
    ensures st'.freeCount == st.freeCount && st'.freeSize == st.freeSize && st'.recs == st.recs + [r]
  {}

  // The lemma waits in the sync queue at two places.
  ghost predicate QueuedTwice(st: Store, l: Lemma) {
    exists a, b :: 0 <= a < b < |SyncView(st)| && SyncView(st)[a] == l && SyncView(st)[b] == l
  }

  lemma QueuedView(sp: Spellings, st: Store, i: nat)
    requires ValidStore(sp, st) && LiveAt(st, i) && i < |st.slot|
    ensures SyncOk(st) ==> (QueuedOnce(st, st.slot[i]) <==> !QueuedTwice(st, LemmaAtEntry(st, i)))
  {
    if SyncOk(st) {
      var k, l := st.slot[i], LemmaAtEntry(st, i);
      forall j | 0 <= j < |st.sslot|
        ensures SyncView(st)[j] == l <==> st.sslot[j] == k
      {
        SameRecord(sp, st, st.sslot[j], k);
      }
      hide ValidStore, SyncOk, LemmaAtEntry;
      if !QueuedOnce(st, k) {
        var a, b :| 0 <= a < b < |st.sslot| && st.sslot[a] == k && st.sslot[b] == k;
        assert SyncView(st)[a] == l && SyncView(st)[b] == l;
      }
    }
  }

  // Live records with the same lemma are the same.
  lemma SameRecord(sp: Spellings, st: Store, j: nat, k: nat)
    requires ValidStore(sp, st) && j < |st.recs| == |st.dead| && k < |st.recs| && !st.dead[j] && !st.dead[k]
    ensures LemmaAt(st.recs, j) == LemmaAt(st.recs, k) <==> j == k
  {
    hide SortedOk, SyncShape, IdsOk, FreeOk, IndexOk, OkSpellings, Start, Dead, FullIds;
  }

  // The entry of a live lemma's id is live.
  lemma LiveId(sp: Spellings, st: Store, l: Lemma, id: nat, i: nat)
    requires ValidStore(sp, st) && l in Dict(st) && Dict(st)[l].1 == id
    ensures st.startId <= id < st.startId + |st.ids| && |st.ids| == |st.slot|
    ensures i < |st.ids| && st.ids[i] == id ==> LiveAt(st, i) && LemmaAtEntry(st, i) == l
  {
    hide *;
    ValidOneEntry(sp, st);
    var e := DictEntry(st, l);
    DictOf(st, e, l);
    IdsIn(sp, st, e);
    LiveHere(st, e, l);
    if i < |st.ids| && st.ids[i] == id {
      SameIds(sp, st, i, e);
    }
  }

  lemma IdsIn(sp: Spellings, st: Store, e: nat)
    requires ValidStore(sp, st) && e < |st.ids|
    ensures |st.ids| == |st.slot| && st.startId <= st.ids[e] < st.startId + |st.ids|
  {
    hide SortedOk, SyncShape, FreeOk, OkSpellings, Start, Dead, FullIds, Flat, IndexOk;
  }

  lemma SameIds(sp: Spellings, st: Store, i: nat, e: nat)
    requires ValidStore(sp, st) && i < |st.ids| && e < |st.ids| && st.ids[i] == st.ids[e]
    ensures i == e
  {
    hide SortedOk, SyncShape, FreeOk, OkSpellings, Start, Dead, FullIds, Flat, IndexOk;
  }

  lemma LiveHere(st: Store, e: nat, l: Lemma)
    requires Holds(st, e, l)
    ensures e < |st.slot| && LiveAt(st, e) && LemmaAtEntry(st, e) == l
  {}

  // And of all entries with the id.
  lemma LiveIds(sp: Spellings, st: Store, l: Lemma, id: nat)
    requires ValidStore(sp, st) && l in Dict(st) && Dict(st)[l].1 == id
    ensures st.startId <= id < st.startId + |st.ids| && |st.ids| == |st.slot|
    ensures forall k: nat :: k < |st.ids| && st.ids[k] == id ==> LiveAt(st, k) && LemmaAtEntry(st, k) == l
  {
    hide *;
    LiveId(sp, st, l, id, 0);
    forall k: nat | k < |st.ids| && st.ids[k] == id
      ensures LiveAt(st, k) && LemmaAtEntry(st, k) == l
    {
      LiveId(sp, st, l, id, k);
    }
  }

  // A lemma put and updated is queued twice.
  method QueueTwice(sp: Spellings, l: Lemma, lmt: nat, now: nat) returns (d: UserDict, id: nat)
    requires OkSpellings(sp) && Storable(sp, l)
    ensures fresh(d) && d.Valid() && d.CachesValid() && d.sp == sp && SyncOk(d.st) && QueuedTwice(d.st, l)
    ensures l in Dict(d.st) && Dict(d.st)[l].1 == id
  {
    hide *;
    d := new UserDict(sp, 1);
    d.RoomAtFirst(l);
    ghost var target;
    id, target := d.PutLemma(l, 1, lmt, true);
    d.FieldFacts();
    LiveIds(sp, d.st, l, id);
    d.ValidIdIs(id);
    ghost var i;
    var r;
    r, i, target := d.UpdateLemma(id, 1, false, now);
    TwiceIn(d.st, l);
  }

  lemma OneRowMore(st: Store, r: Rec, score: nat, i: nat, j: nat)
    requires Fits(st, i, j)
    ensures |AppendAt(st, r, score, i, j).slot| == |st.slot| + 1
  {}

  lemma FirstKey(st: Store, st': Store, m: Lemma, score: nat, id: nat)
    requires Dict(st) == map[] && Dict(st') == Dict(st)[m := (score, id)] && |st'.slot| == 1
    ensures Dict(st').Keys == {m} && Holds(st', 0, m)
  {
    hide Dict, Holds;
    var i := DictEntry(st', m);
  }

  lemma NothingStored()
    ensures EmptyStore(1).slot == [] && Dict(EmptyStore(1)) == map[]
  {}

  lemma StorableSize(sp: Spellings, l: Lemma)
    requires OkSpellings(sp) && Storable(sp, l)
    ensures 0 < |l.ids| <= MAX_LEMMA_SIZE && QueryIds(sp, l.ids)
  {}

  // A ring without entries answers nothing.
  lemma NothingCached(k: nat, sig: seq<nat>)
    requires k < MAX_LEMMA_SIZE
    ensures |EmptyCaches(CACHE_SIZE)| == MAX_LEMMA_SIZE && OkRing(EmptyCaches(CACHE_SIZE)[k])
    ensures Lookup(EmptyCaches(CACHE_SIZE)[k], sig) == -1
  {
    assert EmptyCaches(CACHE_SIZE)[k] == EmptyRing(CACHE_SIZE);
  }

  // A dictionary of one lemma, with nothing cached.
  method OnlyOne(sp: Spellings, m: Lemma, lmt: nat) returns (d: UserDict)
    requires OkSpellings(sp) && Storable(sp, m)
    ensures fresh(d) && fresh(d.lemmas) && d.Valid() && d.CachesValid() && d.sp == sp
    ensures d.hits == EmptyCaches(CACHE_SIZE)
    ensures |d.st.slot| == 1 && Holds(d.st, 0, m) && Dict(d.st).Keys == {m}
  {
    hide *;
    d := new UserDict(sp, 1);
    StorableSize(sp, m);
    RoomAfterFlush(|m.ids|);
    NothingStored();
    d.RoomAtFirst(m);
    var id;
    ghost var at, st0 := 0, d.st;
    id, at := d.AppendALemma(m, 1, lmt);
    FirstKey(st0, d.st, m, BuildScore(lmt, 1), id);
  }

  // The longer lemma m is stored. Putting its beginning l then changes m's score, and l is not stored.
  method LongerLemmaHit(sp: Spellings, l: Lemma, m: Lemma, count: nat, lmt: nat) returns (d: UserDict)
    requires OkSpellings(sp) && Storable(sp, l) && Storable(sp, m) && l.ids < m.ids && l.word < m.word
    ensures fresh(d) && d.Valid() && l !in Dict(d.st)
    ensures m in Dict(d.st) && Dict(d.st)[m].0 == BuildScore(lmt, count)
  {
    hide *;
    d := OnlyOne(sp, m, lmt);
    StorableSize(sp, l);
    NothingCached(|l.ids| - 1, PackKey(KeyOf(sp, l.ids)));
    d.LongerLemmaFound(l, m);
    var id;
    ghost var st0, target := d.st, m;
    id, target := d.PutLemma(l, count, lmt, false);
    SameKeyButOne(st0, d.st, target, BuildScore(lmt, count));
  }

  lemma SameKeyButOne(st: Store, st': Store, target: Lemma, score: nat)
    requires target in Dict(st) && Scored(Dict(st')) == Scored(Dict(st))[target := score]
    ensures Dict(st').Keys == Dict(st).Keys
  {
    hide Dict;
    assert Scored(Dict(st')).Keys == Dict(st').Keys && Scored(Dict(st)).Keys == Dict(st).Keys;
  }

  // A lemma put, updated and removed again leaves an entry of a removed lemma in the sync queue.
  method StaleEntry(sp: Spellings, l: Lemma, lmt: nat, now: nat) returns (d: UserDict)
    requires OkSpellings(sp) && Storable(sp, l)
    ensures fresh(d) && d.Valid() && l !in Dict(d.st) && !SyncOk(d.st)
  {
    hide *;
    var id;
    d, id := QueueTwice(sp, l, lmt, now);
    d.FieldFacts();
    LiveIds(sp, d.st, l, id);
    d.ValidIdIs(id);
    ghost var i, target;
    var ok;
    ok, i, target := d.RemoveLemma(id);
  }

  lemma TwiceIn(st: Store, l: Lemma)
    ensures SyncView(st) == [] + [l] + [l] ==> QueuedTwice(st, l)
  {
    if SyncView(st) == [] + [l] + [l] {
      assert SyncView(st)[0] == l && SyncView(st)[1] == l;
    }
  }

  lemma OneEntryPrefix(sp: Spellings, st: Store, key: Key)
    requires ValidStore(sp, st) && |st.slot| == 1 && key <= KeyAt(sp, st, 0)
    ensures FirstPrefix(sp, st, key) == 0
  {
    hide ValidStore, KeyAt, CmpKey;
    assert Bisect(sp, st, key, 1, 0, 0) == 0 && Bisect(sp, st, key, 0, -1, 0) == 0;
  }

  lemma RangeEnd(sp: Spellings, st: Store, key: Key, start: nat, count: nat)
    requires ValidStore(sp, st) && RangeOk(sp, st, key, start, count)
    ensures start + count <= |st.slot|
  {}

  lemma SearchKey(sp: Spellings, ids: seq<nat>, s: Searchable)
    requires OkSpellings(sp) && QueryIds(sp, ids) && SearchFor(sp, ids, s)
    ensures OkSearchable(s) && SigKey(s) == KeyOf(sp, ids) && s.len == |ids|
  {}

  lemma StartLocate(sp: Spellings, st: Store, key: Key, cached: bool, start: nat, maxOff: nat)
    requires ValidStore(sp, st) && start <= maxOff <= |st.slot|
    requires cached ==> RangeOk(sp, st, key, start, maxOff - start)
    requires !cached ==> maxOff == |st.slot| && start < |st.slot| && key <= KeyAt(sp, st, start)
    requires !cached && (exists i: nat :: HasKey(sp, st, i, key)) ==>
               forall i: nat :: HasKey(sp, st, i, key) ==> start <= i
    ensures LocateRange(sp, st, key, cached, start, maxOff)
  {
    hide ValidStore;
    if !cached {
      SmallerNoPrefix(KeyAt(sp, st, start), key);
    }
    hide CmpKey;
  }

  lemma NotLocated(sp: Spellings, st: Store, l: Lemma, s: Searchable)
    requires ValidStore(sp, st) && OkSearchable(s) && FullIds(sp, l.ids) && SigKey(s) == KeyOf(sp, l.ids)
    requires NoKey(sp, st, SigKey(s))
    ensures Located(sp, st, l, SigKey(s), false, 0, 0, -1)
  {
    hide ValidStore, HasKey, Holds, KeyOf, SigKey;
    forall i: nat | Holds(st, i, l)
      ensures false
    {
      HoldsKey(sp, st, i, l);
    }
  }

  lemma OkSpellingsOf(sp: Spellings, st: Store)
    requires ValidStore(sp, st)
    ensures OkSpellings(sp)
  {}

  lemma RingShape(sp: Spellings, st: Store, hits: seq<Ring>, misses: seq<Ring>, len: nat)
    requires ValidStore(sp, st) && CachesOk(sp, st, hits, misses) && 1 <= len <= MAX_LEMMA_SIZE
    ensures |hits| == MAX_LEMMA_SIZE && OkRing(hits[len - 1]) && |hits[len - 1].slots| == CACHE_SIZE
  {
    hide ValidStore, RangeOk, NoKey, SigKeyOf;
    assert HitRingOk(sp, st, len - 1 + 1, hits[len - 1]);
  }

  lemma StartScan(sp: Spellings, st: Store, key: Key, cached: bool, start: nat, maxOff: nat)
    requires ValidStore(sp, st) && start <= maxOff <= |st.slot|
    requires cached ==> RangeOk(sp, st, key, start, maxOff - start) || (start == 0 == maxOff && NoKey(sp, st, key))
    requires !cached ==> maxOff == |st.slot| && start < |st.slot| && key <= KeyAt(sp, st, start)
    requires !cached && (exists i: nat :: HasKey(sp, st, i, key)) ==>
               forall i: nat :: HasKey(sp, st, i, key) ==> start <= i
    ensures ScanRange(sp, st, key, cached, start, maxOff)
  {
    hide ValidStore, RangeOk, KeyAt, HasKey;
  }

  // No entry has the query's key: the full scan finds nothing.
  lemma NothingFound(sp: Spellings, splids: seq<nat>, st: Store, s: Searchable)
    requires ValidStore(sp, st) && QueryIds(sp, splids) && OkSearchable(s) && SearchFor(sp, splids, s)
    requires NoKey(sp, st, SigKey(s))
    ensures FullScan(sp, st, s) == []
  {
    hide ValidStore, Hits, SigKey, SearchFor, QueryIds, HasKey;
    forall i: nat | i < |st.slot|
      ensures !Hits(sp, st, s, i)
    {
      if Hits(sp, st, s, i) {
        HitHasKey(sp, splids, st, s, i);
      }
    }
    FoundNone(sp, st, s, 0, |st.slot|);
  }

  lemma HitSaved(sp: Spellings, st: Store, s: Searchable, hits: seq<Ring>, misses: seq<Ring>, ring: Ring, start: nat,
                 count: nat)
    requires ValidStore(sp, st) && OkSearchable(s) && CachesOk(sp, st, hits, misses)
    requires RangeOk(sp, st, SigKeyOf(s.len, s.sig), start, count)
    requires OkRing(ring) && |ring.slots| == CACHE_SIZE
    requires ring.slots[hits[s.len - 1].tail] == CacheSlot(s.sig, start, count)
    requires forall i: nat :: InRing(ring, i) && i != hits[s.len - 1].tail ==>
               InRing(hits[s.len - 1], i) && ring.slots[i] == hits[s.len - 1].slots[i]
    ensures CachesOk(sp, st, hits[s.len - 1 := ring], misses)
  {
    hide ValidStore, RangeOk, NoKey, SigKeyOf;
    assert HitRingOk(sp, st, s.len, hits[s.len - 1]);
    forall i: nat | InRing(ring, i)
      ensures RangeOk(sp, st, SigKeyOf(s.len, ring.slots[i].sig), ring.slots[i].offset, ring.slots[i].length)
    {}
  }

  lemma MissSaved(sp: Spellings, st: Store, s: Searchable, hits: seq<Ring>, misses: seq<Ring>, ring: Ring)
    requires ValidStore(sp, st) && OkSearchable(s) && CachesOk(sp, st, hits, misses)
    requires NoKey(sp, st, SigKeyOf(s.len, s.sig))
    requires OkRing(ring) && |ring.slots| == MISS_CACHE_SIZE
    requires ring.slots[misses[s.len - 1].tail] == CacheSlot(s.sig, 0, 0)
    requires forall i: nat :: InRing(ring, i) && i != misses[s.len - 1].tail ==>
               InRing(misses[s.len - 1], i) && ring.slots[i] == misses[s.len - 1].slots[i]
    ensures CachesOk(sp, st, hits, misses[s.len - 1 := ring])
  {
    hide ValidStore, RangeOk, NoKey, SigKeyOf;
    assert MissRingOk(sp, st, s.len, misses[s.len - 1]);
    forall i: nat | InRing(ring, i)
      ensures NoKey(sp, st, SigKeyOf(s.len, ring.slots[i].sig))
    {}
  }
}
