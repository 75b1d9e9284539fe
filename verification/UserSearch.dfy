// Searching the user dictionary through its sorted index, and what a full scan
// of the index would find.

module UserSearch {
  import opened Perms
  import opened UserLog
  import opened UserKeys
  import opened UserStore
  import opened UserCache

  // The byte buffer holds the store's log.
  ghost predicate Backs(lemmas: array<Byte>, st: Store)
    reads lemmas
  {
    |Flat(st.recs)| <= lemmas.Length && lemmas[..|Flat(st.recs)|] == Flat(st.recs)
  }

  lemma RecordBytes(lemmas: array<Byte>, st: Store, k: nat)
    requires Backs(lemmas, st) && k < |st.recs| && AllRecs(st.recs)
    ensures Start(st.recs, k) + |st.recs[k]| <= lemmas.Length
    ensures lemmas[Start(st.recs, k)..Start(st.recs, k) + |st.recs[k]|] == st.recs[k]
  {
    hide Flat;
    FlatSplit(st.recs, k);
    var p := Start(st.recs, k);
    assert lemmas[p..p + |st.recs[k]|] == lemmas[..|Flat(st.recs)|][p..p + |st.recs[k]|];
  }

  method ReadU16s(lemmas: array<Byte>, base: nat, n: nat, ghost r: Rec, ghost b: nat) returns (s: seq<nat>)
    requires base + 2 * n <= lemmas.Length && b + 2 * n <= |r|
    requires lemmas[base..base + 2 * n] == r[b..b + 2 * n]
    ensures s == U16s(r, b, n)
  {
    s := [];
    for i := 0 to n
      invariant |s| == i && forall j :: 0 <= j < i ==> s[j] == U16s(r, b, n)[j]
    {
      assert lemmas[base + 2 * i] == lemmas[base..base + 2 * n][2 * i] == r[b + 2 * i];
      assert lemmas[base + 2 * i + 1] == lemmas[base..base + 2 * n][2 * i + 1] == r[b + 2 * i + 1];
      s := s + [U16(lemmas[base + 2 * i], lemmas[base + 2 * i + 1])];
    }
  }

  lemma SliceOfSlice<T>(s: seq<T>, off: nat, len: nat, b: nat, n: nat)
    requires off + len <= |s| && b + n <= len
    ensures s[off..off + len][b..b + n] == s[off + b..off + b + n]
  {
    var x, y := s[off..off + len][b..b + n], s[off + b..off + b + n];
    assert |x| == |y| == n;
    forall i | 0 <= i < n
      ensures x[i] == y[i]
    {
      assert x[i] == s[off..off + len][b + i] == s[off + (b + i)];
    }
  }

  lemma SliceOfRecord(lemmas: array<Byte>, off: nat, r: Rec, b: nat, n: nat)
    requires off + |r| <= lemmas.Length && lemmas[off..off + |r|] == r && b + n <= |r|
    ensures lemmas[off + b..off + b + n] == r[b..b + n]
  {
    SliceOfSlice(lemmas[..], off, |r|, b, n);
    assert lemmas[..][off + b..off + b + n] == lemmas[off + b..off + b + n];
    assert lemmas[..][off..off + |r|] == lemmas[off..off + |r|];
  }

  // UserDict::get_lemma_nchar and get_lemma_spell_ids
  method SpellIds(lemmas: array<Byte>, word: nat, ghost st: Store, ghost k: nat) returns (ids: seq<nat>)
    requires Backs(lemmas, st) && AllRecs(st.recs) && k < |st.recs| && Off(word) == Start(st.recs, k)
    ensures ids == RecIds(st.recs[k])
  {
    RecordBytes(lemmas, st, k);
    hide Flat, Start, AllRecs, U16s;
    var off := Off(word);
    ghost var r := st.recs[k];
    SliceOfRecord(lemmas, off, r, 1, 1);
    assert lemmas[off + 1] == lemmas[off + 1..off + 2][0] == r[1..2][0] == r[1];
    var nchar: int := lemmas[off + 1];
    SliceOfRecord(lemmas, off, r, 2, 2 * nchar);
    ids := ReadU16s(lemmas, off + 2, nchar, r, 2);
  }

  // UserDict::get_lemma_word
  method WordOf(lemmas: array<Byte>, word: nat, ghost st: Store, ghost k: nat) returns (w: seq<nat>)
    requires Backs(lemmas, st) && AllRecs(st.recs) && k < |st.recs| && Off(word) == Start(st.recs, k)
    ensures w == RecWord(st.recs[k])
  {
    RecordBytes(lemmas, st, k);
    hide Flat, Start, AllRecs, U16s;
    var off := Off(word);
    ghost var r := st.recs[k];
    SliceOfRecord(lemmas, off, r, 1, 1);
    assert lemmas[off + 1] == lemmas[off + 1..off + 2][0] == r[1..2][0] == r[1];
    var nchar: int := lemmas[off + 1];
    SliceOfRecord(lemmas, off, r, 2 + 2 * nchar, 2 * nchar);
    w := ReadU16s(lemmas, off + 2 + 2 * nchar, nchar, r, 2 + 2 * nchar);
  }

  ghost function KeyAt(sp: Spellings, st: Store, i: nat): Key
    requires ValidStore(sp, st) && i < |st.slot|
  {
    KeyAtSlot(sp, st.recs, st.slot[i])
  }

  // Facts about index entry i that searching uses.
  lemma EntryFacts(sp: Spellings, st: Store, i: nat)
    requires ValidStore(sp, st) && i < |st.slot|
    ensures |st.offsets| == |st.scores| == |st.ids| == |st.slot| == |st.recs| == |st.dead| && AllRecs(st.recs)
    ensures st.slot[i] < |st.recs| && Off(st.offsets[i]) == Start(st.recs, st.slot[i])
    ensures Removed(st.offsets[i]) <==> st.dead[st.slot[i]]
    ensures IsRec(st.recs[st.slot[i]]) && FullIds(sp, RecIds(st.recs[st.slot[i]]))
    ensures KeyAt(sp, st, i) == KeyOf(sp, RecIds(st.recs[st.slot[i]]))
  {
    PermLength(st.slot, |st.recs|);
  }

  lemma StoreSizes(sp: Spellings, st: Store)
    requires ValidStore(sp, st)
    ensures |st.offsets| == |st.scores| == |st.ids| == |st.slot| == |st.recs| == |st.dead| && AllRecs(st.recs)
    ensures |st.predicts| == |st.pslot| == |st.recs| && |st.ids| <= |st.byId|
  {
    PermLength(st.slot, |st.recs|);
    PermLength(st.pslot, |st.recs|);
  }

  lemma KeysSorted(sp: Spellings, st: Store, i: nat, j: nat)
    requires ValidStore(sp, st) && i <= j < |st.slot|
    ensures CmpKey(KeyAt(sp, st, i), KeyAt(sp, st, j)) <= 0
  {
    hide CmpKey, Start, Flat, IsPerm, FullIds, SyncShape, UniqueOk, IdsOk, FreeOk;
    if i == j {
      KeyOrder(KeyAt(sp, st, i), KeyAt(sp, st, i), KeyAt(sp, st, i));
    }
  }

  // All keys before `begin` are smaller than key, all after `end` are not.
  ghost predicate Bracket(sp: Spellings, st: Store, key: Key, begin: int, end: int, first: int)
    requires ValidStore(sp, st)
  {
    && 0 <= begin <= end + 1 <= |st.slot| && -1 <= first < |st.slot|
    && (forall i :: 0 <= i < begin ==> CmpKey(KeyAt(sp, st, i), key) < 0)
    && (forall i :: end < i < |st.slot| ==> CmpKey(KeyAt(sp, st, i), key) >= 0)
    && (end + 1 < |st.slot| && KeyAt(sp, st, end + 1) == key ==> first == end + 1)
    && (first >= 0 ==> key <= KeyAt(sp, st, first))
  }

  lemma BracketBelow(sp: Spellings, st: Store, key: Key, begin: int, end: int, first: int, m: int)
    requires ValidStore(sp, st) && Bracket(sp, st, key, begin, end, first) && begin <= m <= end
    requires CmpKey(KeyAt(sp, st, m), key) < 0
    ensures Bracket(sp, st, key, m + 1, end, first)
  {
    hide CmpKey, ValidStore, KeyAt;
    forall i | 0 <= i < m + 1
      ensures CmpKey(KeyAt(sp, st, i), key) < 0
    {
      KeysSorted(sp, st, i, m);
      KeyOrder(KeyAt(sp, st, i), KeyAt(sp, st, m), key);
    }
  }

  lemma BracketAbove(sp: Spellings, st: Store, key: Key, begin: int, end: int, first: int, m: int, pre: bool)
    requires ValidStore(sp, st) && Bracket(sp, st, key, begin, end, first) && begin <= m <= end
    requires CmpKey(KeyAt(sp, st, m), key) >= 0 && (pre <==> key <= KeyAt(sp, st, m))
    ensures Bracket(sp, st, key, begin, m - 1, if pre then m else first)
  {
    hide CmpKey, ValidStore, KeyAt;
    forall i | m - 1 < i < |st.slot|
      ensures CmpKey(KeyAt(sp, st, i), key) >= 0
    {
      KeysSorted(sp, st, m, i);
      KeyOrder(key, KeyAt(sp, st, m), KeyAt(sp, st, i));
      KeyOrder(key, KeyAt(sp, st, i), key);
    }
  }

  // A smaller key does not have key as a prefix.
  lemma SmallerNoPrefix(a: Key, key: Key)
    requires key <= a
    ensures CmpKey(a, key) >= 0
  {}

  // Where the bisection ends up: the last probe whose key starts with the query's.
  ghost function Bisect(sp: Spellings, st: Store, key: Key, begin: int, end: int, first: int): int
    requires ValidStore(sp, st) && 0 <= begin <= end + 1 <= |st.slot|
    decreases end - begin + 1
  {
    if begin > end then first
    else
      var middle := (begin + end) / 2;
      var k := KeyAt(sp, st, middle);
      var next := if key <= k then middle else first;
      if CmpKey(k, key) < 0 then Bisect(sp, st, key, middle + 1, end, next)
        else Bisect(sp, st, key, begin, middle - 1, next)
  }

  ghost function FirstPrefix(sp: Spellings, st: Store, key: Key): int
    requires ValidStore(sp, st)
  {
    Bisect(sp, st, key, 0, |st.slot| - 1, -1)
  }

  // UserDict::locate_first_in_offsets
  method LocateFirstInOffsets(sp: Spellings, lemmas: array<Byte>, offsets: seq<nat>, s: Searchable, ghost st: Store)
    returns (firstPrefix: int)
    requires ValidStore(sp, st) && Backs(lemmas, st) && offsets == st.offsets && OkSearchable(s)
    ensures -1 <= firstPrefix < |st.slot|
    ensures (exists i: nat :: HasKey(sp, st, i, SigKey(s))) ==>
              && firstPrefix >= 0 && HasKey(sp, st, firstPrefix, SigKey(s))
              && forall i: nat :: HasKey(sp, st, i, SigKey(s)) ==> firstPrefix <= i
    ensures firstPrefix >= 0 ==> SigKey(s) <= KeyAt(sp, st, firstPrefix)
    ensures firstPrefix == -1 ==> NoKey(sp, st, SigKey(s))
    ensures firstPrefix == FirstPrefix(sp, st, SigKey(s))
  {
    hide ValidStore, Backs, Flat, Start, SigKey, KeyAt, CmpKey, Bracket, FullIds, AllRecs, IsRec;
    StoreSizes(sp, st);
    var begin: int, end: int := 0, |offsets| - 1;
    firstPrefix := -1;
    StartBracket(sp, st, SigKey(s));
    while begin <= end
      invariant Bracket(sp, st, SigKey(s), begin, end, firstPrefix)
      invariant 0 <= begin <= end + 1 <= |offsets| == |st.slot|
      invariant Bisect(sp, st, SigKey(s), begin, end, firstPrefix) == FirstPrefix(sp, st, SigKey(s))
    {
      var middle := (begin + end) / 2;
      EntryFacts(sp, st, middle);
      var splids := SpellIds(lemmas, offsets[middle], st, st.slot[middle]);
      FullIdsBelow(sp, splids);
      var cmp := FuzzyCompareSpellId(sp, splids, s);
      var pre := IsFuzzyPrefixSpellId(sp, splids, s);
      ghost var first := firstPrefix;
      if pre {
        SmallerNoPrefix(KeyAt(sp, st, middle), SigKey(s));
        firstPrefix := middle;
      }
      if cmp < 0 {
        BracketBelow(sp, st, SigKey(s), begin, end, firstPrefix, middle);
        begin := middle + 1;
      } else {
        BracketAbove(sp, st, SigKey(s), begin, end, first, middle, pre);
        end := middle - 1;
      }
    }
    EndBracket(sp, st, SigKey(s), begin, end, firstPrefix);
  }

  lemma FullIdsBelow(sp: Spellings, ids: seq<nat>)
    requires FullIds(sp, ids)
    ensures forall i :: 0 <= i < |ids| ==> ids[i] < |sp.init|
  {}

  lemma StartBracket(sp: Spellings, st: Store, key: Key)
    requires ValidStore(sp, st)
    ensures Bracket(sp, st, key, 0, |st.slot| - 1, -1)
  {
    hide ValidStore;
  }

  lemma EndBracket(sp: Spellings, st: Store, key: Key, begin: int, end: int, first: int)
    requires ValidStore(sp, st) && Bracket(sp, st, key, begin, end, first) && begin > end
    ensures -1 <= first < |st.slot| && (first >= 0 ==> key <= KeyAt(sp, st, first))
    ensures (exists i: nat :: HasKey(sp, st, i, key)) ==>
              first >= 0 && HasKey(sp, st, first, key) && forall i: nat :: HasKey(sp, st, i, key) ==> first <= i
    ensures first == -1 ==> NoKey(sp, st, key)
  {
    hide ValidStore, CmpKey;
    forall i: nat | HasKey(sp, st, i, key)
      ensures first == begin && HasKey(sp, st, first, key) && first <= i
    {
      CmpZero(KeyAt(sp, st, i), key);
      CmpZero(key, key);
      assert i >= begin;
      KeysSorted(sp, st, begin, i);
      KeyOrder(KeyAt(sp, st, begin), key, key);
      assert CmpKey(KeyAt(sp, st, begin), key) == 0;
      CmpZero(KeyAt(sp, st, begin), key);
    }
  }

  lemma CmpZero(a: Key, b: Key)
    ensures CmpKey(a, b) == 0 <==> a == b
  {}

  // ---- Collecting the lemmas that match a query ----

  datatype LpiItem = LpiItem(id: nat, len: nat, score: nat)

  ghost predicate Hits(sp: Spellings, st: Store, s: Searchable, i: nat)
    requires ValidStore(sp, st) && OkSearchable(s)
  {
    i < |st.slot| && LiveAt(st, i) && Match(RecIds(st.recs[st.slot[i]]), s)
  }

  ghost function ItemAt(sp: Spellings, st: Store, s: Searchable, i: nat): LpiItem
    requires ValidStore(sp, st) && OkSearchable(s) && i < |st.slot|
  {
    LpiItem(st.ids[i], s.len, st.scores[i])
  }

  // What a scan of the index entries [from..to) finds.
  ghost function Found(sp: Spellings, st: Store, s: Searchable, from: nat, to: nat): seq<LpiItem>
    requires ValidStore(sp, st) && OkSearchable(s) && to <= |st.slot|
  {
    if from >= to then []
    else Found(sp, st, s, from, to - 1) + if Hits(sp, st, s, to - 1) then [ItemAt(sp, st, s, to - 1)] else []
  }

  // The specification of a query: look at every entry.
  ghost function FullScan(sp: Spellings, st: Store, s: Searchable): seq<LpiItem>
    requires ValidStore(sp, st) && OkSearchable(s)
  {
    Found(sp, st, s, 0, |st.slot|)
  }

  lemma {:induction false} FoundSplit(sp: Spellings, st: Store, s: Searchable, a: nat, b: nat, c: nat)
    requires ValidStore(sp, st) && OkSearchable(s) && a <= b <= c <= |st.slot|
    ensures Found(sp, st, s, a, c) == Found(sp, st, s, a, b) + Found(sp, st, s, b, c)
    decreases c
  {
    hide ValidStore, Hits;
    if b < c {
      FoundSplit(sp, st, s, a, b, c - 1);
    }
  }

  lemma {:induction false} FoundNone(sp: Spellings, st: Store, s: Searchable, a: nat, b: nat)
    requires ValidStore(sp, st) && OkSearchable(s) && b <= |st.slot|
    requires forall i :: a <= i < b ==> !Hits(sp, st, s, i)
    ensures Found(sp, st, s, a, b) == []
    decreases b
  {
    hide ValidStore, Hits;
    if a < b {
      FoundNone(sp, st, s, a, b - 1);
    }
  }

  // A matching lemma has the query's key.
  lemma HitHasKey(sp: Spellings, splids: seq<nat>, st: Store, s: Searchable, i: nat)
    requires ValidStore(sp, st) && QueryIds(sp, splids) && OkSearchable(s) && SearchFor(sp, splids, s)
    requires Hits(sp, st, s, i)
    ensures HasKey(sp, st, i, SigKey(s))
  {
    EntryFacts(sp, st, i);
    MatchKey(sp, splids, s, RecIds(st.recs[st.slot[i]]));
    hide ValidStore, SigKey, OkSpellings, KeyOf, SearchFor;
  }

  // Where the scan may start and stop without missing a match: the range of a
  // cache hit, nothing after a miss-cache hit, or the first entry located in the
  // index up to the index's end.
  ghost predicate ScanRange(sp: Spellings, st: Store, key: Key, cached: bool, start: nat, maxOff: nat)
    requires ValidStore(sp, st)
  {
    && start <= maxOff <= |st.slot|
    && (cached ==> RangeOk(sp, st, key, start, maxOff - start) || (start == maxOff && NoKey(sp, st, key)))
    && (!cached ==>
      && maxOff == |st.slot| && start < |st.slot| && key <= KeyAt(sp, st, start)
      && forall i: nat :: HasKey(sp, st, i, key) ==> start <= i)
  }

  // What is known when the scan stands at `middle`; `broken` is set by an entry with another key.
  ghost predicate Scanning(sp: Spellings, st: Store, s: Searchable, start: nat, middle: nat, broken: bool,
                           items: seq<LpiItem>)
    requires ValidStore(sp, st) && OkSearchable(s)
  {
    && start <= middle <= |st.slot| && items == Found(sp, st, s, start, middle)
    && (broken ==> start < middle && LiveAt(st, middle - 1) && !HasKey(sp, st, middle - 1, SigKey(s)))
    && forall i: nat :: start <= i < middle && LiveAt(st, i) && !HasKey(sp, st, i, SigKey(s)) ==>
         broken && i == middle - 1
  }

  lemma ScanStep(sp: Spellings, st: Store, s: Searchable, start: nat, middle: nat, items: seq<LpiItem>, broken: bool,
                 items': seq<LpiItem>)
    requires ValidStore(sp, st) && OkSearchable(s) && Scanning(sp, st, s, start, middle, false, items)
    requires middle < |st.slot|
    requires broken <==> LiveAt(st, middle) && !HasKey(sp, st, middle, SigKey(s))
    requires items' == items + if Hits(sp, st, s, middle) then [ItemAt(sp, st, s, middle)] else []
    ensures Scanning(sp, st, s, start, middle + 1, broken, items')
  {
    hide ValidStore, Hits, HasKey, LiveAt, SigKey;
  }

  lemma ScanComplete(sp: Spellings, splids: seq<nat>, st: Store, s: Searchable, cached: bool, start: nat, maxOff: nat,
                     middle: nat, broken: bool, items: seq<LpiItem>)
    requires ValidStore(sp, st) && QueryIds(sp, splids) && OkSearchable(s) && SearchFor(sp, splids, s)
    requires ScanRange(sp, st, SigKey(s), cached, start, maxOff)
    requires Scanning(sp, st, s, start, middle, broken, items) && middle <= maxOff
    ensures items == FullScan(sp, st, s) || (middle < maxOff && !broken && items <= FullScan(sp, st, s))
  {
    hide ValidStore, Hits, LiveAt, SigKey, KeyAt, SearchFor, QueryIds, CmpKey;
    var n := |st.slot|;
    forall i | 0 <= i < start
      ensures !Hits(sp, st, s, i)
    {
      if Hits(sp, st, s, i) {
        HitHasKey(sp, splids, st, s, i);
      }
    }
    if cached && broken {
      CachedLast(sp, st, s, cached, start, maxOff, middle - 1);
    }
    FoundNone(sp, st, s, 0, start);
    FoundSplit(sp, st, s, 0, start, middle);
    FoundSplit(sp, st, s, 0, middle, n);
    if broken || middle == maxOff {
      forall i: nat | middle <= i < n
        ensures !HasKey(sp, st, i, SigKey(s)) && !Hits(sp, st, s, i)
      {
        if !cached && broken {
          PastKey(sp, st, SigKey(s), start, middle - 1, i);
        }
        if Hits(sp, st, s, i) {
          HitHasKey(sp, splids, st, s, i);
        }
      }
      FoundNone(sp, st, s, middle, n);
    }
  }

  // A scan that was not cut short yields a range worth caching.
  lemma ScanCacheable(sp: Spellings, st: Store, s: Searchable, start: nat, maxOff: nat, middle: nat, broken: bool,
                      items: seq<LpiItem>)
    requires ValidStore(sp, st) && OkSearchable(s) && ScanRange(sp, st, SigKey(s), false, start, maxOff)
    requires Scanning(sp, st, s, start, middle, broken, items) && middle <= maxOff && (broken || middle == maxOff)
    ensures RangeOk(sp, st, SigKey(s), start, middle - start)
  {
    hide ValidStore, LiveAt, SigKey, KeyAt, KeyAtSlot, CmpKey, Found, HasKey;
    StartKey(sp, st, SigKey(s), false, start, maxOff);
    forall i: nat | HasKey(sp, st, i, SigKey(s))
      ensures start <= i < middle
    {
      HasKeyRange(sp, st, i, SigKey(s));
      if broken && middle - 1 < i < |st.slot| {
        PastKey(sp, st, SigKey(s), start, middle - 1, i);
      }
    }
  }

  lemma HasKeyRange(sp: Spellings, st: Store, i: nat, key: Key)
    requires ValidStore(sp, st) && HasKey(sp, st, i, key)
    ensures i < |st.slot|
  {}

  lemma StartKey(sp: Spellings, st: Store, key: Key, cached: bool, start: nat, maxOff: nat)
    requires ValidStore(sp, st) && ScanRange(sp, st, key, cached, start, maxOff)
    ensures !cached ==> start < |st.slot| && CmpKey(KeyAtSlot(sp, st.recs, st.slot[start]), key) >= 0
  {
    hide ValidStore, CmpKey;
    if !cached {
      SmallerNoPrefix(KeyAt(sp, st, start), key);
    }
  }

  // Once past a larger key the key does not come back.
  lemma PastKey(sp: Spellings, st: Store, key: Key, start: nat, m: nat, i: nat)
    requires ValidStore(sp, st) && start <= m < i < |st.slot|
    requires key <= KeyAt(sp, st, start) && !HasKey(sp, st, m, key)
    ensures !HasKey(sp, st, i, key)
  {
    SmallerNoPrefix(KeyAt(sp, st, start), key);
    KeysSorted(sp, st, start, m);
    KeysSorted(sp, st, m, i);
    KeyOrder(key, KeyAt(sp, st, start), KeyAt(sp, st, m));
    KeyOrder(key, KeyAt(sp, st, m), KeyAt(sp, st, i));
    CmpZero(key, KeyAt(sp, st, m));
    CmpZero(key, KeyAt(sp, st, i));
    hide ValidStore, CmpKey;
  }

  // The scanning loop of UserDict::_get_lpis.
  method ScanIndex(sp: Spellings, lemmas: array<Byte>, offsets: seq<nat>, scores: seq<nat>, ids: seq<nat>,
                   s: Searchable,
                   cached: bool, start: nat, maxOff: nat, lpiMax: nat, ghost splids: seq<nat>, ghost st: Store)
    returns (items: seq<LpiItem>, middle: nat, needExtend: bool)
    requires ValidStore(sp, st) && Backs(lemmas, st) && QueryIds(sp, splids) && OkSearchable(s)
    requires SearchFor(sp, splids, s)
    requires offsets == st.offsets && scores == st.scores && ids == st.ids
    requires ScanRange(sp, st, SigKey(s), cached, start, maxOff) && lpiMax > 0
    ensures items <= FullScan(sp, st, s)
    ensures |items| < lpiMax ==> items == FullScan(sp, st, s)
    ensures |items| <= lpiMax && start <= middle <= maxOff
    ensures !cached && |items| < lpiMax ==> RangeOk(sp, st, SigKey(s), start, middle - start)
    ensures items != [] ==> needExtend
  {
    hide ValidStore, Backs, Flat, Start, SigKey, KeyAt, CmpKey, FullIds, AllRecs, IsRec, Scanning, ScanRange, Hits;
    hide SearchFor, Found, RangeOk, QueryIds;
    StoreSizes(sp, st);
    middle, items, needExtend := start, [], false;
    var fuzzyBreak, prefixBreak := false, false;
    ghost var broken := false;
    ScanBegin(sp, st, s, cached, start, maxOff);
    while middle < maxOff && !fuzzyBreak && !prefixBreak
      invariant start <= middle <= maxOff <= |st.slot|
      invariant Scanning(sp, st, s, start, middle, broken, items)
      invariant broken ==> fuzzyBreak || middle == maxOff
      invariant fuzzyBreak || prefixBreak ==> broken
      invariant |items| <= lpiMax && (items != [] ==> needExtend)
      decreases maxOff - middle
    {
      if |items| >= lpiMax {
        break;
      }
      var offset := offsets[middle];
      EntryFacts(sp, st, middle);
      // Ignore deleted lemmas
      if Removed(offset) {
        SkipRemoved(sp, st, s, start, middle, items);
        middle := middle + 1;
        continue;
      }
      var recIds := SpellIds(lemmas, offset, st, st.slot[middle]);
      FullIdsBelow(sp, recIds);
      var cmp := FuzzyCompareSpellId(sp, recIds, s);
      EntryMatch(sp, splids, st, s, middle, recIds);
      if !cached && cmp != 0 {
        fuzzyBreak := true;
      }
      if !prefixBreak {
        var fuzzyPrefix := IsFuzzyPrefixSpellId(sp, recIds, s);
        if fuzzyPrefix {
          if !needExtend {
            needExtend := IsPrefixSpellId(recIds, s);
          }
        } else {
          prefixBreak := true;
        }
      }
      ghost var was := items;
      var equal := EqualSpellId(recIds, s);
      if equal {
        items := items + [LpiItem(ids[middle], |recIds|, scores[middle])];
      }
      broken := !HasKey(sp, st, middle, SigKey(s));
      ScanStep(sp, st, s, start, middle, was, broken, items);
      if cached && broken {
        CachedLast(sp, st, s, cached, start, maxOff, middle);
      }
      middle := middle + 1;
    }
    ScanComplete(sp, splids, st, s, cached, start, maxOff, middle, broken, items);
    if !cached && (broken || middle == maxOff) {
      ScanCacheable(sp, st, s, start, maxOff, middle, broken, items);
    }
  }

  lemma ScanBegin(sp: Spellings, st: Store, s: Searchable, cached: bool, start: nat, maxOff: nat)
    requires ValidStore(sp, st) && OkSearchable(s) && ScanRange(sp, st, SigKey(s), cached, start, maxOff)
    ensures start <= maxOff <= |st.slot| && Scanning(sp, st, s, start, start, false, [])
  {}

  lemma SkipRemoved(sp: Spellings, st: Store, s: Searchable, start: nat, middle: nat, items: seq<LpiItem>)
    requires ValidStore(sp, st) && OkSearchable(s) && Scanning(sp, st, s, start, middle, false, items)
    requires middle < |st.slot| && !LiveAt(st, middle)
    ensures Scanning(sp, st, s, start, middle + 1, false, items)
  {
    ScanStep(sp, st, s, start, middle, items, false, items);
  }

  // What the comparisons say about a live entry.
  lemma EntryMatch(sp: Spellings, splids: seq<nat>, st: Store, s: Searchable, i: nat, recIds: seq<nat>)
    requires ValidStore(sp, st) && QueryIds(sp, splids) && OkSearchable(s) && SearchFor(sp, splids, s)
    requires i < |st.slot| && !st.dead[st.slot[i]] && recIds == RecIds(st.recs[st.slot[i]])
    ensures LiveAt(st, i) && KeyAt(sp, st, i) == KeyOf(sp, recIds)
    ensures HasKey(sp, st, i, SigKey(s)) <==> CmpKey(KeyOf(sp, recIds), SigKey(s)) == 0
    ensures HasKey(sp, st, i, SigKey(s)) ==> SigKey(s) <= KeyOf(sp, recIds)
    ensures Hits(sp, st, s, i) <==> Match(recIds, s)
    ensures Match(recIds, s) ==>
              && PrefixMatch(recIds, s) && SigKey(s) <= KeyOf(sp, recIds)
              && ItemAt(sp, st, s, i) == LpiItem(st.ids[i], |recIds|, st.scores[i])
  {
    EntryFacts(sp, st, i);
    if Hits(sp, st, s, i) {
      HitHasKey(sp, splids, st, s, i);
    }
    hide ValidStore, SigKey, KeyOf;
  }

  lemma CachedLast(sp: Spellings, st: Store, s: Searchable, cached: bool, start: nat, maxOff: nat, i: nat)
    requires ValidStore(sp, st) && OkSearchable(s) && ScanRange(sp, st, SigKey(s), cached, start, maxOff)
    requires start <= i < maxOff && LiveAt(st, i) && !HasKey(sp, st, i, SigKey(s)) && cached
    ensures i + 1 == maxOff
  {
    hide ValidStore;
  }

  // ---- Looking for one lemma ----

  ghost function IdsAt(sp: Spellings, st: Store, i: nat): seq<nat>
    requires ValidStore(sp, st) && i < |st.slot|
  {
    RecIds(st.recs[st.slot[i]])
  }

  ghost function WordAt(sp: Spellings, st: Store, i: nat): seq<nat>
    requires ValidStore(sp, st) && i < |st.slot|
  {
    RecWord(st.recs[st.slot[i]])
  }

  // Entry i is live and its lemma is l or a longer lemma that starts with l.
  ghost predicate StartsWith(sp: Spellings, st: Store, i: nat, l: Lemma)
    requires ValidStore(sp, st)
  {
    i < |st.slot| && LiveAt(st, i) && l.ids <= IdsAt(sp, st, i) && l.word <= WordAt(sp, st, i)
  }

  lemma HoldsStartsWith(sp: Spellings, st: Store, i: nat, l: Lemma)
    requires ValidStore(sp, st) && |l.ids| == |l.word|
    ensures Holds(st, i, l) <==> StartsWith(sp, st, i, l) && |IdsAt(sp, st, i)| == |l.ids|
  {
    if i < |st.slot| {
      EntryFacts(sp, st, i);
    }
    hide ValidStore;
  }

  lemma HoldsKey(sp: Spellings, st: Store, i: nat, l: Lemma)
    requires ValidStore(sp, st) && Holds(st, i, l) && FullIds(sp, l.ids)
    ensures HasKey(sp, st, i, KeyOf(sp, l.ids))
  {
    EntryFacts(sp, st, i);
    hide ValidStore, KeyOf;
  }

  // The index from `start` on holds no key below the query's, and every entry of
  // the query's key that can be found lies in [start..maxOff).
  ghost predicate LocateRange(sp: Spellings, st: Store, key: Key, cached: bool, start: nat, maxOff: nat)
    requires ValidStore(sp, st)
  {
    && start <= maxOff <= |st.slot|
    && (start < |st.slot| ==> CmpKey(KeyAt(sp, st, start), key) >= 0)
    && (forall i: nat :: HasKey(sp, st, i, key) ==> start <= i < maxOff)
    && (cached ==> RangeOk(sp, st, key, start, maxOff - start))
  }

  // The scan gets to entry i: it lies in a cached range, or every live entry up to
  // it has a key that starts with the query's.
  ghost predicate Seen(sp: Spellings, st: Store, key: Key, cached: bool, start: nat, maxOff: nat, i: nat)
    requires ValidStore(sp, st)
  {
    && start <= i < maxOff <= |st.slot|
    && (!cached ==> forall j: nat :: start <= j <= i && LiveAt(st, j) ==> key <= KeyAt(sp, st, j))
  }

  // Where the scan for a lemma may go: the cached range of its signature, or all
  // entries from the bisection's on.
  datatype Reach = Reach(cached: bool, start: nat, end: nat)

  ghost function ReachOf(sp: Spellings, st: Store, hits: seq<Ring>, l: Lemma): Reach
    requires ValidStore(sp, st) && FullIds(sp, l.ids) && 1 <= |l.ids| <= |hits| && OkRing(hits[|l.ids| - 1])
  {
    var ring, key := hits[|l.ids| - 1], KeyOf(sp, l.ids);
    var i := Lookup(ring, PackKey(key));
    var f := FirstPrefix(sp, st, key);
    if i >= 0 then Reach(true, ring.slots[i].offset, ring.slots[i].offset + ring.slots[i].length)
    else if f < 0 then Reach(false, 0, 0)
    else Reach(false, f, |st.slot|)
  }

  // The scan for l gets to a live entry whose lemma is l or starts with l.
  ghost predicate MeetsIn(sp: Spellings, st: Store, hits: seq<Ring>, l: Lemma)
    requires ValidStore(sp, st) && FullIds(sp, l.ids) && 1 <= |l.ids| <= |hits| && OkRing(hits[|l.ids| - 1])
  {
    var r := ReachOf(sp, st, hits, l);
    exists i: nat :: Seen(sp, st, KeyOf(sp, l.ids), r.cached, r.start, r.end, i) && StartsWith(sp, st, i, l)
  }

  lemma LocatedMeets(sp: Spellings, st: Store, hits: seq<Ring>, l: Lemma, off: int)
    requires ValidStore(sp, st) && FullIds(sp, l.ids) && 1 <= |l.ids| <= |hits| && OkRing(hits[|l.ids| - 1])
    requires var r := ReachOf(sp, st, hits, l); Located(sp, st, l, KeyOf(sp, l.ids), r.cached, r.start, r.end, off)
    ensures off >= 0 <==> MeetsIn(sp, st, hits, l)
  {
    hide ValidStore, ReachOf, Seen, StartsWith, RangeOk;
  }

  // What looking for l promises: the entry returned is one the scan gets to and its
  // lemma is l or starts with l; -1 means there is no such entry; and if l itself
  // is live it is the one returned.
  ghost predicate Located(sp: Spellings, st: Store, l: Lemma, key: Key, cached: bool, start: nat, maxOff: nat, off: int)
    requires ValidStore(sp, st)
  {
    && off >= -1 && start <= maxOff && (cached ==> RangeOk(sp, st, key, start, maxOff - start))
    && (off >= 0 ==> StartsWith(sp, st, off, l) && Seen(sp, st, key, cached, start, maxOff, off))
    && (off == -1 ==> forall i: nat :: Seen(sp, st, key, cached, start, maxOff, i) ==> !StartsWith(sp, st, i, l))
    && ((exists i: nat :: Holds(st, i, l)) ==> off >= 0 && Holds(st, off, l))
  }

  lemma KeyFrom(sp: Spellings, st: Store, key: Key, start: nat, i: nat)
    requires ValidStore(sp, st) && start <= i < |st.slot| && CmpKey(KeyAt(sp, st, start), key) >= 0
    ensures CmpKey(KeyAt(sp, st, i), key) >= 0 && |KeyAt(sp, st, i)| >= |key|
    ensures |KeyAt(sp, st, i)| == |IdsAt(sp, st, i)|
  {
    KeysSorted(sp, st, start, i);
    KeyOrder(key, KeyAt(sp, st, start), KeyAt(sp, st, i));
    KeyOrder(key, KeyAt(sp, st, i), key);
    hide ValidStore;
  }

  // Before an entry with the key, all entries from start on have it.
  lemma KeyBetween(sp: Spellings, st: Store, key: Key, start: nat, i: nat, e: nat)
    requires ValidStore(sp, st) && start <= i <= e && HasKey(sp, st, e, key) && CmpKey(KeyAt(sp, st, start), key) >= 0
    ensures HasKey(sp, st, i, key)
  {
    KeyFrom(sp, st, key, start, i);
    KeysSorted(sp, st, i, e);
    KeyOrder(KeyAt(sp, st, i), key, key);
    CmpZero(KeyAt(sp, st, i), key);
    hide ValidStore, CmpKey;
  }

  // The scanning loop of UserDict::locate_in_offsets. As in the source, entries are
  // compared over the query's length only.
  method LocateScan(sp: Spellings, lemmas: array<Byte>, offsets: seq<nat>, l: Lemma, s: Searchable,
                    cached: bool, start: nat, maxOff: nat, ghost st: Store)
    returns (off: int)
    requires ValidStore(sp, st) && Backs(lemmas, st) && offsets == st.offsets
    requires |l.ids| == |l.word| == s.len && FullIds(sp, l.ids) && OkSearchable(s)
    requires FullSearch(sp, l.ids, s) && LocateRange(sp, st, SigKey(s), cached, start, maxOff)
    ensures Located(sp, st, l, SigKey(s), cached, start, maxOff, off)
  {
    hide ValidStore, Backs, Flat, Start, SigKey, KeyAt, CmpKey, FullIds, AllRecs, IsRec, FullSearch, Holds;
    hide StartsWith, LocateRange, Match, Seen, LiveAt, RangeOk;
    StoreSizes(sp, st);
    LocateFacts(sp, st, SigKey(s), cached, start, maxOff);
    off := start;
    while off < maxOff
      invariant start <= off <= maxOff <= |st.slot|
      invariant forall i: nat :: start <= i < off ==> !StartsWith(sp, st, i, l)
      invariant !cached ==> forall i: nat :: start <= i < off && LiveAt(st, i) ==> SigKey(s) <= KeyAt(sp, st, i)
      decreases maxOff - off
    {
      var offset := offsets[off];
      EntryFacts(sp, st, off);
      StartsWithLive(sp, st, off, l);
      if Removed(offset) {
        off := off + 1;
        continue;
      }
      var recIds := SpellIds(lemmas, offset, st, st.slot[off]);
      LocateEntry(sp, st, l, s, cached, start, maxOff, off, recIds);
      var splids := recIds[..s.len];
      var cmp := FuzzyCompareSpellId(sp, splids, s);
      if !cached && cmp != 0 {
        LocateBreak(sp, st, l, s, cached, start, maxOff, off);
        return -1;
      }
      LocateGoesOn(sp, st, s, off, recIds, cached);
      var equal := EqualSpellId(splids, s);
      if equal {
        var str := WordOf(lemmas, offset, st, st.slot[off]);
        var i := 0;
        while i < s.len && str[i] == l.word[i]
          invariant 0 <= i <= s.len && str[..i] == l.word[..i]
        {
          assert str[..i + 1] == str[..i] + [str[i]] && l.word[..i + 1] == l.word[..i] + [l.word[i]];
          i := i + 1;
        }
        LocateWord(sp, st, l, s, off, recIds, str, i);
        if i < s.len {
          off := off + 1;
          continue;
        }
        LocateHit(sp, st, l, s, cached, start, maxOff, off);
        SeenNow(sp, st, SigKey(s), cached, start, maxOff, off);
        return off;
      }
      LocateMiss(sp, st, l, s, off, recIds);
      off := off + 1;
    }
    LocateNone(sp, st, l, s, cached, start, maxOff);
    SeenRange(sp, st, SigKey(s), cached, start, maxOff);
    off := -1;
  }

  // The query of a lemma: each range is exactly that lemma's id.
  ghost predicate FullSearch(sp: Spellings, ids: seq<nat>, s: Searchable)
    requires OkSearchable(s)
  {
    && FullIds(sp, ids) && s.len == |ids| && SigKey(s) == KeyOf(sp, ids)
    && s.start == ids && forall i :: 0 <= i < s.len ==> s.count[i] == 1
  }

  lemma FullMatch(sp: Spellings, ids: seq<nat>, s: Searchable, recIds: seq<nat>)
    requires OkSearchable(s) && FullSearch(sp, ids, s)
    ensures Match(recIds, s) <==> recIds == ids
  {}

  lemma LocateFacts(sp: Spellings, st: Store, key: Key, cached: bool, start: nat, maxOff: nat)
    requires ValidStore(sp, st) && LocateRange(sp, st, key, cached, start, maxOff)
    ensures start <= maxOff <= |st.slot|
    ensures cached ==> RangeOk(sp, st, key, start, maxOff - start)
  {}

  lemma StartsWithLive(sp: Spellings, st: Store, i: nat, l: Lemma)
    requires ValidStore(sp, st)
    ensures StartsWith(sp, st, i, l) ==> LiveAt(st, i)
    ensures LiveAt(st, i) <==> i < |st.slot| && st.slot[i] < |st.dead| && !st.dead[st.slot[i]]
  {
    hide ValidStore;
  }

  lemma SeenRange(sp: Spellings, st: Store, key: Key, cached: bool, start: nat, maxOff: nat)
    requires ValidStore(sp, st)
    ensures forall i: nat :: Seen(sp, st, key, cached, start, maxOff, i) ==> start <= i < maxOff
  {
    hide ValidStore;
  }

  lemma SeenNow(sp: Spellings, st: Store, key: Key, cached: bool, start: nat, maxOff: nat, off: nat)
    requires ValidStore(sp, st) && start <= off < maxOff <= |st.slot|
    requires !cached ==> forall i: nat :: start <= i < off && LiveAt(st, i) ==> key <= KeyAt(sp, st, i)
    requires !cached ==> key <= KeyAt(sp, st, off)
    ensures Seen(sp, st, key, cached, start, maxOff, off)
  {
    hide ValidStore;
  }

  // Equal initials over the query's length.
  lemma LocateGoesOn(sp: Spellings, st: Store, s: Searchable, off: nat, recIds: seq<nat>, cached: bool)
    requires ValidStore(sp, st) && OkSearchable(s) && off < |st.slot| && recIds == IdsAt(sp, st, off)
    requires s.len <= |recIds| && forall i :: 0 <= i < |recIds| ==> recIds[i] < |sp.init|
    requires !cached ==> CmpKey(KeyOf(sp, recIds[..s.len]), SigKey(s)) == 0
    ensures !cached ==> SigKey(s) <= KeyAt(sp, st, off)
  {
    EntryFacts(sp, st, off);
    hide ValidStore, CmpKey, SigKey;
    if !cached {
      CmpZero(KeyOf(sp, recIds[..s.len]), SigKey(s));
      assert KeyOf(sp, recIds)[..s.len] == KeyOf(sp, recIds[..s.len]);
    }
  }

  lemma LocateEntry(sp: Spellings, st: Store, l: Lemma, s: Searchable, cached: bool, start: nat, maxOff: nat,
                    off: nat, recIds: seq<nat>)
    requires ValidStore(sp, st) && OkSearchable(s) && LocateRange(sp, st, SigKey(s), cached, start, maxOff)
    requires start <= off < maxOff && recIds == IdsAt(sp, st, off)
    ensures s.len <= |recIds| && forall i :: 0 <= i < |recIds| ==> recIds[i] < |sp.init|
  {
    KeyFrom(sp, st, SigKey(s), start, off);
    EntryFacts(sp, st, off);
    hide ValidStore, CmpKey, KeyAt, KeyOf;
  }

  // A different key over the query's length: nothing behind holds the lemma, and
  // nothing from here on is seen.
  lemma LocateBreak(sp: Spellings, st: Store, l: Lemma, s: Searchable, cached: bool, start: nat, maxOff: nat, off: nat)
    requires ValidStore(sp, st) && OkSearchable(s) && FullSearch(sp, l.ids, s)
    requires LocateRange(sp, st, SigKey(s), cached, start, maxOff)
    requires |l.word| == s.len && start <= off < maxOff && s.len <= |IdsAt(sp, st, off)| && LiveAt(st, off)
    requires forall i: nat :: start <= i < off ==> !StartsWith(sp, st, i, l)
    requires forall i :: 0 <= i < |IdsAt(sp, st, off)| ==> IdsAt(sp, st, off)[i] < |sp.init|
    requires !cached && CmpKey(KeyOf(sp, IdsAt(sp, st, off)[..s.len]), SigKey(s)) != 0
    ensures forall i: nat :: !Holds(st, i, l)
    ensures forall i: nat :: Seen(sp, st, SigKey(s), cached, start, maxOff, i) ==> !StartsWith(sp, st, i, l)
  {
    hide ValidStore, CmpKey, Holds, KeyOf, SigKey, StartsWith, LiveAt;
    OtherKey(sp, st, SigKey(s), off);
    forall e: nat | Holds(st, e, l)
      ensures false
    {
      HoldsKey(sp, st, e, l);
      HoldsStartsWith(sp, st, e, l);
      KeyBetween(sp, st, SigKey(s), start, off, e);
    }
    forall i: nat | Seen(sp, st, SigKey(s), cached, start, maxOff, i)
      ensures i < off
    {}
  }

  lemma OtherKey(sp: Spellings, st: Store, key: Key, off: nat)
    requires ValidStore(sp, st) && off < |st.slot| && |key| <= |IdsAt(sp, st, off)|
    requires forall i :: 0 <= i < |key| ==> IdsAt(sp, st, off)[i] < |sp.init|
    requires forall i :: 0 <= i < |IdsAt(sp, st, off)| ==> IdsAt(sp, st, off)[i] < |sp.init|
    requires CmpKey(KeyOf(sp, IdsAt(sp, st, off)[..|key|]), key) != 0
    ensures !HasKey(sp, st, off, key) && !(key <= KeyAt(sp, st, off))
  {
    EntryFacts(sp, st, off);
    CmpZero(KeyOf(sp, IdsAt(sp, st, off)[..|key|]), key);
    assert |IdsAt(sp, st, off)| == |key| ==> IdsAt(sp, st, off)[..|key|] == IdsAt(sp, st, off);
    assert KeyOf(sp, IdsAt(sp, st, off))[..|key|] == KeyOf(sp, IdsAt(sp, st, off)[..|key|]);
    CmpZero(KeyAt(sp, st, off), key);
    hide ValidStore, CmpKey;
  }

  lemma LocateWord(sp: Spellings, st: Store, l: Lemma, s: Searchable, off: nat, recIds: seq<nat>, str: seq<nat>, i: nat)
    requires ValidStore(sp, st) && OkSearchable(s) && FullSearch(sp, l.ids, s) && |l.word| == s.len
    requires off < |st.slot| && LiveAt(st, off) && recIds == IdsAt(sp, st, off) && str == WordAt(sp, st, off)
    requires s.len <= |recIds| && Match(recIds[..s.len], s)
    requires i <= s.len && i <= |str| && str[..i] == l.word[..i] && (i < s.len ==> i < |str| && str[i] != l.word[i])
    ensures i < s.len ==> !StartsWith(sp, st, off, l)
    ensures i == s.len ==> StartsWith(sp, st, off, l)
  {
    FullMatch(sp, l.ids, s, recIds[..s.len]);
    HoldsStartsWith(sp, st, off, l);
    hide ValidStore, LiveAt, Holds, FullSearch;
    assert l.ids <= recIds;
  }

  lemma LocateMiss(sp: Spellings, st: Store, l: Lemma, s: Searchable, off: nat, recIds: seq<nat>)
    requires ValidStore(sp, st) && OkSearchable(s) && FullSearch(sp, l.ids, s) && |l.word| == s.len
    requires off < |st.slot| && recIds == IdsAt(sp, st, off) && s.len <= |recIds| && !Match(recIds[..s.len], s)
    ensures !StartsWith(sp, st, off, l)
  {
    FullMatch(sp, l.ids, s, recIds[..s.len]);
    HoldsStartsWith(sp, st, off, l);
    hide ValidStore, LiveAt, Holds, FullSearch;
  }

  // If the lemma is in the dictionary, the entry found first is its entry.
  lemma LocateHit(sp: Spellings, st: Store, l: Lemma, s: Searchable, cached: bool, start: nat, maxOff: nat, off: nat)
    requires ValidStore(sp, st) && OkSearchable(s) && FullSearch(sp, l.ids, s)
    requires LocateRange(sp, st, SigKey(s), cached, start, maxOff)
    requires |l.word| == s.len && start <= off < maxOff && StartsWith(sp, st, off, l)
    requires forall i: nat :: start <= i < off ==> !StartsWith(sp, st, i, l)
    ensures (exists i: nat :: Holds(st, i, l)) ==> Holds(st, off, l)
  {
    forall e: nat | Holds(st, e, l)
      ensures Holds(st, off, l)
    {
      HoldsKey(sp, st, e, l);
      HoldsStartsWith(sp, st, e, l);
      KeyBetween(sp, st, SigKey(s), start, off, e);
      EntryFacts(sp, st, off);
      HoldsStartsWith(sp, st, off, l);
    }
  }

  lemma LocateNone(sp: Spellings, st: Store, l: Lemma, s: Searchable, cached: bool, start: nat, maxOff: nat)
    requires ValidStore(sp, st) && OkSearchable(s) && FullSearch(sp, l.ids, s)
    requires LocateRange(sp, st, SigKey(s), cached, start, maxOff)
    requires |l.word| == s.len
    requires forall i: nat :: start <= i < maxOff ==> !StartsWith(sp, st, i, l)
    ensures forall i: nat :: !Holds(st, i, l)
  {
    forall e: nat | Holds(st, e, l)
      ensures false
    {
      HoldsKey(sp, st, e, l);
      HoldsStartsWith(sp, st, e, l);
    }
  }
}
