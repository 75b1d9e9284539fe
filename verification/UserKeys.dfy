// Search keys of the user dictionary: index order is by number of syllables and
// then by the initial letters of the spellings; a query carries, per syllable, a
// range of full spelling ids, and its initials packed into two 32-bit words.

module UserKeys {
  import opened Limits
  import opened SpellingIds
  import opened Lex
  import opened UserLog

  const SIG_WORDS := 2

  // What the dictionary asks of the spelling trie: the first letter of every
  // spelling id and the range of full ids of every half id.
  datatype Spellings = Spellings(init: seq<Byte>, h2fStart: seq<nat>, h2fNum: seq<nat>)

  predicate OkSpellings(sp: Spellings) {
    && |sp.h2fStart| == |sp.h2fNum| == FULL_START <= |sp.init|
    && (forall id :: 0 <= id < |sp.init| ==> 0 < sp.init[id] < 128)
    && (forall h :: 0 < h < FULL_START ==>
      sp.h2fNum[h] > 0 ==> FULL_START <= sp.h2fStart[h] && sp.h2fStart[h] + sp.h2fNum[h] <= |sp.init|)
    && (forall h, f :: 0 < h < FULL_START && sp.h2fStart[h] <= f < sp.h2fStart[h] + sp.h2fNum[h] ==>
      sp.init[f] == sp.init[h])
  }

  predicate FullIds(sp: Spellings, ids: seq<nat>) {
    forall i :: 0 <= i < |ids| ==> FULL_START <= ids[i] < |sp.init|
  }

  // Ids a query may hold: half or full.
  predicate QueryIds(sp: Spellings, ids: seq<nat>) {
    forall i :: 0 <= i < |ids| ==> 0 < ids[i] < |sp.init|
  }

  type Key = seq<Byte>

  function KeyOf(sp: Spellings, ids: seq<nat>): (k: Key)
    requires forall i :: 0 <= i < |ids| ==> ids[i] < |sp.init|
    ensures |k| == |ids|
  {
    seq(|ids|, i requires 0 <= i < |ids| => sp.init[ids[i]])
  }

  lemma KeyLetter(sp: Spellings, ids: seq<nat>, i: nat)
    requires forall j :: 0 <= j < |ids| ==> ids[j] < |sp.init|
    requires i < |ids|
    ensures KeyOf(sp, ids)[i] == sp.init[ids[i]]
  {}

  // The index order: length first, then initials.
  function CmpKey(a: Key, b: Key): (c: int)
    ensures -1 <= c <= 1
    ensures c == 0 <==> a == b
  {
    if |a| < |b| then -1 else if |a| > |b| then 1 else LexCmp(a, b)
  }

  lemma KeyOrder(a: Key, b: Key, c: Key)
    ensures CmpKey(b, a) == -CmpKey(a, b)
    ensures CmpKey(a, b) <= 0 && CmpKey(b, c) <= 0 ==> CmpKey(a, c) <= 0
    ensures CmpKey(a, b) < 0 && CmpKey(b, c) <= 0 ==> CmpKey(a, c) < 0
    ensures CmpKey(a, b) <= 0 && CmpKey(b, c) < 0 ==> CmpKey(a, c) < 0
  {
    if |a| == |b| {
      LexOrder(a, b, b);
      if |b| == |c| {
        LexOrder(a, b, c);
      }
    }
  }

  // ---- UserDictSearchable ----

  datatype Searchable = Searchable(len: nat, start: seq<nat>, count: seq<nat>, sig: seq<nat>)

  predicate OkSearchable(s: Searchable) {
    0 < s.len <= MAX_LEMMA_SIZE && |s.start| == |s.count| == s.len && |s.sig| == SIG_WORDS
  }

  function Shift(i: nat): nat
    requires i < 4
  {
    if i == 0 then 1 else if i == 1 then 0x100 else if i == 2 then 0x1_0000 else 0x100_0000
  }

  // (signature[i / 4] & (0xff << off)) >> off
  function SigByte(sig: seq<nat>, i: nat): Byte
    requires i / 4 < |sig|
  {
    (sig[i / 4] / Shift(i % 4)) % 256
  }

  function SigKey(s: Searchable): (k: Key)
    requires OkSearchable(s)
    ensures |k| == s.len
  {
    seq(s.len, i requires 0 <= i < s.len => SigByte(s.sig, i))
  }

  function At(k: Key, i: nat): Byte { if i < |k| then k[i] else 0 }

  function PackWord(k: Key, w: nat): nat {
    At(k, 4 * w) + 0x100 * At(k, 4 * w + 1) + 0x1_0000 * At(k, 4 * w + 2) + 0x100_0000 * At(k, 4 * w + 3)
  }

  function PackKey(k: Key): (sig: seq<nat>)
    ensures |sig| == SIG_WORDS
  {
    [PackWord(k, 0), PackWord(k, 1)]
  }

  lemma UnpackByte(k: Key, i: nat)
    requires |k| <= MAX_LEMMA_SIZE && i < MAX_LEMMA_SIZE
    ensures SigByte(PackKey(k), i) == At(k, i)
  {
    var w := i / 4;
    FourDigits(At(k, 4 * w), At(k, 4 * w + 1), At(k, 4 * w + 2), At(k, 4 * w + 3));
    assert PackKey(k)[w] == PackWord(k, w) && i == 4 * w + i % 4;
  }

  lemma FourDigits(a: int, b: int, c: int, d: int)
    requires 0 <= a < 256 && 0 <= b < 256 && 0 <= c < 256 && 0 <= d < 256
    ensures var word := a + 0x100 * b + 0x1_0000 * c + 0x100_0000 * d;
            && word % 256 == a && word / 0x100 % 256 == b
            && word / 0x1_0000 % 256 == c && word / 0x100_0000 % 256 == d
  {
    var word := a + 0x100 * b + 0x1_0000 * c + 0x100_0000 * d;
    assert word / 0x100 == b + 0x100 * c + 0x1_0000 * d;
    assert word / 0x1_0000 == c + 0x100 * d;
    assert word / 0x100_0000 == d;
  }

  // signature[i >> 2] |= (py << (8 * (i % 4))) where that byte is still zero
  function OrByte(sig: seq<nat>, i: nat, py: Byte): (r: seq<nat>)
    requires i / 4 < |sig|
    ensures |r| == |sig|
  {
    sig[i / 4 := sig[i / 4] + py * Shift(i % 4)]
  }

  // Range of full ids query id q stands for.
  function IdStart(sp: Spellings, q: nat): nat
    requires OkSpellings(sp)
  {
    if 0 < q < FULL_START then sp.h2fStart[q] else q
  }

  function IdCount(sp: Spellings, q: nat): nat
    requires OkSpellings(sp)
  {
    if 0 < q < FULL_START then sp.h2fNum[q] else 1
  }

  // is_half_id and half_to_full, or the id itself
  method IdRange(sp: Spellings, q: nat) returns (first: nat, num: nat)
    requires OkSpellings(sp)
    ensures first == IdStart(sp, q) && num == IdCount(sp, q)
  {
    if 0 < q < FULL_START {
      return sp.h2fStart[q], sp.h2fNum[q];
    }
    return q, 1;
  }

  // start and count hold the id ranges of the first i query ids.
  ghost predicate Ranges(sp: Spellings, splids: seq<nat>, start: seq<nat>, count: seq<nat>, i: nat)
    requires OkSpellings(sp)
  {
    && |start| == |count| == i <= |splids|
    && forall j :: 0 <= j < i ==> start[j] == IdStart(sp, splids[j]) && count[j] == IdCount(sp, splids[j])
  }

  lemma RangesLength(sp: Spellings, splids: seq<nat>, start: seq<nat>, count: seq<nat>, i: nat)
    requires OkSpellings(sp) && Ranges(sp, splids, start, count, i)
    ensures |start| == |count| == i
  {}

  lemma RangesStep(sp: Spellings, splids: seq<nat>, start: seq<nat>, count: seq<nat>, i: nat, first: nat, num: nat)
    requires OkSpellings(sp) && Ranges(sp, splids, start, count, i) && i < |splids|
    requires first == IdStart(sp, splids[i]) && num == IdCount(sp, splids[i])
    ensures Ranges(sp, splids, start + [first], count + [num], i + 1)
  {}

  // UserDict::prepare_locate
  method PrepareLocate(sp: Spellings, splids: seq<nat>) returns (s: Searchable)
    requires OkSpellings(sp) && QueryIds(sp, splids) && 0 < |splids| <= MAX_LEMMA_SIZE
    ensures OkSearchable(s) && SearchFor(sp, splids, s)
  {
    assert |sp.h2fStart| == |sp.h2fNum| == FULL_START;
    assert KeyOf(sp, splids)[..0] == [];
    assert Packs([0, 0], KeyOf(sp, splids), 0);
    hide Packs, PackKey, OrByte, SigKey, OkSpellings, KeyOf, Ranges;
    var start, count, sig := [], [], [0, 0];
    ghost var key := KeyOf(sp, splids);
    for i := 0 to |splids|
      invariant Ranges(sp, splids, start, count, i)
      invariant Packs(sig, key, i)
    {
      var first, num := IdRange(sp, splids[i]);
      RangesStep(sp, splids, start, count, i, first, num);
      start := start + [first];
      count := count + [num];
      PackStep(sig, key, i);
      assert key[i] == sp.init[splids[i]] by { KeyLetter(sp, splids, i); }
      sig := OrByte(sig, i, sp.init[splids[i]]);
    }
    PacksAll(sig, key);
    RangesLength(sp, splids, start, count, |splids|);
    s := Searchable(|splids|, start, count, sig);
    KeyFromSig(s, key);
  }

  ghost predicate SearchFor(sp: Spellings, splids: seq<nat>, s: Searchable)
    requires OkSpellings(sp) && QueryIds(sp, splids)
  {
    && OkSearchable(s) && s.len == |splids|
    && Ranges(sp, splids, s.start, s.count, s.len)
    && SigKey(s) == KeyOf(sp, splids) && s.sig == PackKey(KeyOf(sp, splids))
  }

  lemma PacksAll(sig: seq<nat>, key: Key)
    requires Packs(sig, key, |key|)
    ensures sig == PackKey(key) && |sig| == SIG_WORDS
  {
    assert key[..|key|] == key;
  }

  lemma KeyFromSig(s: Searchable, key: Key)
    requires OkSearchable(s) && s.sig == PackKey(key) && |key| == s.len
    ensures SigKey(s) == key
  {
    forall i | 0 <= i < s.len
      ensures SigKey(s)[i] == key[i]
    {
      UnpackByte(key, i);
    }
  }

  // sig packs the first i letters of key.
  ghost predicate Packs(sig: seq<nat>, key: Key, i: nat) {
    i <= |key| && |sig| == SIG_WORDS && sig == PackKey(key[..i])
  }

  lemma PackStep(sig: seq<nat>, key: Key, i: nat)
    requires i < |key| <= MAX_LEMMA_SIZE && Packs(sig, key, i)
    ensures i / 4 < |sig| && Packs(OrByte(sig, i, key[i]), key, i + 1)
  {
    var a, b := key[..i], key[..i + 1];
    forall j: nat
      ensures At(b, j) == if j == i then key[i] else At(a, j)
    {}
    assert i == 4 * (i / 4) + i % 4;
    assert OrByte(sig, i, key[i]) == PackKey(b);
  }

  // ---- Matching records against a query ----

  // Every id lies in the query's range; the record may be longer.
  predicate PrefixMatch(ids: seq<nat>, s: Searchable)
    requires OkSearchable(s)
  {
    && s.len <= |ids|
    && forall i :: 0 <= i < s.len ==> s.start[i] <= ids[i] < s.start[i] + s.count[i]
  }

  predicate Match(ids: seq<nat>, s: Searchable)
    requires OkSearchable(s)
  {
    |ids| == s.len && PrefixMatch(ids, s)
  }

  lemma MatchInit(sp: Spellings, splids: seq<nat>, s: Searchable, ids: seq<nat>, i: nat)
    requires OkSpellings(sp) && QueryIds(sp, splids) && SearchFor(sp, splids, s) && FullIds(sp, ids)
    requires PrefixMatch(ids, s) && i < s.len
    ensures sp.init[ids[i]] == SigKey(s)[i]
  {
    hide PackKey, SigKey;
    var h, f := splids[i], ids[i];
    assert KeyOf(sp, splids)[i] == sp.init[h];
    if 0 < h < FULL_START {
      assert sp.h2fStart[h] <= f < sp.h2fStart[h] + sp.h2fNum[h];
    }
  }

  // Ids in the query's ranges have the query's initials.
  lemma MatchKey(sp: Spellings, splids: seq<nat>, s: Searchable, ids: seq<nat>)
    requires OkSpellings(sp) && QueryIds(sp, splids) && SearchFor(sp, splids, s) && FullIds(sp, ids)
    requires PrefixMatch(ids, s)
    ensures KeyOf(sp, ids)[..s.len] == SigKey(s)
    ensures |ids| == s.len ==> KeyOf(sp, ids) == SigKey(s)
  {
    hide OkSpellings, PackKey;
    var k := KeyOf(sp, ids);
    forall i | 0 <= i < s.len
      ensures k[i] == SigKey(s)[i]
    {
      MatchInit(sp, splids, s, ids, i);
    }
    if |ids| == s.len {
      assert KeyOf(sp, ids)[..s.len] == KeyOf(sp, ids);
    }
  }

  // UserDict::fuzzy_compare_spell_id
  method FuzzyCompareSpellId(sp: Spellings, id1: seq<nat>, s: Searchable) returns (c: int)
    requires OkSearchable(s) && forall i :: 0 <= i < |id1| ==> id1[i] < |sp.init|
    ensures c == CmpKey(KeyOf(sp, id1), SigKey(s))
  {
    if |id1| < s.len {
      return -1;
    }
    if |id1| > s.len {
      return 1;
    }
    for i := 0 to |id1|
      invariant KeyOf(sp, id1)[..i] == SigKey(s)[..i]
    {
      var py1, py2 := sp.init[id1[i]], SigByte(s.sig, i);
      if py1 != py2 {
        LexPrefix(KeyOf(sp, id1), SigKey(s), i);
        return if py1 > py2 then 1 else -1;
      }
    }
    assert KeyOf(sp, id1) == KeyOf(sp, id1)[..|id1|] == SigKey(s)[..s.len] == SigKey(s);
    c := 0;
  }

  // UserDict::is_fuzzy_prefix_spell_id
  method IsFuzzyPrefixSpellId(sp: Spellings, id1: seq<nat>, s: Searchable) returns (r: bool)
    requires OkSearchable(s) && forall i :: 0 <= i < |id1| ==> id1[i] < |sp.init|
    ensures r <==> SigKey(s) <= KeyOf(sp, id1)
  {
    if |id1| < s.len {
      return false;
    }
    for i := 0 to s.len
      invariant KeyOf(sp, id1)[..i] == SigKey(s)[..i]
    {
      if sp.init[id1[i]] != SigByte(s.sig, i) {
        assert SigKey(s)[i] != KeyOf(sp, id1)[i];
        return false;
      }
    }
    r := true;
  }

  // UserDict::is_prefix_spell_id
  method IsPrefixSpellId(fullids: seq<nat>, s: Searchable) returns (r: bool)
    requires OkSearchable(s)
    ensures r <==> PrefixMatch(fullids, s)
  {
    if |fullids| < s.len {
      return false;
    }
    for i := 0 to s.len
      invariant forall j :: 0 <= j < i ==> s.start[j] <= fullids[j] < s.start[j] + s.count[j]
    {
      if !(s.start[i] <= fullids[i] < s.start[i] + s.count[i]) {
        return false;
      }
    }
    r := true;
  }

  // UserDict::equal_spell_id
  method EqualSpellId(fullids: seq<nat>, s: Searchable) returns (r: bool)
    requires OkSearchable(s)
    ensures r <==> Match(fullids, s)
  {
    if |fullids| != s.len {
      return false;
    }
    for i := 0 to |fullids|
      invariant forall j :: 0 <= j < i ==> s.start[j] <= fullids[j] < s.start[j] + s.count[j]
    {
      if !(s.start[i] <= fullids[i] < s.start[i] + s.count[i]) {
        return false;
      }
    }
    r := true;
  }
}
