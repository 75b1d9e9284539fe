// The signature caches of the user dictionary: ring buffers that remember, per
// query length, the index range (or the absence) of a key.

module UserCache {
  import opened Limits
  import opened UserLog
  import opened UserKeys
  import opened UserStore

  const CACHE_SIZE := 4
  const MISS_CACHE_SIZE := MAX_LEMMA_SIZE - 1

  datatype CacheSlot = CacheSlot(sig: seq<nat>, offset: nat, length: nat)

  // head is the oldest entry, tail the next free slot; head == tail means empty.
  datatype Ring = Ring(slots: seq<CacheSlot>, head: nat, tail: nat)

  predicate OkRing(r: Ring) {
    && r.head < |r.slots| && r.tail < |r.slots|
    && forall i :: 0 <= i < |r.slots| ==> |r.slots[i].sig| == SIG_WORDS
  }

  // Slot i holds an entry.
  predicate InRing(r: Ring, i: nat) {
    i < |r.slots| && if r.head <= r.tail then r.head <= i < r.tail else i >= r.head || i < r.tail
  }

  function EmptyRing(size: nat): (r: Ring)
    requires size > 0
    ensures OkRing(r) && forall i: nat :: !InRing(r, i)
  {
    Ring(seq(size, _ => CacheSlot([0, 0], 0, 0)), 0, 0)
  }

  // How many slots lie between head and i.
  function Distance(r: Ring, i: nat): nat
    requires r.head < |r.slots| && i < |r.slots|
  {
    if i >= r.head then i - r.head else i + |r.slots| - r.head
  }

  // The entry with the signature that a walk from head meets first.
  ghost predicate Nearest(r: Ring, sig: seq<nat>, i: nat)
    requires OkRing(r)
  {
    && InRing(r, i) && r.slots[i].sig == sig
    && forall j: nat :: InRing(r, j) && Distance(r, j) < Distance(r, i) ==> r.slots[j].sig != sig
  }

  ghost function Lookup(r: Ring, sig: seq<nat>): (i: int)
    requires OkRing(r)
    ensures i >= -1 && (i >= 0 ==> Nearest(r, sig, i))
    ensures i == -1 ==> forall j: nat :: !Nearest(r, sig, j)
  {
    if exists i: nat :: Nearest(r, sig, i) then var i: nat :| Nearest(r, sig, i); i else -1
  }

  lemma NearestOne(r: Ring, sig: seq<nat>, i: nat, j: nat)
    requires OkRing(r) && Nearest(r, sig, i) && Nearest(r, sig, j)
    ensures i == j
  {
    assert Distance(r, i) == Distance(r, j);
  }

  // UserDict::load_cache and load_miss_cache
  method Load(r: Ring, sig: seq<nat>) returns (hit: bool, i: nat)
    requires OkRing(r)
    ensures hit ==> InRing(r, i) && r.slots[i].sig == sig
    ensures !hit ==> forall j: nat :: InRing(r, j) ==> r.slots[j].sig != sig
    ensures Lookup(r, sig) == if hit then i else -1
  {
    i := r.head;
    if r.head == r.tail {
      return false, i;
    }
    while true
      invariant InRing(r, i)
      invariant forall j: nat :: InRing(r, j) && Distance(r, j) < Distance(r, i) ==> r.slots[j].sig != sig
      decreases |r.slots| - Distance(r, i)
    {
      if r.slots[i].sig == sig {
        assert Nearest(r, sig, i);
        NearestOne(r, sig, Lookup(r, sig), i);
        return true, i;
      }
      i := i + 1;
      if i >= |r.slots| {
        i := i - |r.slots|;
      }
      if i == r.tail {
        break;
      }
    }
    hit := false;
  }

  // The entries, the oldest first.
  function Entries(r: Ring): (s: seq<CacheSlot>)
    requires OkRing(r)
    ensures |s| < |r.slots|
  {
    if r.head <= r.tail then r.slots[r.head..r.tail] else r.slots[r.head..] + r.slots[..r.tail]
  }

  // UserDict::save_cache and save_miss_cache. A full ring loses its oldest entry.
  method Save(r: Ring, slot: CacheSlot) returns (r': Ring)
    requires OkRing(r) && |slot.sig| == SIG_WORDS && |r.slots| >= 2
    ensures OkRing(r') && |r'.slots| == |r.slots|
    ensures InRing(r', r.tail) && r'.slots[r.tail] == slot
    ensures forall i: nat :: InRing(r', i) && i != r.tail ==> InRing(r, i) && r'.slots[i] == r.slots[i]
    ensures var s := Entries(r);
            Entries(r') == (if |s| + 1 == |r.slots| then s[1..] else s) + [slot]
  {
    var slots := r.slots[r.tail := slot];
    var head, next := r.head, r.tail + 1;
    if next >= |slots| {
      next := next - |slots|;
    }
    if next == head {
      head := head + 1;
      if head >= |slots| {
        head := head - |slots|;
      }
    }
    r' := Ring(slots, head, next);
    SavedEntries(r, slot);
  }

  // The ring after saving.
  function Saved(r: Ring, slot: CacheSlot): Ring
    requires OkRing(r)
  {
    var n := |r.slots|;
    var next := if r.tail + 1 == n then 0 else r.tail + 1;
    Ring(r.slots[r.tail := slot], if next == r.head then if r.head + 1 == n then 0 else r.head + 1 else r.head, next)
  }

  lemma SavedEntries(r: Ring, slot: CacheSlot)
    requires OkRing(r) && |slot.sig| == SIG_WORDS && |r.slots| >= 2
    ensures OkRing(Saved(r, slot))
    ensures var s := Entries(r);
            Entries(Saved(r, slot)) == (if |s| + 1 == |r.slots| then s[1..] else s) + [slot]
  {
    var s, r' := Entries(r), Saved(r, slot);
    var t := (if |s| + 1 == |r.slots| then s[1..] else s) + [slot];
    hide Entries;
    EntryNum(r);
    EntryNum(r');
    forall k | 0 <= k < |t|
      ensures Entries(r')[k] == t[k]
    {
      EntryAt(r, if |s| + 1 == |r.slots| then k + 1 else k);
      EntryAt(r', k);
    }
  }

  lemma EntryNum(r: Ring)
    requires OkRing(r)
    ensures |Entries(r)| == if r.head <= r.tail then r.tail - r.head else |r.slots| - r.head + r.tail
  {}

  // Entry number k, counted from head on.
  lemma EntryAt(r: Ring, k: nat)
    requires OkRing(r)
    ensures k < |Entries(r)| ==>
              Entries(r)[k] == r.slots[if r.head + k < |r.slots| then r.head + k else r.head + k - |r.slots|]
  {}

  // ---- What a cached range promises ----

  function SigKeyOf(len: nat, sig: seq<nat>): (k: Key)
    requires len <= MAX_LEMMA_SIZE && |sig| == SIG_WORDS
    ensures |k| == len
  {
    seq(len, i requires 0 <= i < len => SigByte(sig, i))
  }

  ghost predicate HasKey(sp: Spellings, st: Store, i: nat, key: Key)
    requires ValidStore(sp, st)
  {
    i < |st.slot| && KeyAtSlot(sp, st.recs, st.slot[i]) == key
  }

  ghost predicate LiveAt(st: Store, i: nat) {
    i < |st.slot| && st.slot[i] < |st.dead| && !st.dead[st.slot[i]]
  }

  // Every entry with this key lies in the range, which starts no earlier than the
  // key's place; a live entry of the range with another key can only be its last.
  ghost predicate RangeOk(sp: Spellings, st: Store, key: Key, start: nat, count: nat)
    requires ValidStore(sp, st)
  {
    && start + count <= |st.slot|
    && (start < |st.slot| ==> CmpKey(KeyAtSlot(sp, st.recs, st.slot[start]), key) >= 0)
    && (forall i: nat :: HasKey(sp, st, i, key) ==> start <= i < start + count)
    && (forall i: nat :: start <= i < start + count && LiveAt(st, i) && !HasKey(sp, st, i, key) ==>
         i == start + count - 1)
  }

  ghost predicate NoKey(sp: Spellings, st: Store, key: Key)
    requires ValidStore(sp, st)
  {
    forall i: nat :: !HasKey(sp, st, i, key)
  }

  ghost predicate HitRingOk(sp: Spellings, st: Store, len: nat, r: Ring)
    requires ValidStore(sp, st) && len <= MAX_LEMMA_SIZE
  {
    && OkRing(r) && |r.slots| == CACHE_SIZE
    && forall i: nat :: InRing(r, i) ==>
      RangeOk(sp, st, SigKeyOf(len, r.slots[i].sig), r.slots[i].offset, r.slots[i].length)
  }

  ghost predicate MissRingOk(sp: Spellings, st: Store, len: nat, r: Ring)
    requires ValidStore(sp, st) && len <= MAX_LEMMA_SIZE
  {
    && OkRing(r) && |r.slots| == MISS_CACHE_SIZE
    && forall i: nat :: InRing(r, i) ==> NoKey(sp, st, SigKeyOf(len, r.slots[i].sig))
  }

  // caches[len - 1] serves the queries of length len.
  ghost predicate CachesOk(sp: Spellings, st: Store, hits: seq<Ring>, misses: seq<Ring>)
    requires ValidStore(sp, st)
  {
    && |hits| == |misses| == MAX_LEMMA_SIZE
    && forall l :: 0 <= l < MAX_LEMMA_SIZE ==>
      HitRingOk(sp, st, l + 1, hits[l]) && MissRingOk(sp, st, l + 1, misses[l])
  }

  // UserDict::cache_init
  function EmptyCaches(size: nat): (rs: seq<Ring>)
    requires size > 0
    ensures |rs| == MAX_LEMMA_SIZE && forall l :: 0 <= l < |rs| ==> rs[l] == EmptyRing(size)
  {
    seq(MAX_LEMMA_SIZE, _ => EmptyRing(size))
  }

  lemma EmptyCachesOk(sp: Spellings, st: Store)
    requires ValidStore(sp, st)
    ensures CachesOk(sp, st, EmptyCaches(CACHE_SIZE), EmptyCaches(MISS_CACHE_SIZE))
  {
    hide ValidStore, RangeOk, NoKey, SigKeyOf;
  }

  // Removing or rescoring lemmas keeps the caches: entries do not move.
  lemma CachesKept(sp: Spellings, st: Store, st': Store, hits: seq<Ring>, misses: seq<Ring>)
    requires ValidStore(sp, st) && ValidStore(sp, st') && CachesOk(sp, st, hits, misses)
    requires st'.recs == st.recs && st'.slot == st.slot
    requires forall i: nat :: LiveAt(st', i) ==> LiveAt(st, i)
    ensures CachesOk(sp, st', hits, misses)
  {
    forall i: nat, key: Key
      ensures HasKey(sp, st', i, key) <==> HasKey(sp, st, i, key)
    {}
    forall key: Key, start: nat, count: nat | RangeOk(sp, st, key, start, count)
      ensures RangeOk(sp, st', key, start, count)
    {
      hide ValidStore, HasKey, LiveAt, CmpKey;
    }
    hide ValidStore, HasKey, LiveAt, RangeOk, SigKeyOf;
  }
}
