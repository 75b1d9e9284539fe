// The in-memory record log of the user dictionary: a byte buffer holding
// back-to-back records
//   | spare/flag (1) | nchar (1) | spelling ids (2 x nchar) | word (2 x nchar) |
// and the words of the offset index that point into it.

module UserLog {
  import opened Limits
  type Byte = x: int | 0 <= x < 256

  // Highest bit of an offset word: the lemma it points to has been removed.
  const OFFSET_FLAG_REMOVE := 0x8000_0000
  const OFFSET_MASK := 0x7FFF_FFFF

  predicate Removed(word: nat) { word >= OFFSET_FLAG_REMOVE }

  function Off(word: nat): nat { if Removed(word) then word - OFFSET_FLAG_REMOVE else word }

  // `word | kUserDictOffsetFlagRemove` on a 32-bit word.
  function SetRemoved(word: nat): nat { if Removed(word) then word else word + OFFSET_FLAG_REMOVE }

  // The kUserDictLemmaFlagRemove bit of a record's first byte.
  predicate Flagged(b: Byte) { b % 2 == 1 }

  // `b | kUserDictLemmaFlagRemove`
  function OrFlag(b: Byte): Byte { if Flagged(b) then b else b + 1 }

  function RecSize(nchar: nat): nat { 2 + 4 * nchar }

  type Rec = seq<Byte>

  predicate IsRec(r: Rec) { |r| >= 2 && 1 <= r[1] <= MAX_LEMMA_SIZE && |r| == RecSize(r[1]) }

  // The record carries the removed flag.
  predicate Dead(r: Rec) { |r| > 0 && Flagged(r[0]) }

  predicate AllRecs(rs: seq<Rec>) { forall k :: 0 <= k < |rs| ==> IsRec(rs[k]) }

  function U16(lo: Byte, hi: Byte): nat { lo + 256 * hi }

  // n little-endian 16-bit values from byte b on.
  function U16s(r: Rec, b: nat, n: nat): (s: seq<nat>)
    requires b + 2 * n <= |r|
    ensures |s| == n
  {
    seq(n, i requires 0 <= i < n => U16(r[b + 2 * i], r[b + 2 * i + 1]))
  }

  function RecIds(r: Rec): (s: seq<nat>)
    requires IsRec(r)
    ensures |s| == r[1]
  {
    U16s(r, 2, r[1])
  }

  function RecWord(r: Rec): (s: seq<nat>)
    requires IsRec(r)
    ensures |s| == r[1]
  {
    U16s(r, 2 + 2 * (r[1] as int), r[1])
  }

  // The bytes of a run of records.
  function Flat(rs: seq<Rec>): seq<Byte> {
    if rs == [] then [] else Flat(rs[..|rs| - 1]) + rs[|rs| - 1]
  }

  // Where record k starts.
  function Start(rs: seq<Rec>, k: nat): nat
    requires k <= |rs|
  {
    |Flat(rs[..k])|
  }

  // The records whose removed flag is clear, in order.
  function Keep(rs: seq<Rec>): seq<Rec>
    requires AllRecs(rs)
  {
    if rs == [] then []
    else
      var last := rs[|rs| - 1];
      Keep(rs[..|rs| - 1]) + if Dead(last) then [] else [last]
  }

  lemma {:induction false} FlatConcat(a: seq<Rec>, b: seq<Rec>)
    ensures Flat(a + b) == Flat(a) + Flat(b)
  {
    if b == [] {
      assert a + b == a;
    } else {
      FlatConcat(a, b[..|b| - 1]);
      assert (a + b)[..|a + b| - 1] == a + b[..|b| - 1];
    }
  }

  lemma FlatOne(r: Rec)
    ensures Flat([r]) == r
  {
    assert [r][..0] == [];
  }

  lemma StartNext(rs: seq<Rec>, k: nat)
    requires k < |rs|
    ensures Flat(rs[..k + 1]) == Flat(rs[..k]) + rs[k]
    ensures Start(rs, k + 1) == Start(rs, k) + |rs[k]|
  {
    var p := rs[..k + 1];
    assert p[..|p| - 1] == rs[..k] && p[|p| - 1] == rs[k];
  }

  lemma StartIs(rs: seq<Rec>, k: nat)
    requires k <= |rs|
    ensures Start(rs, k) == |Flat(rs[..k])|
  {}

  // Splitting the log at record k.
  lemma FlatSplit(rs: seq<Rec>, k: nat)
    requires k < |rs|
    ensures Start(rs, k + 1) == Start(rs, k) + |rs[k]| <= |Flat(rs)|
    ensures Flat(rs) == Flat(rs[..k]) + rs[k] + Flat(rs[k + 1..])
    ensures Flat(rs)[Start(rs, k)..Start(rs, k) + |rs[k]|] == rs[k]
  {
    hide *;
    StartNext(rs, k);
    StartIs(rs, k);
    assert rs == rs[..k + 1] + rs[k + 1..];
    FlatConcat(rs[..k + 1], rs[k + 1..]);
    SliceMiddle(Flat(rs[..k]), rs[k], Flat(rs[k + 1..]));
  }

  lemma SliceMiddle(a: seq<Byte>, b: seq<Byte>, c: seq<Byte>)
    ensures (a + b + c)[|a|..|a| + |b|] == b
  {}

  lemma FlatWhole(rs: seq<Rec>)
    ensures Start(rs, |rs|) == |Flat(rs)|
  {
    assert rs[..|rs|] == rs;
  }

  lemma {:induction false} StartMono(rs: seq<Rec>, j: nat, k: nat)
    requires j <= k <= |rs| && AllRecs(rs)
    ensures Start(rs, k) >= Start(rs, j) + 2 * (k - j)
    ensures Start(rs, k) <= |Flat(rs)|
    decreases k - j
  {
    FlatWhole(rs);
    if k < |rs| {
      FlatSplit(rs, k);
    }
    if j < k {
      FlatSplit(rs, j);
      StartMono(rs, j + 1, k);
    }
  }

  // Overwriting the bytes of one record with bytes of the same length.
  lemma FlatUpdate(rs: seq<Rec>, k: nat, r: Rec)
    requires k < |rs| && |r| == |rs[k]|
    ensures Flat(rs[k := r]) == Flat(rs[..k]) + r + Flat(rs[k + 1..])
    ensures forall j :: 0 <= j <= |rs| ==> Start(rs[k := r], j) == Start(rs, j)
  {
    var rs' := rs[k := r];
    FlatSplit(rs', k);
    assert rs'[..k] == rs[..k] && rs'[k + 1..] == rs[k + 1..];
    forall j | 0 <= j <= |rs|
      ensures Start(rs', j) == Start(rs, j)
    {
      if j <= k {
        assert rs'[..j] == rs[..j];
      } else {
        FlatSplit(rs[..j], k);
        FlatSplit(rs'[..j], k);
        assert rs[..j][..k] == rs'[..j][..k];
        assert rs[..j][k + 1..] == rs'[..j][k + 1..];
      }
    }
  }

  // ---- What compaction keeps ----

  lemma {:induction false} KeepConcat(a: seq<Rec>, b: seq<Rec>)
    requires AllRecs(a) && AllRecs(b)
    ensures AllRecs(a + b) && Keep(a + b) == Keep(a) + Keep(b)
  {
    if b == [] {
      assert a + b == a;
    } else {
      KeepConcat(a, b[..|b| - 1]);
      assert (a + b)[..|a + b| - 1] == a + b[..|b| - 1];
    }
  }

  lemma {:induction false} KeepAll(a: seq<Rec>)
    requires AllRecs(a) && forall k :: 0 <= k < |a| ==> !Dead(a[k])
    ensures Keep(a) == a
  {
    if a != [] {
      KeepAll(a[..|a| - 1]);
    }
  }

  lemma {:induction false} KeepNone(a: seq<Rec>)
    requires AllRecs(a) && forall k :: 0 <= k < |a| ==> Dead(a[k])
    ensures Keep(a) == []
  {
    if a != [] {
      KeepNone(a[..|a| - 1]);
    }
  }

  lemma {:induction false} KeepIsRecs(a: seq<Rec>)
    requires AllRecs(a)
    ensures AllRecs(Keep(a)) && |Keep(a)| <= |a| && |Flat(Keep(a))| <= |Flat(a)|
    ensures forall k :: 0 <= k < |Keep(a)| ==> !Dead(Keep(a)[k])
  {
    if a != [] {
      var p, last := a[..|a| - 1], a[|a| - 1];
      KeepIsRecs(p);
      assert a == p + [last];
      FlatOne(last);
      FlatConcat(p, [last]);
      FlatConcat(Keep(p), [last]);
      assert Keep(a) == Keep(p) + if Dead(last) then [] else [last];
      assert Keep(p) + [] == Keep(p);
    }
  }

  // Where record k stands among the kept ones.
  function Rank(rs: seq<Rec>, k: nat): nat
    requires AllRecs(rs) && k <= |rs|
  {
    |Keep(rs[..k])|
  }

  lemma KeptAt(rs: seq<Rec>, k: nat)
    requires AllRecs(rs) && k < |rs| && !Dead(rs[k])
    ensures Rank(rs, k) < |Keep(rs)| && Keep(rs)[Rank(rs, k)] == rs[k]
    ensures Keep(rs)[..Rank(rs, k)] == Keep(rs[..k])
    ensures Rank(rs, k + 1) == Rank(rs, k) + 1
    ensures Start(Keep(rs), Rank(rs, k)) == |Flat(Keep(rs[..k]))|
  {
    hide Keep, Flat, IsRec, Dead;
    KeepNext(rs, k);
    KeepSplit(rs, k + 1);
    PrefixOfThree(Keep(rs[..k]), rs[k], Keep(rs[k + 1..]));
  }

  lemma PrefixOfThree(a: seq<Rec>, r: Rec, c: seq<Rec>)
    ensures (a + [r] + c)[|a|] == r && (a + [r] + c)[..|a|] == a
  {}

  lemma KeepSplit(rs: seq<Rec>, k: nat)
    requires AllRecs(rs) && k <= |rs|
    ensures Keep(rs) == Keep(rs[..k]) + Keep(rs[k..])
  {
    hide Keep, IsRec;
    assert rs == rs[..k] + rs[k..];
    KeepConcat(rs[..k], rs[k..]);
  }

  lemma KeepNext(rs: seq<Rec>, k: nat)
    requires AllRecs(rs) && k < |rs| && !Dead(rs[k])
    ensures Keep(rs[..k + 1]) == Keep(rs[..k]) + [rs[k]]
  {
    assert rs[..k + 1][..k] == rs[..k];
  }

  lemma {:induction false} RankMono(rs: seq<Rec>, j: nat, k: nat)
    requires AllRecs(rs) && j <= k <= |rs|
    ensures Rank(rs, j) <= Rank(rs, k) <= Rank(rs, |rs|)
  {
    assert rs[..k] == rs[..j] + rs[j..k] && rs[..|rs|] == rs[..k] + rs[k..];
    KeepConcat(rs[..j], rs[j..k]);
    KeepConcat(rs[..k], rs[k..]);
  }

  // Every kept record is some unflagged record.
  lemma {:induction false} RankOnto(rs: seq<Rec>, r: nat) returns (k: nat)
    requires AllRecs(rs) && r < |Keep(rs)|
    ensures k < |rs| && !Dead(rs[k]) && Rank(rs, k) == r
  {
    var m := |rs| - 1;
    if r < Rank(rs, m) {
      k := RankOnto(rs[..m], r);
      assert rs[..m][..k] == rs[..k];
    } else {
      k := m;
    }
  }
}
