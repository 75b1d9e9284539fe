// Choosing the lemmas to reclaim: a max-heap keeps the lowest scores seen so far
// (UserDict::reclaim and shift_down).

module UserReclaim {
  // One UserDictScoreOffsetPair.
  datatype Pair = Pair(score: int, index: nat)

  // A 32-bit score read as a signed int.
  function AsInt(x: nat): int { if x >= 0x8000_0000 then x - 0x1_0000_0000 else x }

  ghost predicate DistinctScores(s: seq<Pair>) {
    forall i, j :: 0 <= i < j < |s| ==> s[i].score != s[j].score
  }

  ghost predicate DistinctIndices(s: seq<Pair>) {
    forall i, j :: 0 <= i < j < |s| ==> s[i].index != s[j].index
  }

  // Parent k of child c is in order, for a child below n.
  ghost predicate Over(s: seq<Pair>, k: nat, c: nat) {
    k < |s| && (c < |s| ==> s[k].score >= s[c].score)
  }

  // Node k is not below its children.
  ghost predicate NodeOk(s: seq<Pair>, k: nat) {
    Over(s, k, 2 * k + 1) && Over(s, k, 2 * k + 2)
  }

  ghost predicate HeapFrom(s: seq<Pair>, i: nat) {
    forall k: nat :: i <= k < |s| ==> NodeOk(s, k)
  }

  // A heap from i on but for node `hole`, whose parent is not below the hole's children.
  ghost predicate HeapBut(s: seq<Pair>, i: nat, hole: nat) {
    && i <= hole
    && (forall k: nat :: i <= k < |s| && k != hole ==> NodeOk(s, k))
    && (forall k: nat :: i <= k < |s| && (hole == 2 * k + 1 || hole == 2 * k + 2) ==>
      Over(s, k, 2 * hole + 1) && Over(s, k, 2 * hole + 2))
  }

  function SwapPairs(s: seq<Pair>, i: nat, j: nat): seq<Pair>
    requires i < |s| && j < |s|
  {
    s[i := s[j]][j := s[i]]
  }

  ghost predicate SameElements(s: seq<Pair>, t: seq<Pair>) {
    |s| == |t| && forall p :: p in s <==> p in t
  }

  lemma SwapSame(s: seq<Pair>, i: nat, j: nat)
    requires i < |s| && j < |s|
    ensures SameElements(s, SwapPairs(s, i, j))
    ensures DistinctIndices(s) ==> DistinctIndices(SwapPairs(s, i, j))
  {
    var t := SwapPairs(s, i, j);
    forall p
      ensures p in s <==> p in t
    {
      if p in s {
        var k :| 0 <= k < |s| && s[k] == p;
        assert t[if k == i then j else if k == j then i else k] == p;
      }
      if p in t {
        var k :| 0 <= k < |t| && t[k] == p;
        assert s[if k == i then j else if k == j then i else k] == p;
      }
    }
  }

  // Moving the larger child c of the hole up.
  lemma SiftStep(s: seq<Pair>, i: nat, hole: nat, c: nat)
    requires HeapBut(s, i, hole) && hole < |s| && c < |s| && (c == 2 * hole + 1 || c == 2 * hole + 2)
    requires s[c].score > s[hole].score
    requires Over(s, c, 2 * hole + 1) && Over(s, c, 2 * hole + 2)
    ensures HeapBut(SwapPairs(s, hole, c), i, c)
  {
    var t := SwapPairs(s, hole, c);
    forall k: nat | i <= k < |t| && k != c
      ensures NodeOk(t, k)
    {
      if k != hole {
        assert NodeOk(s, k);
      }
    }
    forall k: nat | i <= k < |t| && (c == 2 * k + 1 || c == 2 * k + 2)
      ensures Over(t, k, 2 * c + 1) && Over(t, k, 2 * c + 2)
    {
      assert k == hole && NodeOk(s, c);
    }
  }

  // The child of par that shift_down moves up over the score v, or par itself where it stops.
  function ChildOver(s: seq<Pair>, par: nat, v: int): (c: nat)
    requires par < |s|
    ensures c < |s| && (c == par || c == 2 * par + 1 || c == 2 * par + 2)
  {
    var left, right := par * 2 + 1, par * 2 + 2;
    if left >= |s| then par
    else if right >= |s| then if s[left].score > v then left else par
    else if s[left].score > s[right].score && s[left].score > v then left
    else if s[right].score > s[left].score && s[right].score > v then right
    else par
  }

  function Child(s: seq<Pair>, par: nat): (c: nat)
    requires par < |s|
    ensures c < |s| && (c == par || c == 2 * par + 1 || c == 2 * par + 2)
  {
    ChildOver(s, par, s[par].score)
  }

  // What shift_down makes of the pairs, and the node it stops at.
  function Sift(s: seq<Pair>, par: nat): (r: (seq<Pair>, nat))
    ensures |r.0| == |s|
    decreases |s| - par
  {
    if par >= |s| then (s, par)
    else
      var c := Child(s, par);
      if c == par then (s, par) else Sift(SwapPairs(s, par, c), c)
  }

  lemma SiftIs(s: seq<Pair>, par: nat)
    ensures par >= |s| ==> Sift(s, par) == (s, par)
    ensures par < |s| ==>
              Sift(s, par) == if Child(s, par) == par then (s, par) else Sift(SwapPairs(s, par, Child(s, par)),
                                                                                 Child(s, par))
  {}

  // UserDict::shift_down
  method ShiftDown(sop: array<Pair>, i: nat)
    modifies sop
    ensures sop[..] == Sift(old(sop[..]), i).0
  {
    hide Sift;
    var n := sop.Length;
    var par := i;
    while par < n
      invariant Sift(sop[..], par) == Sift(old(sop[..]), i)
      decreases n - par
    {
      SiftIs(sop[..], par);
      var left, right := par * 2 + 1, par * 2 + 2;
      if left >= n && right >= n {
        break;
      }
      ghost var s := sop[..];
      if right >= n {
        if sop[left].score > sop[par].score {
          sop[left], sop[par] := sop[par], sop[left];
          assert sop[..] == SwapPairs(s, par, left);
          par := left;
          continue;
        }
      } else if sop[left].score > sop[right].score && sop[left].score > sop[par].score {
        sop[left], sop[par] := sop[par], sop[left];
        assert sop[..] == SwapPairs(s, par, left);
        par := left;
        continue;
      } else if sop[right].score > sop[left].score && sop[right].score > sop[par].score {
        sop[right], sop[par] := sop[par], sop[right];
        assert sop[..] == SwapPairs(s, par, right);
        par := right;
        continue;
      }
      assert Child(s, par) == par;
      break;
    }
    SiftIs(sop[..], par);
  }

  // Going down from node k over the larger child with a score of v, shift_down comes to
  // children that score the same and more than v.
  ghost predicate MeetsTie(s: seq<Pair>, k: nat, v: int)
    requires k < |s|
    decreases |s| - k
  {
    || (2 * k + 2 < |s| && s[2 * k + 1].score == s[2 * k + 2].score > v)
    || (ChildOver(s, k, v) != k && MeetsTie(s, ChildOver(s, k, v), v))
  }

  // Only the nodes below k matter.
  lemma {:induction false} MeetsSame(s: seq<Pair>, t: seq<Pair>, k: nat, v: int)
    requires k < |s| == |t| && forall j :: k < j < |s| ==> s[j] == t[j]
    ensures MeetsTie(s, k, v) <==> MeetsTie(t, k, v)
    decreases |s| - k
  {
    var c := ChildOver(s, k, v);
    if c != k {
      MeetsSame(s, t, c, v);
    }
  }

  // Shifting node i down restores the heap exactly when its score meets no tie on the way.
  lemma {:induction false} SiftRestores(s: seq<Pair>, i: nat, par: nat)
    requires HeapBut(s, i, par)
    ensures var t := Sift(s, par).0;
            SameElements(s, t) && (DistinctIndices(s) ==> DistinctIndices(t))
            && (HeapFrom(t, i) <==> (par >= |s| || !MeetsTie(s, par, s[par].score)))
    decreases |s| - par
  {
    if par < |s| {
      var c := Child(s, par);
      if c != par {
        assert NodeOk(s, c);
        SiftStep(s, i, par, c);
        SwapSame(s, par, c);
        var t := SwapPairs(s, par, c);
        SiftRestores(t, i, c);
        MeetsSame(s, t, c, s[par].score);
      } else {
        assert MeetsTie(s, par, s[par].score) <==> !NodeOk(s, par);
      }
    }
  }

  lemma {:induction false} NoTies(s: seq<Pair>, k: nat, v: int)
    requires DistinctScores(s) && k < |s|
    ensures !MeetsTie(s, k, v)
    decreases |s| - k
  {
    if ChildOver(s, k, v) != k {
      NoTies(s, ChildOver(s, k, v), v);
    }
  }

  // Whatever it meets, sifting keeps the pairs.
  lemma {:induction false} SiftKeeps(s: seq<Pair>, par: nat)
    ensures SameElements(s, Sift(s, par).0) && (DistinctIndices(s) ==> DistinctIndices(Sift(s, par).0))
    decreases |s| - par
  {
    if par < |s| && Child(s, par) != par {
      SwapSame(s, par, Child(s, par));
      SiftKeeps(SwapPairs(s, par, Child(s, par)), Child(s, par));
    }
  }

  // shift_down of node i meets no tie.
  ghost predicate Smooth(s: seq<Pair>, i: nat) { i < |s| ==> !MeetsTie(s, i, s[i].score) }

  lemma SiftSmooth(s: seq<Pair>, i: nat)
    requires HeapFrom(s, i + 1)
    ensures HeapFrom(Sift(s, i).0, i) <==> Smooth(s, i)
  {
    assert HeapBut(s, i, i);
    SiftRestores(s, i, i);
  }

  // With tied children shift_down leaves them below a smaller parent.
  lemma TiesBreakTheHeap()
    ensures var s := [Pair(1, 0), Pair(2, 1), Pair(2, 2)];
            HeapFrom(s, 1) && Sift(s, 0).0 == s && !HeapFrom(s, 0)
  {
    var s := [Pair(1, 0), Pair(2, 1), Pair(2, 2)];
    assert !Over(s, 0, 1);
    assert !NodeOk(s, 0);
  }

  // The root of a heap is its maximum.
  lemma {:induction false} RootIsMax(s: seq<Pair>, k: nat)
    requires HeapFrom(s, 0) && k < |s|
    ensures s[0].score >= s[k].score
    decreases k
  {
    if k > 0 {
      var p := (k - 1) / 2;
      RootIsMax(s, p);
      assert NodeOk(s, p);
      assert k == 2 * p + 1 || k == 2 * p + 2;
    }
  }

  // ---- The lowest scores ----

  // The pairs of s are entries below i.
  ghost predicate Entries(s: seq<Pair>, scores: seq<nat>, i: nat) {
    && i <= |scores|
    && forall k :: 0 <= k < |s| ==> s[k].index < i && s[k].score == AsInt(scores[s[k].index])
  }

  ghost predicate Picked(s: seq<Pair>, x: nat) { exists k :: 0 <= k < |s| && s[k].index == x }

  // Every entry below i is picked or scores no less than everything picked.
  ghost predicate Lowest(s: seq<Pair>, scores: seq<nat>, i: nat) {
    && i <= |scores|
    && forall x: nat, k :: x < i && !Picked(s, x) && 0 <= k < |s| ==> s[k].score <= AsInt(scores[x])
  }

  ghost predicate AllDistinct(scores: seq<nat>) {
    forall i, j :: 0 <= i < j < |scores| ==> AsInt(scores[i]) != AsInt(scores[j])
  }

  lemma SameEntries(s: seq<Pair>, t: seq<Pair>, scores: seq<nat>, i: nat)
    requires SameElements(s, t) && Entries(s, scores, i)
    ensures Entries(t, scores, i) && (Lowest(s, scores, i) ==> Lowest(t, scores, i))
  {
    forall k | 0 <= k < |t|
      ensures t[k].index < i && t[k].score == AsInt(scores[t[k].index])
    {
      assert t[k] in s;
    }
    forall x: nat, k | Lowest(s, scores, i) && x < i && !Picked(t, x) && 0 <= k < |t|
      ensures t[k].score <= AsInt(scores[x])
    {
      PickedSame(s, t, x);
      assert t[k] in s;
    }
  }

  lemma PickedSame(s: seq<Pair>, t: seq<Pair>, x: nat)
    requires SameElements(s, t)
    ensures Picked(s, x) ==> Picked(t, x)
  {
    if Picked(s, x) {
      var a :| 0 <= a < |s| && s[a].index == x;
      assert s[a] in t;
    }
  }

  function PairOf(scores: seq<nat>, i: nat): Pair
    requires i < |scores|
  {
    Pair(AsInt(scores[i]), i)
  }

  // Entry i replaces the root.
  lemma ReplaceRoot(s: seq<Pair>, scores: seq<nat>, i: nat)
    requires |s| > 0 && Entries(s, scores, i) && DistinctIndices(s) && i < |scores|
    ensures var t := s[0 := PairOf(scores, i)];
            && Entries(t, scores, i + 1) && DistinctIndices(t) && (HeapFrom(s, 0) ==> HeapFrom(t, 1))
            && (HeapFrom(s, 0) && Lowest(s, scores, i) && AsInt(scores[i]) < s[0].score ==> Lowest(t, scores, i + 1))
  {
    var t := s[0 := PairOf(scores, i)];
    forall k: nat | HeapFrom(s, 0) && 1 <= k < |t|
      ensures NodeOk(t, k)
    {
      assert NodeOk(s, k);
    }
    assert t[0].index == i;
    forall x: nat, k | HeapFrom(s, 0) && Lowest(s, scores, i) && AsInt(scores[i]) < s[0].score
                       && x < i + 1 && !Picked(t, x) && 0 <= k < |t|
      ensures t[k].score <= AsInt(scores[x])
    {
      RootIsMax(s, k);
      if x != s[0].index {
        StillPicked(s, PairOf(scores, i), x);
      }
    }
  }

  // Replacing the root gives up only the root's entry.
  lemma StillPicked(s: seq<Pair>, p: Pair, x: nat)
    requires |s| > 0 && x != s[0].index
    ensures Picked(s, x) ==> Picked(s[0 := p], x)
  {
    if Picked(s, x) {
      var a :| 0 <= a < |s| && s[a].index == x;
      assert s[0 := p][a].index == x;
    }
  }

  // Entry i scores no less than the root.
  lemma SkipEntry(s: seq<Pair>, scores: seq<nat>, i: nat)
    requires |s| > 0 && Entries(s, scores, i) && i < |scores| && AsInt(scores[i]) >= s[0].score
    ensures Entries(s, scores, i + 1)
    ensures HeapFrom(s, 0) && Lowest(s, scores, i) ==> Lowest(s, scores, i + 1)
  {
    forall k | HeapFrom(s, 0) && 0 <= k < |s|
      ensures s[k].score <= AsInt(scores[i])
    {
      RootIsMax(s, k);
    }
  }

  // ---- The whole routine ----

  // The first rc entries.
  function FirstPairs(scores: seq<nat>, rc: nat): (s: seq<Pair>)
    requires rc <= |scores|
    ensures |s| == rc && forall k :: 0 <= k < rc ==> s[k] == PairOf(scores, k)
  {
    seq<Pair>(rc, k requires 0 <= k < rc => PairOf(scores, k))
  }

  // Making a heap of them: shift_down of the nodes before n, from the last one on.
  function Heaped(s: seq<Pair>, n: nat): (t: seq<Pair>)
    ensures |t| == |s|
    decreases n
  {
    if n == 0 then s else Heaped(Sift(s, n - 1).0, n - 1)
  }

  ghost predicate HeapsSmoothly(s: seq<Pair>, n: nat)
    decreases n
  {
    n == 0 || (Smooth(s, n - 1) && HeapsSmoothly(Sift(s, n - 1).0, n - 1))
  }

  // Entry i is taken up if it scores less than the root.
  function Taken(s: seq<Pair>, scores: seq<nat>, i: nat): (t: seq<Pair>)
    requires |s| > 0 && i < |scores|
    ensures |t| == |s|
  {
    if AsInt(scores[i]) < s[0].score then Sift(s[0 := PairOf(scores, i)], 0).0 else s
  }

  // The entries from i on.
  function Chosen(s: seq<Pair>, scores: seq<nat>, i: nat): (t: seq<Pair>)
    requires |s| > 0 && i <= |scores|
    ensures |t| == |s|
    decreases |scores| - i
  {
    if i == |scores| then s else Chosen(Taken(s, scores, i), scores, i + 1)
  }

  ghost predicate ChoosesSmoothly(s: seq<Pair>, scores: seq<nat>, i: nat)
    requires |s| > 0 && i <= |scores|
    decreases |scores| - i
  {
    i == |scores|
    || ((AsInt(scores[i]) < s[0].score ==> Smooth(s[0 := PairOf(scores, i)], 0))
        && ChoosesSmoothly(Taken(s, scores, i), scores, i + 1))
  }

  // The pairs reclaim ends with.
  function PickOf(scores: seq<nat>, rc: nat): (t: seq<Pair>)
    requires 0 < rc <= |scores|
    ensures |t| == rc
  {
    Chosen(Heaped(FirstPairs(scores, rc), (rc + 1) / 2 + 1), scores, rc)
  }

  // No shift_down of the whole routine meets a tie.
  ghost predicate NoTieMet(scores: seq<nat>, rc: nat)
    requires 0 < rc <= |scores|
  {
    && HeapsSmoothly(FirstPairs(scores, rc), (rc + 1) / 2 + 1)
    && ChoosesSmoothly(Heaped(FirstPairs(scores, rc), (rc + 1) / 2 + 1), scores, rc)
  }

  lemma {:induction false} HeapedKeeps(s: seq<Pair>, n: nat)
    ensures SameElements(s, Heaped(s, n)) && (DistinctIndices(s) ==> DistinctIndices(Heaped(s, n)))
    ensures HeapFrom(s, n) && HeapsSmoothly(s, n) ==> HeapFrom(Heaped(s, n), 0)
    decreases n
  {
    if n > 0 {
      hide HeapFrom, Smooth, Sift, SameElements, DistinctIndices;
      var t := Sift(s, n - 1).0;
      SiftKeeps(s, n - 1);
      if HeapFrom(s, n) {
        SiftSmooth(s, n - 1);
      }
      HeapedKeeps(t, n - 1);
      SameTwice(s, t, Heaped(t, n - 1));
    } else {
      assert SameElements(s, s);
    }
  }

  lemma SameTwice(s: seq<Pair>, t: seq<Pair>, u: seq<Pair>)
    requires SameElements(s, t) && SameElements(t, u)
    ensures SameElements(s, u)
  {}

  lemma TakenKeeps(s: seq<Pair>, scores: seq<nat>, i: nat)
    requires |s| > 0 && i < |scores| && Entries(s, scores, i) && DistinctIndices(s)
    ensures var t := Taken(s, scores, i);
            && Entries(t, scores, i + 1) && DistinctIndices(t)
            && (HeapFrom(s, 0) && Lowest(s, scores, i)
                && (AsInt(scores[i]) < s[0].score ==> Smooth(s[0 := PairOf(scores, i)], 0)) ==>
                  HeapFrom(t, 0) && Lowest(t, scores, i + 1))
  {
    hide *;
    TakenIs(s, scores, i);
    if AsInt(scores[i]) < s[0].score {
      var t := s[0 := PairOf(scores, i)];
      ReplaceRoot(s, scores, i);
      SiftKeeps(t, 0);
      SameEntries(t, Sift(t, 0).0, scores, i + 1);
      if HeapFrom(s, 0) {
        SiftSmooth(t, 0);
      }
    } else {
      SkipEntry(s, scores, i);
    }
  }

  lemma TakenIs(s: seq<Pair>, scores: seq<nat>, i: nat)
    requires |s| > 0 && i < |scores|
    ensures Taken(s, scores, i) == if AsInt(scores[i]) < s[0].score then Sift(s[0 := PairOf(scores, i)], 0).0 else s
  {}

  lemma {:induction false} ChosenKeeps(s: seq<Pair>, scores: seq<nat>, i: nat)
    requires |s| > 0 && i <= |scores| && Entries(s, scores, i) && DistinctIndices(s)
    ensures var t := Chosen(s, scores, i);
            && Entries(t, scores, |scores|) && DistinctIndices(t)
            && (HeapFrom(s, 0) && Lowest(s, scores, i) && ChoosesSmoothly(s, scores, i) ==> Lowest(t, scores, |scores|))
    decreases |scores| - i
  {
    hide Entries, DistinctIndices, HeapFrom, Lowest, Smooth, Sift, Taken;
    if i < |scores| {
      TakenKeeps(s, scores, i);
      ChosenKeeps(Taken(s, scores, i), scores, i + 1);
    }
  }

  // The pairs are rc different entries, and if no tie is met those of the lowest scores.
  lemma PicksLowest(scores: seq<nat>, rc: nat)
    requires 0 < rc <= |scores|
    ensures var t := PickOf(scores, rc);
            && Entries(t, scores, |scores|) && DistinctIndices(t)
            && (NoTieMet(scores, rc) ==> Lowest(t, scores, |scores|))
  {
    var s, n := FirstPairs(scores, rc), (rc + 1) / 2 + 1;
    FirstLowest(scores, rc);
    HeapedKeeps(s, n);
    SameEntries(s, Heaped(s, n), scores, rc);
    ChosenKeeps(Heaped(s, n), scores, rc);
    hide Entries, DistinctIndices, HeapFrom, Lowest, Chosen, Heaped, FirstPairs, HeapsSmoothly, ChoosesSmoothly;
  }

  lemma FirstLowest(scores: seq<nat>, rc: nat)
    requires 0 < rc <= |scores|
    ensures var s := FirstPairs(scores, rc);
            Entries(s, scores, rc) && DistinctIndices(s) && Lowest(s, scores, rc) && HeapFrom(s, (rc + 1) / 2 + 1)
  {
    var s := FirstPairs(scores, rc);
    forall x: nat | x < rc
      ensures Picked(s, x)
    {
      assert s[x].index == x;
    }
  }

  // Different scores of different entries.
  lemma ScoresDiffer(s: seq<Pair>, scores: seq<nat>, i: nat)
    requires Entries(s, scores, i) && DistinctIndices(s) && AllDistinct(scores)
    ensures DistinctScores(s)
  {
    hide AsInt;
    forall a, b | 0 <= a < b < |s|
      ensures s[a].score != s[b].score
    {
      var x, y := s[a].index, s[b].index;
      assert if x < y then AsInt(scores[x]) != AsInt(scores[y]) else AsInt(scores[y]) != AsInt(scores[x]);
    }
  }

  lemma {:induction false} HeapsDistinct(s: seq<Pair>, scores: seq<nat>, i: nat, n: nat)
    requires Entries(s, scores, i) && DistinctIndices(s) && AllDistinct(scores)
    ensures HeapsSmoothly(s, n)
    decreases n
  {
    hide Entries, DistinctIndices, AllDistinct, DistinctScores, Sift;
    if n > 0 {
      ScoresDiffer(s, scores, i);
      SmoothDistinct(s, n - 1);
      SiftKeeps(s, n - 1);
      SameEntries(s, Sift(s, n - 1).0, scores, i);
      HeapsDistinct(Sift(s, n - 1).0, scores, i, n - 1);
    }
  }

  lemma SmoothDistinct(s: seq<Pair>, i: nat)
    requires DistinctScores(s)
    ensures Smooth(s, i)
  {
    if i < |s| {
      NoTies(s, i, s[i].score);
    }
  }

  lemma {:induction false} ChoosesDistinct(s: seq<Pair>, scores: seq<nat>, i: nat)
    requires |s| > 0 && i <= |scores| && Entries(s, scores, i) && DistinctIndices(s) && AllDistinct(scores)
    ensures ChoosesSmoothly(s, scores, i)
    decreases |scores| - i
  {
    hide Entries, DistinctIndices, AllDistinct, DistinctScores, Sift, Taken, Smooth;
    if i < |scores| {
      var t := s[0 := PairOf(scores, i)];
      ReplaceRoot(s, scores, i);
      ScoresDiffer(t, scores, i + 1);
      SmoothDistinct(t, 0);
      TakenKeeps(s, scores, i);
      ChoosesDistinct(Taken(s, scores, i), scores, i + 1);
    }
  }

  // With different scores no tie is met.
  lemma DistinctSmooth(scores: seq<nat>, rc: nat)
    requires 0 < rc <= |scores| && AllDistinct(scores)
    ensures NoTieMet(scores, rc)
  {
    hide *;
    var s, n: nat := FirstPairs(scores, rc), (rc + 1) / 2 + 1;
    FirstLowest(scores, rc);
    HeapsDistinct(s, scores, rc, n);
    HeapedKeeps(s, n);
    SameEntries(s, Heaped(s, n), scores, rc);
    ChoosesDistinct(Heaped(s, n), scores, rc);
    NoTieIs(scores, rc);
  }

  lemma NoTieIs(scores: seq<nat>, rc: nat)
    requires 0 < rc <= |scores|
    ensures var s, n: nat := FirstPairs(scores, rc), (rc + 1) / 2 + 1;
            NoTieMet(scores, rc) <==> HeapsSmoothly(s, n) && ChoosesSmoothly(Heaped(s, n), scores, rc)
  {}

  // The first loop of UserDict::reclaim and the building of the heap
  method MakeHeap(scores: seq<nat>, rc: nat) returns (sop: array<Pair>)
    requires 0 < rc <= |scores|
    ensures fresh(sop) && sop[..] == Heaped(FirstPairs(scores, rc), (rc + 1) / 2 + 1)
  {
    sop := TakeFirst(scores, rc);
    hide *;
    var j := (rc + 1) / 2;
    while j >= 0
      invariant -1 <= j && Heaped(sop[..], j + 1) == Heaped(FirstPairs(scores, rc), (rc + 1) / 2 + 1)
      decreases j
    {
      HeapedStep(sop[..], j + 1);
      ShiftDown(sop, j);
      j := j - 1;
    }
    HeapedStep(sop[..], 0);
  }

  lemma HeapedStep(s: seq<Pair>, n: nat)
    ensures Heaped(s, n) == if n == 0 then s else Heaped(Sift(s, n - 1).0, n - 1)
  {
    hide Sift;
  }

  method TakeFirst(scores: seq<nat>, rc: nat) returns (sop: array<Pair>)
    requires rc <= |scores|
    ensures fresh(sop) && sop[..] == FirstPairs(scores, rc)
  {
    sop := new Pair[rc];
    for i := 0 to rc
      invariant forall k :: 0 <= k < i ==> sop[k] == PairOf(scores, k)
    {
      sop[i] := Pair(AsInt(scores[i]), i);
    }
  }

  // The selection loop of UserDict::reclaim
  method PickLowest(scores: seq<nat>, rc: nat) returns (sop: array<Pair>)
    requires 0 < rc <= |scores|
    ensures fresh(sop) && sop.Length == rc && sop[..] == PickOf(scores, rc)
    ensures DistinctIndices(sop[..]) && Entries(sop[..], scores, |scores|)
    ensures NoTieMet(scores, rc) ==> Lowest(sop[..], scores, |scores|)
  {
    sop := MakeHeap(scores, rc);
    PicksLowest(scores, rc);
    hide Heaped, Sift, DistinctIndices, Entries, NoTieMet, Lowest;
    for i := rc to |scores|
      invariant sop.Length == rc && Chosen(sop[..], scores, i) == PickOf(scores, rc)
    {
      var s := AsInt(scores[i]);
      ghost var was := sop[..];
      if s < sop[0].score {
        sop[0] := Pair(s, i);
        assert sop[..] == was[0 := PairOf(scores, i)];
        ShiftDown(sop, 0);
      }
      assert sop[..] == Taken(was, scores, i);
    }
  }
}
