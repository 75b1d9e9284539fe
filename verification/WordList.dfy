// The packed list of the system words: all words behind each other, sorted by length and then by their
// characters, with the place and the id where each length starts.

module WordList {
  import opened Limits
  import opened Lex

  // Sorted words of one to MAX_LEMMA_SIZE characters; the first has one.
  ghost predicate OkWords(ws: seq<seq<nat>>) {
    && ws != [] && |ws[0]| == 1 && (forall i :: 0 <= i < |ws| ==> 1 <= |ws[i]| <= MAX_LEMMA_SIZE)
    && forall i, j :: 0 <= i < j < |ws| ==> |ws[i]| <= |ws[j]| && (|ws[i]| == |ws[j]| ==> LexCmp(ws[i], ws[j]) <= 0)
  }

  // Where word k starts.
  function Pos(ws: seq<seq<nat>>, k: nat): (p: nat)
    requires k <= |ws|
  {
    if k == 0 then 0 else Pos(ws, k - 1) + |ws[k - 1]|
  }

  // The first word from k on with at least len characters.
  function FirstFrom(ws: seq<seq<nat>>, k: nat, len: nat): (i: nat)
    requires k <= |ws|
    ensures k <= i <= |ws| && (forall j :: k <= j < i ==> |ws[j]| < len) && (i < |ws| ==> |ws[i]| >= len)
    decreases |ws| - k
  {
    if k < |ws| && |ws[k]| < len then FirstFrom(ws, k + 1, len) else k
  }

  function First(ws: seq<seq<nat>>, len: nat): (i: nat)
    ensures i <= |ws| && (forall j :: 0 <= j < i ==> |ws[j]| < len) && (i < |ws| ==> |ws[i]| >= len)
  {
    FirstFrom(ws, 0, len)
  }

  predicate Present(ws: seq<seq<nat>>, len: nat) { First(ws, len) < |ws| && |ws[First(ws, len)]| == len }

  function Longest(ws: seq<seq<nat>>): nat
    requires ws != []
  {
    |ws[|ws| - 1]|
  }

  // Every length up to the longest has a word.
  ghost predicate Full(ws: seq<seq<nat>>)
    requires ws != []
  {
    forall len :: 1 <= len <= Longest(ws) ==> Present(ws, len)
  }

  // Where the tables let a length start: a length without words has the start of the one before.
  function SlotStart(ws: seq<seq<nat>>, len: nat): (i: nat)
    requires ws != []
    ensures i <= |ws|
  {
    if len > Longest(ws) then |ws| else if len == 0 || Present(ws, len) then First(ws, len) else SlotStart(ws, len - 1)
  }

  // The entries of start_pos_ and start_id_ for a length; behind the longest the last id is not counted.
  function PosEntry(ws: seq<seq<nat>>, len: nat): nat
    requires ws != []
  {
    Pos(ws, SlotStart(ws, len))
  }

  function IdEntry(ws: seq<seq<nat>>, len: nat): nat
    requires ws != []
  {
    if len > Longest(ws) then |ws| else SlotStart(ws, len) + 1
  }

  // The entries up to length n are right.
  ghost predicate Tables(ws: seq<seq<nat>>, pos: seq<nat>, ids: seq<nat>, n: nat) {
    ws != [] && n <= |pos| && n <= |ids| && forall i: nat :: i < n ==>
      pos[i] == PosEntry(ws, i + 1) && ids[i] == IdEntry(ws, i + 1)
  }

  lemma FirstIs(ws: seq<seq<nat>>, len: nat, k: nat)
    requires k <= |ws| && (forall i :: 0 <= i < k ==> |ws[i]| < len) && (k < |ws| ==> |ws[k]| >= len)
    ensures First(ws, len) == k
  {}

  // A word longer than the one before it starts its length; lengths between are missing.
  lemma LengthStarts(ws: seq<seq<nat>>, k: nat, len: nat)
    requires OkWords(ws) && 0 < k < |ws| && |ws[k - 1]| < len <= |ws[k]|
    ensures First(ws, len) == k && (Present(ws, len) <==> len == |ws[k]|) && len <= Longest(ws)
  {
    assert forall i :: 0 <= i < k ==> |ws[i]| <= |ws[k - 1]|;
    FirstIs(ws, len, k);
  }

  lemma FirstWord(ws: seq<seq<nat>>)
    requires OkWords(ws)
    ensures First(ws, 1) == 0 && Present(ws, 1) && PosEntry(ws, 1) == 0 && IdEntry(ws, 1) == 1
    ensures 1 <= Longest(ws) <= MAX_LEMMA_SIZE
  {
    FirstIs(ws, 1, 0);
  }

  lemma LengthsRise(ws: seq<seq<nat>>, i: nat, j: nat)
    requires OkWords(ws) && i <= j < |ws|
    ensures 1 <= |ws[i]| <= |ws[j]| <= Longest(ws) <= MAX_LEMMA_SIZE
  {}

  // In a list with all lengths every length starts at its first word.
  lemma FullStart(ws: seq<seq<nat>>, len: nat)
    requires OkWords(ws) && Full(ws) && len > 0
    ensures SlotStart(ws, len) == First(ws, len)
  {
    if len > Longest(ws) {
      FirstIs(ws, len, |ws|);
    }
  }

  // A word lies behind its length's start, and before that of a greater one.
  lemma FirstSplits(ws: seq<seq<nat>>, len: nat, k: nat)
    requires OkWords(ws) && k < |ws|
    ensures First(ws, len) <= k <==> len <= |ws[k]|
  {}

  // Length len's part of the table takes in word k's id exactly if the word has that length.
  lemma SlotClaims(ws: seq<seq<nat>>, id: nat, len: nat)
    requires OkWords(ws) && Full(ws) && 1 <= id < |ws| && 0 < len
    ensures IdEntry(ws, len) <= id < IdEntry(ws, len + 1) <==> len == |ws[id - 1]|
  {
    FirstSplits(ws, len, id - 1);
    FirstSplits(ws, len + 1, id - 1);
    FullStart(ws, len);
    FullStart(ws, len + 1);
    hide First, Present, SlotStart;
  }

  // Without all lengths, the table takes in a word's id at its own length exactly if there is no greater
  // length or the next one is there.
  lemma SlotLost(ws: seq<seq<nat>>, id: nat)
    requires OkWords(ws) && 1 <= id < |ws|
    ensures var len := |ws[id - 1]|;
            IdEntry(ws, len) <= id < IdEntry(ws, len + 1) <==> len == Longest(ws) || Present(ws, len + 1)
  {
    var len := |ws[id - 1]|;
    FirstSplits(ws, len, id - 1);
    FirstSplits(ws, len + 1, id - 1);
    assert First(ws, len) <= id - 1;
    assert Present(ws, len);
  }

  // Within a length the words have one distance.
  lemma {:induction false} BlockPos(ws: seq<seq<nat>>, len: nat, k: nat)
    requires OkWords(ws) && First(ws, len) <= k <= First(ws, len + 1)
    ensures Pos(ws, k) == Pos(ws, First(ws, len)) + (k - First(ws, len)) * len
  {
    hide OkWords, First;
    if k > First(ws, len) {
      BlockPos(ws, len, k - 1);
      InBlock(ws, len, k - 1);
      NextPos(ws, k - 1);
      assert (k - 1 - First(ws, len)) * len + len == (k - First(ws, len)) * len;
    }
  }

  lemma InBlock(ws: seq<seq<nat>>, len: nat, k: nat)
    requires OkWords(ws) && First(ws, len) <= k < First(ws, len + 1)
    ensures k < |ws| && |ws[k]| == len
  {
    FirstSplits(ws, len, k);
    FirstSplits(ws, len + 1, k);
  }

  lemma {:induction false} PosGrows(ws: seq<seq<nat>>, i: nat, j: nat)
    requires i <= j <= |ws|
    ensures Pos(ws, i) <= Pos(ws, j)
    decreases j
  {
    if i < j {
      PosGrows(ws, i, j - 1);
    }
  }

  // The buffer holds the first n words.
  ghost predicate Holds(buf: seq<nat>, ws: seq<seq<nat>>, n: nat) {
    n <= |ws| && Pos(ws, n) <= |buf| && forall k: nat :: k < n ==> WordAt(buf, ws, k)
  }

  ghost predicate WordAt(buf: seq<nat>, ws: seq<seq<nat>>, k: nat)
    requires k < |ws|
  {
    Pos(ws, k) + |ws[k]| <= |buf| && buf[Pos(ws, k)..Pos(ws, k) + |ws[k]|] == ws[k]
  }

  lemma EntryPositive(ws: seq<seq<nat>>, len: nat)
    requires ws != []
    ensures IdEntry(ws, len) > 0
  {}

  // Where a word is, by the tables.
  lemma WordPlace(ws: seq<seq<nat>>, k: nat)
    requires OkWords(ws) && Full(ws) && k < |ws|
    ensures var len := |ws[k]|;
            && 1 <= len <= Longest(ws) && IdEntry(ws, len) == First(ws, len) + 1 <= k + 1
            && Pos(ws, k) == PosEntry(ws, len) + (k + 1 - IdEntry(ws, len)) * len
  {
    hide *;
    var len := |ws[k]|;
    LengthsRise(ws, k, k);
    FirstSplits(ws, len, k);
    FirstSplits(ws, len + 1, k);
    FullStart(ws, len);
    BlockPos(ws, len, k);
    EntryIs(ws, len);
    assert k + 1 - IdEntry(ws, len) == k - First(ws, len);
  }

  lemma EntryIs(ws: seq<seq<nat>>, len: nat)
    requires ws != [] && len <= Longest(ws)
    ensures PosEntry(ws, len) == Pos(ws, SlotStart(ws, len)) && IdEntry(ws, len) == SlotStart(ws, len) + 1
  {}

  lemma FullWordAt(buf: seq<nat>, ws: seq<seq<nat>>, k: nat)
    requires Holds(buf, ws, |ws|) && k < |ws|
    ensures Pos(ws, k) + |ws[k]| <= |buf| && buf[Pos(ws, k)..Pos(ws, k) + |ws[k]|] == ws[k]
  {
    assert WordAt(buf, ws, k);
  }

  // A key compared with the first characters of word k.
  ghost function Cmp(ws: seq<seq<nat>>, hzs: seq<nat>, k: nat): int
    requires k < |ws|
  {
    if |hzs| <= |ws[k]| then LexCmp(hzs, ws[k][..|hzs|]) else 1
  }

  lemma CmpZero(ws: seq<seq<nat>>, hzs: seq<nat>, k: nat)
    requires k < |ws|
    ensures Cmp(ws, hzs, k) == 0 <==> hzs <= ws[k]
  {}

  lemma {:induction false} HeadLe(a: seq<nat>, b: seq<nat>, h: nat)
    requires |a| == |b| && h <= |a| && LexCmp(a, b) <= 0
    ensures LexCmp(a[..h], b[..h]) <= 0
  {
    if h > 0 && a[0] == b[0] {
      HeadLe(a[1..], b[1..], h - 1);
      assert a[..h][1..] == a[1..][..h - 1] && b[..h][1..] == b[1..][..h - 1];
    }
  }

  // The words of length len are those from f up to e.
  ghost predicate Block(ws: seq<seq<nat>>, len: nat, f: nat, e: nat) {
    && OkWords(ws) && f == First(ws, len) && e == First(ws, len + 1) && f <= e <= |ws|
    && forall k: nat :: k < |ws| ==> (|ws[k]| == len <==> f <= k < e)
  }

  lemma IsBlock(ws: seq<seq<nat>>, len: nat)
    requires OkWords(ws)
    ensures Block(ws, len, First(ws, len), First(ws, len + 1))
  {
    var f, e := First(ws, len), First(ws, len + 1);
    assert f <= e by {
      if e < |ws| {
        FirstSplits(ws, len, e);
      }
    }
    forall k: nat | k < |ws|
      ensures |ws[k]| == len <==> f <= k < e
    {
      FirstSplits(ws, len, k);
      FirstSplits(ws, len + 1, k);
    }
  }

  lemma BlockParts(ws: seq<seq<nat>>, len: nat, f: nat, e: nat)
    requires Block(ws, len, f, e)
    ensures OkWords(ws) && f == First(ws, len) && e == First(ws, len + 1) && f <= e <= |ws|
    ensures forall k: nat :: k < |ws| ==> (|ws[k]| == len <==> f <= k < e)
  {
    hide OkWords, First;
  }

  // Compared with a key, the words of a length rise.
  lemma CmpFalls(ws: seq<seq<nat>>, len: nat, f: nat, e: nat, hzs: seq<nat>, i: nat, j: nat)
    requires Block(ws, len, f, e) && f <= i <= j < e && |hzs| <= len
    ensures Cmp(ws, hzs, i) < 0 ==> Cmp(ws, hzs, j) < 0
    ensures Cmp(ws, hzs, j) > 0 ==> Cmp(ws, hzs, i) > 0
    ensures Cmp(ws, hzs, i) == 0 ==> Cmp(ws, hzs, j) <= 0
  {
    var a, b := ws[i][..|hzs|], ws[j][..|hzs|];
    if i < j {
      HeadLe(ws[i], ws[j], |hzs|);
    } else {
      assert LexCmp(a, b) == 0;
    }
    hide OkWords, First;
    LexOrder(hzs, a, b);
    LexOrder(a, b, hzs);
    LexOrder(hzs, b, b);
  }

  // The next word is copied behind those held.
  lemma OneMoreHeld(old0: seq<nat>, buf: seq<nat>, ws: seq<seq<nat>>, i: nat)
    requires i < |ws| && |buf| == |old0| && Pos(ws, i) + |ws[i]| <= |buf| && Holds(old0, ws, i)
    requires buf[..Pos(ws, i)] == old0[..Pos(ws, i)] && buf[Pos(ws, i)..Pos(ws, i) + |ws[i]|] == ws[i]
    ensures Holds(buf, ws, i + 1)
  {
    hide Pos;
    NextPos(ws, i);
    forall k: nat | k < i + 1
      ensures WordAt(buf, ws, k)
    {
      NextPos(ws, k);
      if k < i {
        assert WordAt(old0, ws, k);
        PosGrows(ws, k + 1, i);
        assert buf[Pos(ws, k)..Pos(ws, k + 1)] == buf[..Pos(ws, i)][Pos(ws, k)..Pos(ws, k + 1)];
        assert old0[Pos(ws, k)..Pos(ws, k + 1)] == old0[..Pos(ws, i)][Pos(ws, k)..Pos(ws, k + 1)];
      }
    }
  }

  lemma MulDiv(n: nat, len: nat)
    requires len > 0
    ensures (n * len) / len == n
  {
    var q, r := n * len / len, n * len % len;
    assert q * len + r == n * len;
    assert (n - q) * len == r;
    if q < n {
      LargerProduct(n - q, len);
    }
  }

  lemma LargerProduct(d: nat, len: nat)
    requires d > 0
    ensures d * len >= len
  {}

  // What the buffer holds at the place of a word in its length's block.
  lemma PlaceOf(ws: seq<seq<nat>>, buf: seq<nat>, len: nat, f: nat, e: nat, k: nat)
    requires Block(ws, len, f, e) && Holds(buf, ws, |ws|) && f <= k < e
    ensures e <= |ws| && |ws[k]| == len
    ensures f <= |ws| && Pos(ws, k) == Pos(ws, f) + (k - f) * len
    ensures Pos(ws, k) + len <= |buf| && buf[Pos(ws, k)..Pos(ws, k) + len] == ws[k]
  {
    hide *;
    BlockParts(ws, len, f, e);
    BlockPos(ws, len, k);
    FullWordAt(buf, ws, k);
  }

  lemma AllShort(ws: seq<seq<nat>>, str: seq<nat>)
    requires OkWords(ws)
    ensures |str| > MAX_LEMMA_SIZE || str == [] ==> str !in ws
  {}

  lemma PosIs(ws: seq<seq<nat>>, len: nat)
    requires ws != []
    ensures PosEntry(ws, len) == Pos(ws, SlotStart(ws, len))
  {}

  lemma WordsLong(ws: seq<seq<nat>>, k: nat)
    requires OkWords(ws)
    ensures ws != [] && (k < |ws| ==> |ws[k]| <= Longest(ws))
  {}

  lemma SameWhole(ws: seq<seq<nat>>, str: seq<nat>)
    ensures forall k: nat :: k < |ws| && |ws[k]| == |str| ==> (str <= ws[k] <==> str == ws[k])
    ensures forall k: nat :: k < |ws| && str == ws[k] ==> |ws[k]| == |str|
  {}

  // Only the first word lies at the start; looking for it leads there, and for no other one.
  lemma AtStart(ws: seq<seq<nat>>, str: seq<nat>, k: nat)
    requires OkWords(ws) && k < |ws| && ws[k] == str && forall i: nat :: i < k && |ws[i]| == |str| ==> ws[i] != str
    ensures Pos(ws, k) == 0 <==> str == ws[0]
  {
    if k > 0 {
      assert Pos(ws, k) == Pos(ws, k - 1) + |ws[k - 1]| && |ws[k - 1]| >= 1;
    }
  }

  // ---- Predicting ----

  // What may follow a history, and how likely.
  datatype NPre = NPre(psb: nat, pre: seq<nat>, hisLen: nat)

  // What follows the history in those of the first n words that go on from it.
  function Matches(ws: seq<seq<nat>>, hzs: seq<nat>, psb: nat -> nat, n: nat): seq<NPre>
    requires n <= |ws|
  {
    if n == 0 then []
      else Matches(ws, hzs, psb, n - 1) + if hzs < ws[n - 1] then [NPre(psb(n), ws[n - 1][|hzs|..], |hzs|)] else []
  }

  function Upto<T>(max: nat, s: seq<T>): (r: seq<T>)
    ensures |r| == if |s| <= max then |s| else max
  {
    if |s| <= max then s else s[..max]
  }

  predicate Known(prior: seq<NPre>, pre: seq<nat>) { exists i :: 0 <= i < |prior| && prior[i].pre == pre }

  // The items whose text is not known yet.
  function Unknown(prior: seq<NPre>, s: seq<NPre>): (r: seq<NPre>)
    ensures |r| <= |s|
  {
    if s == [] then []
    else Unknown(prior, s[..|s| - 1]) + if Known(prior, s[|s| - 1].pre) then [] else [s[|s| - 1]]
  }

  lemma {:induction false} MatchesGap(ws: seq<seq<nat>>, hzs: seq<nat>, psb: nat -> nat, a: nat, b: nat)
    requires a <= b <= |ws| && forall k: nat :: a <= k < b ==> !(hzs < ws[k])
    ensures Matches(ws, hzs, psb, b) == Matches(ws, hzs, psb, a)
    decreases b
  {
    if a < b {
      MatchesGap(ws, hzs, psb, a, b - 1);
    }
  }

  lemma MatchesStep(ws: seq<seq<nat>>, hzs: seq<nat>, psb: nat -> nat, k: nat)
    requires k < |ws|
    ensures Matches(ws, hzs, psb, k) <= Matches(ws, hzs, psb, k + 1)
  {}

  lemma UptoMore(max: nat, s: seq<NPre>, t: seq<NPre>)
    requires s <= t && |Upto(max, s)| == max
    ensures Upto(max, t) == Upto(max, s)
  {}

  lemma {:induction false} MatchesGrow(ws: seq<seq<nat>>, hzs: seq<nat>, psb: nat -> nat, a: nat, b: nat, max: nat)
    requires a <= b <= |ws| && |Upto(max, Matches(ws, hzs, psb, a))| == max
    ensures Upto(max, Matches(ws, hzs, psb, b)) == Upto(max, Matches(ws, hzs, psb, a))
    decreases b
  {
    if a < b {
      MatchesGrow(ws, hzs, psb, a, b - 1, max);
      MatchesStep(ws, hzs, psb, b - 1);
      hide Matches;
      UptoMore(max, Matches(ws, hzs, psb, b - 1), Matches(ws, hzs, psb, b));
    }
  }

  // Word k does not begin with the key, and the one before it does, or none of the words.
  ghost predicate LastMatch(ws: seq<seq<nat>>, hzs: seq<nat>, f: nat, e: nat, k: nat) {
    && f <= k < e <= |ws| && Cmp(ws, hzs, k) != 0
    && if k == f then forall i: nat :: f <= i < e ==> Cmp(ws, hzs, i) != 0 else Cmp(ws, hzs, k - 1) == 0
  }

  lemma LastMatchIs(ws: seq<seq<nat>>, hzs: seq<nat>, f: nat, e: nat, k: nat)
    requires f <= k < e <= |ws|
    ensures LastMatch(ws, hzs, f, e, k) <==>
              && Cmp(ws, hzs, k) != 0
              && if k == f then forall i: nat :: f <= i < e ==> Cmp(ws, hzs, i) != 0 else Cmp(ws, hzs, k - 1) == 0
  {}

  // The matches of a length taken in: at most max in all, or up to word k, behind which none follows.
  lemma MatchesDone(ws: seq<seq<nat>>, hzs: seq<nat>, psb: nat -> nat, len: nat, f: nat, e: nat, k: nat, max: nat)
    requires Block(ws, len, f, e) && f <= k <= e && |hzs| < len
    requires |Upto(max, Matches(ws, hzs, psb, k))| == max || k == e || LastMatch(ws, hzs, f, e, k)
    ensures e <= |ws| && Upto(max, Matches(ws, hzs, psb, e)) == Upto(max, Matches(ws, hzs, psb, k))
  {
    hide *;
    BlockParts(ws, len, f, e);
    CmpZeros(ws, hzs);
    if |Upto(max, Matches(ws, hzs, psb, k))| == max {
      MatchesGrow(ws, hzs, psb, k, e, max);
    } else if k < e {
      LastMatchIs(ws, hzs, f, e, k);
      forall i: nat | k <= i < e
        ensures Cmp(ws, hzs, i) != 0
      {
        if k > f {
          CmpFalls(ws, len, f, e, hzs, k - 1, k);
          CmpFalls(ws, len, f, e, hzs, k, i);
        }
      }
      MatchesGap(ws, hzs, psb, k, e);
    }
  }

  lemma CmpZeros(ws: seq<seq<nat>>, hzs: seq<nat>)
    ensures forall k: nat :: k < |ws| ==> (Cmp(ws, hzs, k) == 0 <==> hzs <= ws[k])
  {}

  lemma TakeOne(ws: seq<seq<nat>>, hzs: seq<nat>, psb: nat -> nat, k: nat, max: nat)
    requires k < |ws| && hzs < ws[k] && |Upto(max, Matches(ws, hzs, psb, k))| < max
    ensures Upto(max, Matches(ws, hzs, psb, k + 1)) ==
              Upto(max, Matches(ws, hzs, psb, k)) + [NPre(psb(k + 1), ws[k][|hzs|..], |hzs|)]
  {}

  // Words no longer than the history do not go on from it.
  lemma ShortOnes(ws: seq<seq<nat>>, hzs: seq<nat>, psb: nat -> nat)
    requires OkWords(ws)
    ensures First(ws, |hzs| + 1) <= |ws| && Matches(ws, hzs, psb, First(ws, |hzs| + 1)) == []
  {
    MatchesGap(ws, hzs, psb, 0, First(ws, |hzs| + 1));
  }

  lemma AllTaken(ws: seq<seq<nat>>)
    requires OkWords(ws)
    ensures First(ws, MAX_LEMMA_SIZE + 1) == |ws|
  {
    FirstIs(ws, MAX_LEMMA_SIZE + 1, |ws|);
  }

  lemma UptoNone(max: nat)
    ensures Upto<NPre>(max, []) == []
  {}

  lemma UnknownNone(prior: seq<NPre>)
    ensures Unknown(prior, []) == []
  {}

  lemma UnknownMore(prior: seq<NPre>, s: seq<NPre>, i: nat)
    requires i < |s|
    ensures Unknown(prior, s[..i + 1]) == Unknown(prior, s[..i]) + if Known(prior, s[i].pre) then [] else [s[i]]
  {
    assert s[..i + 1][..i] == s[..i];
  }

  class WordList {
    const startPos: array<nat>
    const startId: array<nat>
    var buf: array<nat>
    ghost var words: seq<seq<nat>>

    // A list with all lengths in the buffer, and its tables.
    ghost predicate Valid()
      reads this, startPos, startId, buf
    {
      && OkWords(words) && Full(words) && startPos.Length == startId.Length == MAX_LEMMA_SIZE + 1
      && Tables(words, startPos[..], startId[..], MAX_LEMMA_SIZE + 1) && Holds(buf[..], words, |words|)
    }

    // init_list, without the single characters
    constructor (ws: seq<seq<nat>>)
      requires OkWords(ws) && Full(ws)
      ensures Valid() && words == ws
    {
      startPos, startId, words := new nat[MAX_LEMMA_SIZE + 1](_ => 0), new nat[MAX_LEMMA_SIZE + 1](_ => 0), ws;
      buf := new nat[0];
      new;
      var size := CalculateSize(ws);
      buf := new nat[size](_ => 0);
      FillList(ws);
    }

    // fill_list
    method FillList(ws: seq<seq<nat>>)
      requires OkWords(ws) && Pos(ws, |ws|) == buf.Length
      modifies buf
      ensures Holds(buf[..], ws, |ws|)
    {
      hide OkWords;
      var pos := 0;
      for i := 0 to |ws|
        invariant pos == Pos(ws, i) && Holds(buf[..], ws, i)
      {
        PosGrows(ws, i + 1, |ws|);
        NextPos(ws, i);
        Copy(pos, ws[i], i, ws);
        pos := pos + |ws[i]|;
      }
    }

    method Copy(pos: nat, w: seq<nat>, ghost i: nat, ghost ws: seq<seq<nat>>)
      requires i < |ws| && ws[i] == w && pos == Pos(ws, i) && pos + |w| <= buf.Length && Holds(buf[..], ws, i)
      modifies buf
      ensures Holds(buf[..], ws, i + 1)
    {
      hide *;
      ghost var old0 := buf[..];
      for k := 0 to |w|
        invariant buf[..pos] == old0[..pos] && buf[pos..pos + k] == w[..k]
      {
        buf[pos + k] := w[k];
      }
      assert buf[..][..pos] == buf[..pos] && buf[..][pos..pos + |w|] == buf[pos..pos + |w|] == w;
      OneMoreHeld(old0, buf[..], ws, i);
    }

    lemma ValidFacts()
      requires Valid()
      ensures OkWords(words) && Full(words) && startPos.Length == startId.Length == MAX_LEMMA_SIZE + 1
      ensures Holds(buf[..], words, |words|) && Pos(words, |words|) <= buf.Length
      ensures forall i: nat :: i < MAX_LEMMA_SIZE + 1 ==>
                startPos[i] == PosEntry(words, i + 1) && startId[i] == IdEntry(words, i + 1)
    {
      hide OkWords, Full, PosEntry, IdEntry, WordAt;
    }

    // get_lemma_str: the word of an id, but for the last word, and if the buffer has room for it.
    method GetLemmaStr(id: nat, str: array<nat>, strMax: nat) returns (len: nat)
      requires Valid() && strMax <= str.Length && str != buf && str != startPos && str != startId
      modifies str
      ensures Valid() && len == if 1 <= id < |words| && |words[id - 1]| < strMax then |words[id - 1]| else 0
      ensures len > 0 ==> str[..len] == words[id - 1] && str[len] == 0
    {
      ValidFacts();
      FirstWord(words);
      BehindEntry(words, MAX_LEMMA_SIZE + 1);
      hide OkWords, Full, PosEntry, IdEntry, First, Pos, Tables, Holds;
      len := 0;
      if id >= startId[MAX_LEMMA_SIZE] || strMax <= 1 {
        return;
      }
      if id >= 1 {
        LengthsRise(words, id - 1, id - 1);
      }
      for i: nat := 0 to MAX_LEMMA_SIZE
        invariant id >= 1 ==> |words[id - 1]| > i
      {
        if i + 1 > strMax - 1 {
          return;
        }
        EntryPositive(words, i + 1);
        if id >= 1 {
          SlotClaims(words, id, i + 1);
        }
        if startId[i] <= id && startId[i + 1] > id {
          TakeWord(id, i, str);
          len := i + 1;
          return;
        }
      }
    }

    // Word id, of length i + 1.
    method TakeWord(id: nat, i: nat, str: array<nat>)
      requires Valid() && i < startPos.Length && i < startId.Length && startId[i] <= id
      requires 1 <= id < |words| && |words[id - 1]| == i + 1 < str.Length && str != buf
      modifies str
      ensures str[..i + 1] == words[id - 1] && str[i + 1] == 0
    {
      hide *;
      ValidFacts();
      EntryAt(i);
      WordPlace(words, id - 1);
      FullWordAt(buf[..], words, id - 1);
      var at := startPos[i] + (id - startId[i]) * (i + 1);
      CopyOut(str, at, i + 1, words[id - 1]);
    }

    lemma EntryAt(i: nat)
      requires Valid() && i < startPos.Length && i < startId.Length
      ensures startPos[i] == PosEntry(words, i + 1) && startId[i] == IdEntry(words, i + 1)
    {
      ValidFacts();
      hide OkWords, Full, PosEntry, IdEntry, Tables, Holds;
    }

    method CopyOut(str: array<nat>, at: nat, len: nat, ghost w: seq<nat>)
      requires len < str.Length && str != buf && at + len <= buf.Length && |w| == len && buf[..][at..at + len] == w
      modifies str
      ensures str[..len] == w && str[len] == 0
    {
      for k := 0 to len
        invariant str[..k] == w[..k]
      {
        assert buf[at + k] == buf[..][at..at + len][k];
        str[k] := buf[at + k];
      }
      str[len] := 0;
    }

    // utf16_strncmp of a key and a word in the buffer.
    method CmpAt(hzs: seq<nat>, at: nat, len: nat, ghost k: nat) returns (c: int)
      requires at + len <= buf.Length && |hzs| <= len && k < |words| && buf[..][at..at + len] == words[k]
      ensures c == Cmp(words, hzs, k)
    {
      var i := 0;
      ghost var w := words[k][..|hzs|];
      assert forall q: nat :: q < |hzs| ==> w[q] == buf[..][at..at + len][q] == buf[at + q];
      while i < |hzs| && hzs[i] == buf[at + i]
        invariant i <= |hzs| && hzs[..i] == w[..i]
      {
        i := i + 1;
      }
      if i == |hzs| {
        assert hzs == w;
        return 0;
      }
      LexPrefix(hzs, w, i);
      c := if hzs[i] > buf[at + i] then 1 else -1;
    }

    // Where a length's words are, and how many.
    method BlockOf(len: nat) returns (base: nat, cnt: nat, ghost f: nat)
      requires Valid() && 1 <= len <= MAX_LEMMA_SIZE
      ensures Block(words, len, f, f + cnt) && base == Pos(words, f) && startPos.Length > len
      ensures startPos[len - 1] == base
    {
      hide *;
      ValidFacts();
      var i: nat := len;
      SizeIs();
      EntryAt(len - 1);
      EntryAt(i);
      f := First(words, len);
      ghost var e := First(words, len + 1);
      WordsLong(words, 0);
      IsBlock(words, len);
      BlockParts(words, len, f, e);
      FullStart(words, len);
      FullStart(words, len + 1);
      PosIs(words, len);
      PosIs(words, len + 1);
      BlockPos(words, len, e);
      base := startPos[len - 1];
      MulDiv(e - f, len);
      assert startPos[i] - startPos[len - 1] == (e - f) * len;
      cnt := (startPos[i] - startPos[len - 1]) / len;
    }

    lemma SizeIs()
      requires Valid()
      ensures startPos.Length == startId.Length == MAX_LEMMA_SIZE + 1 == 9
    {}

    // bsearch over the words of a length by their first characters.
    method BSearch(hzs: seq<nat>, len: nat, base: nat, cnt: nat, ghost f: nat) returns (j: int)
      requires Valid() && Block(words, len, f, f + cnt) && base == Pos(words, f) && |hzs| <= len
      ensures -1 <= j < cnt && f + cnt <= |words|
      ensures if j >= 0 then Cmp(words, hzs, f + j) == 0 else forall k: nat :: f <= k < f + cnt ==>
                Cmp(words, hzs, k) != 0
    {
      hide *;
      ValidFacts();
      BlockParts(words, len, f, f + cnt);
      var lo: nat, hi: nat := 0, cnt;
      while lo < hi
        invariant lo <= hi <= cnt
        invariant forall k: nat :: f <= k < f + lo ==> Cmp(words, hzs, k) > 0
        invariant forall k: nat :: f + hi <= k < f + cnt ==> Cmp(words, hzs, k) < 0
      {
        var mid: nat := (lo + hi) / 2;
        PlaceOf(words, buf[..], len, f, f + cnt, f + mid);
        assert f + mid - f == mid;
        var c := CmpAt(hzs, base + mid * len, len, f + mid);
        if c == 0 {
          return mid;
        }
        if c < 0 {
          forall k: nat | f + mid <= k < f + cnt
            ensures Cmp(words, hzs, k) < 0
          {
            CmpFalls(words, len, f, f + cnt, hzs, f + mid, k);
          }
          hi := mid;
        } else {
          forall k: nat | f <= k < f + mid + 1
            ensures Cmp(words, hzs, k) > 0
          {
            CmpFalls(words, len, f, f + cnt, hzs, k, f + mid);
          }
          lo := mid + 1;
        }
      }
      j := -1;
    }

    // find_pos_startedbyhzs: the first word of a length that begins with the characters.
    method FindPosStartedByHzs(hzs: seq<nat>, len: nat) returns (j: int, base: nat, cnt: nat, ghost f: nat)
      requires Valid() && |hzs| <= len && 1 <= len <= MAX_LEMMA_SIZE
      ensures Block(words, len, f, f + cnt) && base == Pos(words, f) && startPos.Length > len
      ensures startPos[len - 1] == base
      ensures -1 <= j < cnt && f + cnt <= |words| && (j >= 0 ==> hzs <= words[f + j])
      ensures forall k: nat :: f <= k < (if j < 0 then f + cnt else f + j) ==> !(hzs <= words[k])
    {
      hide *;
      base, cnt, f := BlockOf(len);
      j := BSearch(hzs, len, base, cnt, f);
      if j >= 0 {
        ValidFacts();
        while j > 0
          invariant 0 <= j < cnt && Cmp(words, hzs, f + j) == 0
          decreases j
        {
          var same := SameHead(hzs, len, base, cnt, j, f);
          if !same {
            break;
          }
          j := j - 1;
        }
        forall k: nat | f <= k < f + j
          ensures Cmp(words, hzs, k) != 0
        {
          CmpFalls(words, len, f, f + cnt, hzs, k, f + j - 1);
          CmpFalls(words, len, f, f + cnt, hzs, f + j - 1, f + j);
        }
      }
      AllZero(hzs);
    }

    lemma AllZero(hzs: seq<nat>)
      ensures forall k: nat :: k < |words| ==> (Cmp(words, hzs, k) == 0 <==> hzs <= words[k])
    {}

    // Whether word j has the head that the word before it has.
    method SameHead(hzs: seq<nat>, len: nat, base: nat, cnt: nat, j: nat, ghost f: nat) returns (same: bool)
      requires Valid() && Block(words, len, f, f + cnt) && base == Pos(words, f) && |hzs| <= len && 0 < j < cnt
      requires f + cnt <= |words| && Cmp(words, hzs, f + j) == 0
      ensures same == (Cmp(words, hzs, f + j - 1) == 0)
    {
      hide *;
      ValidFacts();
      PlaceOf(words, buf[..], len, f, f + cnt, f + j);
      PlaceOf(words, buf[..], len, f, f + cnt, f + (j - 1));
      AllZero(hzs);
      var at: nat := base + j * len;
      assert buf[at..at + |hzs|] == buf[..][at..at + len][..|hzs|] == hzs;
      var c := CmpAt(buf[at..at + |hzs|], base + (j - 1) * len, len, f + (j - 1));
      same := c == 0;
    }

    // get_lemma_id, and whether the place found passes the program's own check: it must lie behind the start
    // of the buffer.
    method GetLemmaId(str: seq<nat>) returns (id: nat, passed: bool)
      requires Valid() && str != []
      ensures passed <==> str != words[0]
      ensures |str| > MAX_LEMMA_SIZE ==> id == 0
      ensures id == 0 <==> str !in words
      ensures id > 0 ==> id <= |words| && words[id - 1] == str && forall k: nat :: k < id - 1 ==> words[k] != str
    {
      hide *;
      ValidFacts();
      SizeIs();
      id, passed := 0, true;
      AllShort(words, str);
      WordsLong(words, 0);
      var max: nat := MAX_LEMMA_SIZE;
      if |str| > MAX_LEMMA_SIZE {
        return;
      }
      var j, base, cnt;
      ghost var f;
      j, base, cnt, f := FindPosStartedByHzs(str, |str|);
      BlockParts(words, |str|, f, f + cnt);
      SameWhole(words, str);
      if j < 0 {
        return;
      }
      EntryAt(|str| - 1);
      WordsLong(words, f);
      EntryIs(words, |str|);
      FullStart(words, |str|);
      var at: nat := base + j * |str|;
      MulDiv(j, |str|);
      PlaceOf(words, buf[..], |str|, f, f + cnt, f + j);
      assert f + j - f == j;
      AtStart(words, str, f + j);
      passed := at > 0;
      id := startId[|str| - 1] + (at - startPos[|str| - 1]) / |str|;
    }

    // The words of one length that go on from the history are added, as far as there is room.
    method PredictLen(hzs: seq<nat>, len: nat, items: array<NPre>, from: nat, max: nat, psb: nat -> nat, num0: nat)
      returns (num: nat)
      requires Valid() && |hzs| < len <= MAX_LEMMA_SIZE && from + max <= items.Length && num0 <= max
      requires First(words, len) <= |words|
      requires items[from..from + num0] == Upto(max, Matches(words, hzs, psb, First(words, len)))
      modifies items
      ensures num <= max && items[..from] == old(items[..from]) && First(words, len + 1) <= |words|
      ensures items[from..from + num] == Upto(max, Matches(words, hzs, psb, First(words, len + 1)))
    {
      hide *;
      ValidFacts();
      num := num0;
      var j, base, cnt;
      ghost var f;
      j, base, cnt, f := FindPosStartedByHzs(hzs, len);
      BlockParts(words, len, f, f + cnt);
      CmpZeros(words, hzs);
      if j < 0 {
        if cnt > 0 {
          LastMatchIs(words, hzs, f, f + cnt, f);
        }
        MatchesDone(words, hzs, psb, len, f, f + cnt, f, max);
        return;
      }
      MatchesGap(words, hzs, psb, f, f + j);
      WordsLong(words, f + j);
      EntryAt(len - 1);
      EntryIs(words, len);
      FullStart(words, len);
      var i: nat := j;
      while i < cnt && num < max
        invariant j <= i <= cnt && num <= max && items[..from] == old(items[..from])
        invariant items[from..from + num] == Upto(max, Matches(words, hzs, psb, f + i))
        invariant i > j ==> hzs <= words[f + i - 1]
        invariant i == j && i < cnt ==> hzs <= words[f + i]
      {
        var more := TakeItem(hzs, len, items, from, max, psb, num, base, cnt, i, f);
        if !more {
          break;
        }
        num := num + 1;
        i := i + 1;
      }
      if i < cnt {
        LastMatchIs(words, hzs, f, f + cnt, f + i);
      }
      MatchesDone(words, hzs, psb, len, f, f + cnt, f + i, max);
    }

    // Word i of the length is added, if it goes on from the history.
    method TakeItem(hzs: seq<nat>, len: nat, items: array<NPre>, from: nat, max: nat, psb: nat -> nat, num: nat,
                    base: nat, cnt: nat, i: nat, ghost f: nat)
      returns (more: bool)
      requires Valid() && |hzs| < len <= MAX_LEMMA_SIZE && num < max && from + max <= items.Length
      requires Block(words, len, f, f + cnt) && i < cnt && base == Pos(words, f) && f + cnt <= |words|
      requires startPos.Length > len && startId.Length > len && startPos[len - 1] == base && startId[len - 1] == f + 1
      requires items[from..from + num] == Upto(max, Matches(words, hzs, psb, f + i))
      modifies items
      ensures more == (Cmp(words, hzs, f + i) == 0) && items[..from] == old(items[..from])
      ensures !more ==> items[..] == old(items[..])
      ensures more ==> items[from..from + num + 1] == Upto(max, Matches(words, hzs, psb, f + i + 1))
    {
      hide *;
      ValidFacts();
      PlaceOf(words, buf[..], len, f, f + cnt, f + i);
      assert f + i - f == i;
      var at: nat := base + i * len;
      var c := CmpAt(hzs, at, len, f + i);
      more := c == 0;
      if more {
        CmpZeros(words, hzs);
        MulDiv(i, len);
        TakeOne(words, hzs, psb, f + i, max);
        var w := buf[at + |hzs|..at + len];
        assert w == buf[..][at..at + len][|hzs|..];
        PutItem(items, from, num, NPre(psb((at - startPos[len - 1]) / len + startId[len - 1]), w, |hzs|));
      }
    }

    method PutItem(items: array<NPre>, from: nat, num: nat, x: NPre)
      requires from + num < items.Length
      modifies items
      ensures items[..from] == old(items[..from]) && items[from..from + num + 1] == old(items[from..from + num]) + [x]
    {
      items[from + num] := x;
    }

    // predict
    method Predict(hzs: seq<nat>, items: array<NPre>, from: nat, max: nat, b4Used: nat, psb: nat -> nat)
      returns (num: nat)
      requires Valid() && 1 <= |hzs| <= MAX_LEMMA_SIZE - 1 && b4Used <= from && from + max <= items.Length
      modifies items
      ensures num <= max && items[..from] == old(items[..from])
      ensures items[from..from + num] ==
                Unknown(old(items[from - b4Used..from]), Upto(max, Matches(words, hzs, psb, |words|)))
    {
      hide *;
      ValidFacts();
      ShortOnes(words, hzs, psb);
      UptoNone(max);
      num := 0;
      SizeIs();
      var preLen: nat := 1;
      while preLen <= MAX_LEMMA_SIZE - |hzs|
        invariant 1 <= preLen <= MAX_LEMMA_SIZE - |hzs| + 1 && First(words, |hzs| + preLen) <= |words|
        invariant num <= max && items[..from] == old(items[..from])
        invariant items[from..from + num] == Upto(max, Matches(words, hzs, psb, First(words, |hzs| + preLen)))
      {
        num := PredictLen(hzs, |hzs| + preLen, items, from, max, psb, num);
        preLen := preLen + 1;
      }
      AllTaken(words);
      num := DropKnown(items, from, num, b4Used);
    }

    // Whether one of the items used before has the text.
    method IsKnown(items: array<NPre>, from: nat, at: nat, b4Used: nat) returns (known: bool)
      requires b4Used <= from <= at < items.Length
      ensures known == Known(items[from - b4Used..from], items[at].pre)
    {
      var e := 1;
      while e <= b4Used && items[from - e].pre != items[at].pre
        invariant 1 <= e <= b4Used + 1 && forall q: nat :: from - e < q < from ==> items[q].pre != items[at].pre
      {
        e := e + 1;
      }
      ghost var prior := items[from - b4Used..from];
      known := e <= b4Used;
      if known {
        var k: nat := b4Used - e;
        assert prior[k] == items[from - b4Used + k];
      }
    }

    // Items whose text an earlier item has are taken out.
    method DropKnown(items: array<NPre>, from: nat, itemNum: nat, b4Used: nat) returns (num: nat)
      requires b4Used <= from && from + itemNum <= items.Length
      modifies items
      ensures num <= itemNum && items[..from] == old(items[..from])
      ensures items[from..from + num] == Unknown(old(items[from - b4Used..from]), old(items[from..from + itemNum]))
    {
      hide *;
      num := 0;
      UnknownNone(items[from - b4Used..from]);
      ghost var prior, s := items[from - b4Used..from], items[from..from + itemNum];
      for i: nat := 0 to itemNum
        invariant num <= i && items[..from] == old(items[..from])
        invariant items[from..from + num] == Unknown(prior, s[..i]) && items[from + i..from + itemNum] == s[i..]
      {
        var known := IsKnown(items, from, from + i, b4Used);
        assert items[from + i] == items[from + i..from + itemNum][0] == s[i];
        UnknownMore(prior, s, i);
        assert items[from + i + 1..from + itemNum] == items[from + i..from + itemNum][1..] == s[i + 1..];
        assert items[..from][from - b4Used..from] == prior == items[from - b4Used..from];
        if known {
          continue;
        }
        MoveItem(items, from, num, i, itemNum);
        num := num + 1;
      }
      assert s[..itemNum] == s;
    }

    method MoveItem(items: array<NPre>, from: nat, to: nat, i: nat, itemNum: nat)
      requires to <= i < itemNum && from + itemNum <= items.Length
      modifies items
      ensures items[..from] == old(items[..from])
      ensures items[from..from + to + 1] == old(items[from..from + to]) + [old(items[from + i])]
      ensures items[from + i + 1..from + itemNum] == old(items[from + i + 1..from + itemNum])
    {
      items[from + to] := items[from + i];
    }

    // calculate_size
    method CalculateSize(ws: seq<seq<nat>>) returns (size: nat)
      requires OkWords(ws) && startPos.Length == startId.Length == MAX_LEMMA_SIZE + 1 && startPos != startId
      modifies startPos, startId
      ensures size == Pos(ws, |ws|) && Tables(ws, startPos[..], startId[..], MAX_LEMMA_SIZE + 1)
    {
      hide OkWords, Pos, SlotStart, Present, First;
      FirstWord(ws);
      var lastLen, listSize, idNum := 0, 0, 0;
      for i := 0 to |ws|
        invariant idNum == i && listSize == Pos(ws, i) && (i == 0 ==> lastLen == 0)
        invariant (i > 0 ==> lastLen == |ws[i - 1]|)
        invariant lastLen <= MAX_LEMMA_SIZE && Tables(ws, startPos[..], startId[..], lastLen)
      {
        if i == 0 {
          FirstLength(ws);
          lastLen := |ws[i]|;
          idNum := idNum + 1;
          startPos[0] := 0;
          startId[0] := idNum;
          lastLen := 1;
          listSize := listSize + lastLen;
        } else {
          var len := |ws[i]|;
          LengthsRise(ws, i - 1, i);
          NextPos(ws, i);
          if len == lastLen {
            listSize := listSize + len;
            idNum := idNum + 1;
          } else {
            for l := lastLen to len - 1
              invariant Tables(ws, startPos[..], startId[..], l)
            {
              LengthStarts(ws, i, l + 1);
              MissingEntry(ws, l + 1);
              startPos[l] := startPos[l - 1];
              startId[l] := startId[l - 1];
            }
            LengthStarts(ws, i, len);
            PresentEntry(ws, len);
            startPos[len - 1] := listSize;
            idNum := idNum + 1;
            startId[len - 1] := idNum;
            lastLen := len;
            listSize := listSize + len;
          }
        }
      }
      for i := lastLen to MAX_LEMMA_SIZE + 1
        invariant Tables(ws, startPos[..], startId[..], i)
      {
        BehindEntry(ws, i + 1);
        startPos[i] := listSize;
        startId[i] := idNum;
      }
      size := startPos[MAX_LEMMA_SIZE];
      BehindEntry(ws, MAX_LEMMA_SIZE + 1);
    }
  }

  lemma FirstLength(ws: seq<seq<nat>>)
    requires OkWords(ws)
    ensures |ws[0]| == 1 && Pos(ws, 0) == 0 && Pos(ws, 1) == 1
  {}

  lemma NextPos(ws: seq<seq<nat>>, k: nat)
    requires k < |ws|
    ensures Pos(ws, k + 1) == Pos(ws, k) + |ws[k]|
  {}

  lemma MissingEntry(ws: seq<seq<nat>>, len: nat)
    requires ws != [] && 1 < len <= Longest(ws) && !Present(ws, len)
    ensures PosEntry(ws, len) == PosEntry(ws, len - 1) && IdEntry(ws, len) == IdEntry(ws, len - 1)
  {}

  lemma PresentEntry(ws: seq<seq<nat>>, len: nat)
    requires ws != [] && 1 <= len <= Longest(ws) && Present(ws, len)
    ensures PosEntry(ws, len) == Pos(ws, First(ws, len)) && IdEntry(ws, len) == First(ws, len) + 1
  {}

  lemma BehindEntry(ws: seq<seq<nat>>, len: nat)
    requires ws != [] && len > Longest(ws)
    ensures PosEntry(ws, len) == Pos(ws, |ws|) && IdEntry(ws, len) == |ws|
  {}
}
