// The system dictionary's trie as a value: the lemma array sorted by spelling ids, the packed nodes,
// and what it means that nodes stand for a stretch of the array.

module Trie {
  import opened Limits
  const BYTE := 0x100
  const WORD := 0x1_0000
  const ID_LIMIT := 0x100_0000

  // A lemma: its spelling ids (a 0 ends the array in the program) and its id.
  datatype Entry = Entry(splids: seq<nat>, id: nat)

  // Nodes of the root and the first layer, and the packed nodes of the other layers.
  datatype Le0 = Le0(sonOff: nat, homoOff: nat, spl: nat, sonNum: nat, homoNum: nat)
  datatype Ge1 = Ge1(sonL: nat, homoL: nat, spl: nat, sonNum: nat, homoNum: nat, sonH: nat, homoH: nat)

  const ZERO0 := Le0(0, 0, 0, 0, 0)
  const ZERO1 := Ge1(0, 0, 0, 0, 0, 0, 0)

  // What a node of either kind says.
  datatype View = View(spl: nat, sonOff: nat, sonNum: nat, homoOff: nat, homoNum: nat)

  function Look0(n: Le0): View { View(n.spl, n.sonOff, n.sonNum, n.homoOff, n.homoNum) }

  function SonOffset(n: Ge1): nat { n.sonL + n.sonH * WORD }

  function HomoOffset(n: Ge1): nat { n.homoL + n.homoH * WORD }

  function Look1(n: Ge1): View { View(n.spl, SonOffset(n), n.sonNum, HomoOffset(n), n.homoNum) }

  function SetSon(n: Ge1, off: nat): Ge1 { n.(sonL := off % WORD, sonH := off / WORD % BYTE) }

  function SetHomo(n: Ge1, off: nat): Ge1 { n.(homoL := off % WORD, homoH := off / WORD % BYTE) }

  // 24 bits hold an offset exactly.
  lemma SonPacked(n: Ge1, off: nat)
    ensures SonOffset(SetSon(n, off)) == off <==> off < ID_LIMIT
    ensures HomoOffset(SetSon(n, off)) == HomoOffset(n)
  {
    Packs(off);
  }

  lemma HomoPacked(n: Ge1, off: nat)
    ensures HomoOffset(SetHomo(n, off)) == off <==> off < ID_LIMIT
    ensures SonOffset(SetHomo(n, off)) == SonOffset(n)
  {
    Packs(off);
  }

  lemma Packs(off: nat)
    ensures off % WORD + off / WORD % BYTE * WORD == off <==> off < ID_LIMIT
  {}

  // ---- The sorted array ----

  function Id(e: Entry, level: nat): nat {
    if level < |e.splids| then e.splids[level] else 0
  }

  ghost predicate OkEntry(e: Entry) {
    0 < |e.splids| <= MAX_LEMMA_SIZE && e.id < ID_LIMIT && forall k :: 0 <= k < |e.splids| ==> 0 < e.splids[k] < WORD
  }

  ghost predicate LexLe(x: seq<nat>, y: seq<nat>) {
    x == [] || (y != [] && (x[0] < y[0] || (x[0] == y[0] && LexLe(x[1..], y[1..]))))
  }

  ghost predicate Ordered(es: seq<Entry>) {
    && (forall i :: 0 <= i < |es| ==> OkEntry(es[i]))
    && forall i, j :: 0 <= i < j < |es| ==> LexLe(es[i].splids, es[j].splids)
  }

  // Entries a..b have at least n ids and share the first n.
  ghost predicate Same(es: seq<Entry>, a: nat, b: nat, n: nat) {
    && a <= b <= |es|
    && (forall i :: a <= i < b ==> |es[i].splids| >= n)
    && forall i, j :: a <= i < b && a <= j < b ==> es[i].splids[..n] == es[j].splids[..n]
  }

  // Entries a..b hang below one node: they share the ids before the level and all go on.
  ghost predicate Cluster(es: seq<Entry>, a: nat, b: nat, level: nat) {
    Same(es, a, b, level) && forall i :: a <= i < b ==> |es[i].splids| > level
  }

  // The end of the run of entries with the id of entry a at the level.
  function RunEnd(es: seq<Entry>, a: nat, m: nat, b: nat, level: nat): (r: nat)
    requires a <= m <= b <= |es| && a < |es|
    ensures m <= r <= b
    ensures forall i :: m <= i < r ==> Id(es[i], level) == Id(es[a], level)
    ensures r < b ==> Id(es[r], level) != Id(es[a], level)
    decreases b - m
  {
    if m == b || Id(es[m], level) != Id(es[a], level) then m else RunEnd(es, a, m + 1, b, level)
  }

  function GroupEnd(es: seq<Entry>, a: nat, b: nat, level: nat): (r: nat)
    requires a < b <= |es|
    ensures a < r <= b
    ensures forall i :: a <= i < r ==> Id(es[i], level) == Id(es[a], level)
    ensures r < b ==> Id(es[r], level) != Id(es[a], level)
  {
    RunEnd(es, a, a + 1, b, level)
  }

  // How many entries from a on end after the level.
  function Own(es: seq<Entry>, a: nat, b: nat, level: nat): (r: nat)
    requires a <= b <= |es|
    ensures a + r <= b
    ensures forall i :: a <= i < a + r ==> Id(es[i], level + 1) == 0
    ensures a + r < b ==> Id(es[a + r], level + 1) != 0
    decreases b - a
  {
    if a == b || Id(es[a], level + 1) != 0 then 0 else 1 + Own(es, a + 1, b, level)
  }

  // How many groups a..b has, and where group i starts (group b is the end).
  function Groups(es: seq<Entry>, a: nat, b: nat, level: nat): (n: nat)
    requires a <= b <= |es|
    ensures a < b ==> n > 0
    decreases b - a
  {
    if a == b then 0 else 1 + Groups(es, GroupEnd(es, a, b, level), b, level)
  }

  function StartOf(es: seq<Entry>, a: nat, b: nat, level: nat, i: nat): (r: nat)
    requires a <= b <= |es| && i <= Groups(es, a, b, level)
    ensures a <= r <= b
    decreases i
  {
    if i == 0 then a else StartOf(es, GroupEnd(es, a, b, level), b, level, i - 1)
  }

  lemma {:induction false} StartNext(es: seq<Entry>, a: nat, b: nat, level: nat, i: nat)
    requires a <= b <= |es| && i <= Groups(es, a, b, level)
    ensures i < Groups(es, a, b, level) ==>
              && StartOf(es, a, b, level, i) < b
              && StartOf(es, a, b, level, i + 1) == GroupEnd(es, StartOf(es, a, b, level, i), b, level)
    ensures i == Groups(es, a, b, level) ==> StartOf(es, a, b, level, i) == b
    decreases i
  {
    if i > 0 {
      StartNext(es, GroupEnd(es, a, b, level), b, level, i - 1);
    }
  }

  lemma {:induction false} LexAt(x: seq<nat>, y: seq<nat>, n: nat)
    requires LexLe(x, y) && n < |x| && n <= |y| && x[..n] == y[..n]
    ensures n < |y| && x[n] <= y[n]
  {
    if n > 0 {
      assert x[0] == x[..n][0] == y[..n][0] == y[0];
      assert x[1..][..n - 1] == x[..n][1..] == y[..n][1..] == y[1..][..n - 1];
      LexAt(x[1..], y[1..], n - 1);
    }
  }

  // Among entries that share the ids before, the next ids do not fall.
  lemma Rises(es: seq<Entry>, a: nat, b: nat, level: nat, i: nat, j: nat)
    requires Ordered(es) && Same(es, a, b, level) && a <= i <= j < b
    ensures Id(es[i], level) <= Id(es[j], level)
  {
    if i < j && level < |es[i].splids| {
      LexAt(es[i].splids, es[j].splids, level);
    }
  }

  // A group of a cluster shares one id more; its entries that end there come first.
  lemma GroupFacts(es: seq<Entry>, a: nat, b: nat, level: nat, c: nat, d: nat)
    requires Ordered(es) && Cluster(es, a, b, level) && a <= c < b && d == GroupEnd(es, c, b, level)
    ensures Same(es, c, d, level + 1)
  {
    forall i, j | c <= i < d && c <= j < d
      ensures es[i].splids[..level + 1] == es[j].splids[..level + 1]
    {
      assert es[i].splids[..level] == es[j].splids[..level];
      assert es[i].splids[level] == Id(es[i], level) == Id(es[j], level) == es[j].splids[level];
    }
  }

  lemma OwnFacts(es: seq<Entry>, c: nat, d: nat, level: nat)
    requires Ordered(es) && Same(es, c, d, level + 1)
    ensures forall i :: c <= i < c + Own(es, c, d, level) ==> |es[i].splids| == level + 1
    ensures Cluster(es, c + Own(es, c, d, level), d, level + 1)
  {
    var k := c + Own(es, c, d, level);
    forall i | c <= i < k
      ensures |es[i].splids| == level + 1
    {
      assert Id(es[i], level + 1) == 0;
      assert OkEntry(es[i]);
    }
    forall i | k <= i < d
      ensures |es[i].splids| > level + 1
    {
      Rises(es, c, d, level + 1, k, i);
    }
  }

  // The groups of a cluster have strictly rising ids.
  lemma {:induction false} GroupsRise(es: seq<Entry>, a: nat, b: nat, level: nat, i: nat, j: nat)
    requires Ordered(es) && Cluster(es, a, b, level) && i < j < Groups(es, a, b, level)
    ensures StartOf(es, a, b, level, i) < b && StartOf(es, a, b, level, j) < b
    ensures Id(es[StartOf(es, a, b, level, i)], level) < Id(es[StartOf(es, a, b, level, j)], level)
    decreases j - i
  {
    hide Ordered, StartOf, Groups, GroupEnd;
    StartNext(es, a, b, level, i);
    StartNext(es, a, b, level, j);
    if j == i + 1 {
      NextRises(es, a, b, level, StartOf(es, a, b, level, i));
    } else {
      GroupsRise(es, a, b, level, i, j - 1);
      GroupsRise(es, a, b, level, j - 1, j);
    }
  }

  lemma NextRises(es: seq<Entry>, a: nat, b: nat, level: nat, c: nat)
    requires Ordered(es) && Cluster(es, a, b, level) && a <= c < b && GroupEnd(es, c, b, level) < b
    ensures Id(es[c], level) < Id(es[GroupEnd(es, c, b, level)], level)
  {
    Rises(es, a, b, level, c, GroupEnd(es, c, b, level));
  }

  // ---- Nodes that stand for entries ----

  // A node stands for the group a..m: its own lemmas, and below it a block of sons between lo and hi.
  ghost predicate NodeIs(g: seq<Ge1>, v: View, lo: nat, hi: nat, es: seq<Entry>, a: nat, m: nat, level: nat)
    requires a < m <= |es| && level < MAX_LEMMA_SIZE
    decreases MAX_LEMMA_SIZE - level, 0
  {
    && v.spl == Id(es[a], level) && v.homoOff == a && v.homoNum == Own(es, a, m, level)
    && var k := a + v.homoNum;
       if k == m then v.sonNum == 0
       else lo <= v.sonOff && level + 1 < MAX_LEMMA_SIZE && SonsAre(g, v.sonOff, v.sonNum, hi, es, k, m, level + 1)
  }

  // A block of sons stands for a..b, one son for each group.
  ghost predicate SonsAre(g: seq<Ge1>, off: nat, num: nat, hi: nat, es: seq<Entry>, a: nat, b: nat, level: nat)
    requires a <= b <= |es| && level < MAX_LEMMA_SIZE
    decreases MAX_LEMMA_SIZE - level, 2
  {
    && off + num <= hi <= |g| && num == Groups(es, a, b, level)
    && forall i: nat :: i < num ==> SonIs(g, off, num, hi, es, a, b, level, i)
  }

  ghost predicate SonIs(g: seq<Ge1>, off: nat, num: nat, hi: nat, es: seq<Entry>, a: nat, b: nat, level: nat, i: nat)
    requires a <= b <= |es| && i < num == Groups(es, a, b, level) && off + num <= |g| && level < MAX_LEMMA_SIZE
    decreases MAX_LEMMA_SIZE - level, 1
  {
    StartNext(es, a, b, level, i);
    NodeIs(g, Look1(g[off + i]), off + num, hi, es, StartOf(es, a, b, level, i), StartOf(es, a, b, level, i + 1), level)
  }

  lemma NodeFacts(g: seq<Ge1>, v: View, lo: nat, hi: nat, es: seq<Entry>, a: nat, m: nat, level: nat)
    requires a < m <= |es| && level < MAX_LEMMA_SIZE && NodeIs(g, v, lo, hi, es, a, m, level)
    ensures v.spl == Id(es[a], level) && v.homoOff == a && v.homoNum == Own(es, a, m, level)
    ensures v.sonNum == Groups(es, a + v.homoNum, m, level + 1)
    ensures v.sonNum > 0 ==>
              && level + 1 < MAX_LEMMA_SIZE && v.sonOff + v.sonNum <= hi <= |g|
              && SonsAre(g, v.sonOff, v.sonNum, hi, es, a + v.homoNum, m, level + 1)
  {
    hide Own, Id, SonIs;
  }

  // Writing elsewhere keeps what a node stands for.
  lemma {:induction false} Kept(g: seq<Ge1>, g': seq<Ge1>, v: View, lo: nat, hi: nat, lo': nat, hi': nat,
                                es: seq<Entry>, a: nat, m: nat, level: nat)
    requires a < m <= |es| && level < MAX_LEMMA_SIZE && NodeIs(g, v, lo, hi, es, a, m, level)
    requires lo' <= lo && hi <= hi' <= |g'| && forall i :: lo <= i < hi && i < |g| ==> g'[i] == g[i]
    ensures NodeIs(g', v, lo', hi', es, a, m, level)
    decreases MAX_LEMMA_SIZE - level, 0
  {
    var k := a + v.homoNum;
    if k < m {
      hide Groups, Own, Id, StartOf, SonIs;
      var next, off, num := level + 1, v.sonOff, v.sonNum;
      assert SonsAre(g, off, num, hi, es, k, m, next);
      forall i: nat | i < num
        ensures SonIs(g', off, num, hi', es, k, m, next, i)
      {
        SonKept(g, g', off, num, hi, hi', es, k, m, next, i);
      }
      assert SonsAre(g', off, num, hi', es, k, m, next);
    }
  }

  lemma {:induction false} SonKept(g: seq<Ge1>, g': seq<Ge1>, off: nat, num: nat, hi: nat, hi': nat,
                                   es: seq<Entry>, a: nat, b: nat, level: nat, i: nat)
    requires a <= b <= |es| && i < num == Groups(es, a, b, level) && off + num <= hi <= hi' <= |g'| && hi <= |g|
    requires level < MAX_LEMMA_SIZE && SonIs(g, off, num, hi, es, a, b, level, i)
    requires forall i :: off <= i < hi ==> g'[i] == g[i]
    ensures SonIs(g', off, num, hi', es, a, b, level, i)
    decreases MAX_LEMMA_SIZE - level, 1
  {
    hide Groups, Own, Id, StartOf, NodeIs;
    StartNext(es, a, b, level, i);
    Kept(g, g', Look1(g[off + i]), off + num, hi, off + num, hi', es,
         StartOf(es, a, b, level, i), StartOf(es, a, b, level, i + 1), level);
  }

  // ---- What building needs: node counts and field widths ----

  // Packed nodes below the groups of a..b, and below one group.
  function Below(es: seq<Entry>, a: nat, b: nat, level: nat): nat
    requires a <= b <= |es| && level < MAX_LEMMA_SIZE
    decreases MAX_LEMMA_SIZE - level, b - a, 1
  {
    if a == b then 0
    else
      var m := GroupEnd(es, a, b, level);
      Under(es, a, m, level) + Below(es, m, b, level)
  }

  function Under(es: seq<Entry>, a: nat, m: nat, level: nat): nat
    requires a < m <= |es| && level < MAX_LEMMA_SIZE
    decreases MAX_LEMMA_SIZE - level, m - a, 0
  {
    var k := a + Own(es, a, m, level);
    if k == m || level + 1 == MAX_LEMMA_SIZE then 0 else Groups(es, k, m, level + 1) + Below(es, k, m, level + 1)
  }

  // The widths of the counts: 16 bits above, 8 bits in packed nodes. A block's length is kept by its parent.
  function SonCap(level: nat): nat { if level <= 1 then WORD - 1 else BYTE - 1 }

  function HomoCap(level: nat): nat { if level == 0 then WORD - 1 else BYTE - 1 }

  ghost predicate Fits(es: seq<Entry>, a: nat, b: nat, level: nat)
    requires a <= b <= |es| && level < MAX_LEMMA_SIZE
    decreases MAX_LEMMA_SIZE - level, b - a, 1
  {
    a == b ||
    var m := GroupEnd(es, a, b, level);
    FitsUnder(es, a, m, level) && Fits(es, m, b, level)
  }

  ghost predicate FitsUnder(es: seq<Entry>, a: nat, m: nat, level: nat)
    requires a < m <= |es| && level < MAX_LEMMA_SIZE
    decreases MAX_LEMMA_SIZE - level, m - a, 0
  {
    var k := a + Own(es, a, m, level);
    && k - a <= HomoCap(level)
    && (k == m || level + 1 == MAX_LEMMA_SIZE
        || (Groups(es, k, m, level + 1) <= SonCap(level + 1) && Fits(es, k, m, level + 1)))
  }

  // ---- A whole dictionary ----

  ghost predicate RootSonIs(l: seq<Le0>, g: seq<Ge1>, es: seq<Entry>, i: nat)
    requires i < Groups(es, 0, |es|, 0)
  {
    StartNext(es, 0, |es|, 0, i);
    && 1 + i < |l|
    && NodeIs(g, Look0(l[1 + i]), 0, |g|, es, StartOf(es, 0, |es|, 0, i), StartOf(es, 0, |es|, 0, i + 1), 0)
  }

  // The nodes are the trie of the lemmas.
  ghost predicate IsTrie(l: seq<Le0>, g: seq<Ge1>, es: seq<Entry>) {
    && Ordered(es) && |es| > 0 && |l| == 1 + Groups(es, 0, |es|, 0)
    && l[0].sonOff == 1 && l[0].sonNum == Groups(es, 0, |es|, 0)
    && forall i: nat :: i < Groups(es, 0, |es|, 0) ==> RootSonIs(l, g, es, i)
  }

  lemma AllCluster(es: seq<Entry>)
    requires Ordered(es)
    ensures Cluster(es, 0, |es|, 0)
  {
    forall i | 0 <= i < |es|
      ensures |es[i].splids| > 0
    {
      assert OkEntry(es[i]);
    }
  }

  // ---- Ids in three bytes ----

  const ID_SIZE := 3

  // id >> (pos * 8), and its low byte.
  function Shifted(id: nat, pos: nat): nat {
    if pos == 0 then id else Shifted(id, pos - 1) / BYTE
  }

  function ByteAt(id: nat, pos: nat): (b: nat)
    ensures b < BYTE
  {
    Shifted(id, pos) % BYTE
  }

  function ReadId(buf: seq<nat>, k: nat): nat
    requires k * ID_SIZE + 2 < |buf|
  {
    (buf[k * ID_SIZE + 2] * BYTE + buf[k * ID_SIZE + 1]) * BYTE + buf[k * ID_SIZE]
  }

  // Three bytes hold exactly the ids below the limit.
  lemma ReadBack(buf: seq<nat>, k: nat, id: nat)
    requires k * ID_SIZE + 2 < |buf|
    requires forall pos: nat :: pos < ID_SIZE ==> buf[k * ID_SIZE + pos] == ByteAt(id, pos)
    ensures ReadId(buf, k) == id <==> id < ID_LIMIT
  {
    var at := k * ID_SIZE;
    assert Shifted(id, 1) == id / BYTE;
    assert Shifted(id, 2) == Shifted(id, 1) / BYTE;
    assert buf[at + 0] == ByteAt(id, 0) && buf[at + 1] == ByteAt(id, 1) && buf[at + 2] == ByteAt(id, 2);
  }

  // The buffer holds the ids in order.
  ghost predicate HoldsIds(buf: seq<nat>, ids: seq<nat>) {
    |buf| == |ids| * ID_SIZE && forall k: nat :: k < |ids| ==> IdHeld(buf, ids, k)
  }

  ghost predicate IdHeld(buf: seq<nat>, ids: seq<nat>, k: nat)
    requires k < |ids|
  {
    k * ID_SIZE + 2 < |buf| && ReadId(buf, k) == ids[k]
  }

  ghost function IdsOf(es: seq<Entry>): (r: seq<nat>)
    ensures |r| == |es| && forall i :: 0 <= i < |es| ==> r[i] == es[i].id
  {
    seq<nat>(|es|, i requires 0 <= i < |es| => es[i].id)
  }
}
