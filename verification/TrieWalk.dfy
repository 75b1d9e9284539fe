// Walking the packed nodes: which node stands for which group of lemmas, and what its sons are.

module TrieWalk {
  import opened Limits
  import opened Trie
  import opened TrieCover
  import opened SpellingIds

  ghost function NodeView(l: seq<Le0>, g: seq<Ge1>, d: nat, x: nat): View
    requires if d == 1 then x < |l| else x < |g|
  {
    if d == 1 then Look0(l[x]) else Look1(g[x])
  }

  // Node x of the layer of d ids stands for the group.
  ghost predicate NodeFor(l: seq<Le0>, g: seq<Ge1>, es: seq<Entry>, d: nat, x: nat, gr: Group) {
    && 1 <= d <= MAX_LEMMA_SIZE && gr.a < gr.m <= |es| && Same(es, gr.a, gr.m, d)
    && (if d == 1 then x < |l| else x < |g|)
    && NodeIs(g, NodeView(l, g, d, x), 0, |g|, es, gr.a, gr.m, d - 1)
  }

  // The node's own lemmas in the id buffer, and how many sons it has.
  lemma NodeOwn(l: seq<Le0>, g: seq<Ge1>, es: seq<Entry>, d: nat, x: nat, gr: Group)
    requires NodeFor(l, g, es, d, x, gr)
    ensures 1 <= d <= MAX_LEMMA_SIZE && gr.a < gr.m <= |es| && if d == 1 then x < |l| else x < |g|
    ensures var v := NodeView(l, g, d, x);
            && v.homoOff == gr.a && v.homoNum == Own(es, gr.a, gr.m, d - 1) && gr.a + v.homoNum <= gr.m
            && v.spl == Id(es[gr.a], d - 1)
            && OwnIds(es, gr, d) == IdsOf(es)[v.homoOff..v.homoOff + v.homoNum]
            && v.sonNum == Groups(es, gr.a + v.homoNum, gr.m, d)
            && (v.sonNum > 0 ==> v.sonOff + v.sonNum <= |g| && d < MAX_LEMMA_SIZE)
  {
    hide NodeIs, Own, Same, Id, Groups, SonsAre, IdsOf;
    NodeFacts(g, NodeView(l, g, d, x), 0, |g|, es, gr.a, gr.m, d - 1);
  }

  lemma NodeSame(l: seq<Le0>, g: seq<Ge1>, es: seq<Entry>, d: nat, x: nat, gr: Group)
    requires NodeFor(l, g, es, d, x, gr)
    ensures 1 <= d && Same(es, gr.a, gr.m, d)
  {
    hide NodeIs, Same;
  }

  // Where son i's group starts.
  ghost function SonGroup(es: seq<Entry>, gr: Group, d: nat, i: nat): (r: Group)
    requires gr.a < gr.m <= |es| && d > 0 && i < Groups(es, gr.a + Own(es, gr.a, gr.m, d - 1), gr.m, d)
    ensures r.a < r.m <= |es|
  {
    var k := gr.a + Own(es, gr.a, gr.m, d - 1);
    StartNext(es, k, gr.m, d, i);
    Group(StartOf(es, k, gr.m, d, i), StartOf(es, k, gr.m, d, i + 1))
  }

  lemma SonOf(l: seq<Le0>, g: seq<Ge1>, es: seq<Entry>, d: nat, x: nat, gr: Group, i: nat)
    requires Ordered(es) && NodeFor(l, g, es, d, x, gr)
    requires i < NodeView(l, g, d, x).sonNum
    ensures var v := NodeView(l, g, d, x);
            && i < Groups(es, gr.a + Own(es, gr.a, gr.m, d - 1), gr.m, d) && v.sonOff + i < |g|
            && NodeFor(l, g, es, d + 1, v.sonOff + i, SonGroup(es, gr, d, i))
            && SonSpl(g, v, i) == Id(es[SonGroup(es, gr, d, i).a], d)
  {
    hide *;
    NodeOwn(l, g, es, d, x, gr);
    NodeCluster(l, g, es, d, x, gr);
    NodeSons(l, g, es, d, x, gr);
    var v := NodeView(l, g, d, x);
    SonAt(l, g, es, gr.a + v.homoNum, gr.m, d, v.sonOff, v.sonNum, i);
    SonGroupIs(es, gr, d, i);
    SonSplIs(g, v, i);
  }

  function SonSpl(g: seq<Ge1>, v: View, i: nat): nat
    requires v.sonOff + i < |g|
  {
    g[v.sonOff + i].spl
  }

  lemma SonSplIs(g: seq<Ge1>, v: View, i: nat)
    requires v.sonOff + i < |g|
    ensures SonSpl(g, v, i) == g[v.sonOff + i].spl
  {}

  lemma SonGroupIs(es: seq<Entry>, gr: Group, d: nat, i: nat)
    requires gr.a < gr.m <= |es| && d > 0 && i < Groups(es, gr.a + Own(es, gr.a, gr.m, d - 1), gr.m, d)
    ensures var k := gr.a + Own(es, gr.a, gr.m, d - 1);
            SonGroup(es, gr, d, i) == Group(StartOf(es, k, gr.m, d, i), StartOf(es, k, gr.m, d, i + 1))
  {
    hide Own, Groups, StartOf;
  }

  lemma NodeSons(l: seq<Le0>, g: seq<Ge1>, es: seq<Entry>, d: nat, x: nat, gr: Group)
    requires NodeFor(l, g, es, d, x, gr) && NodeView(l, g, d, x).sonNum > 0
    ensures d < MAX_LEMMA_SIZE && gr.a + NodeView(l, g, d, x).homoNum <= gr.m <= |es|
    ensures var v := NodeView(l, g, d, x); SonsAre(g, v.sonOff, v.sonNum, |g|, es, gr.a + v.homoNum, gr.m, d)
  {
    hide NodeIs, Own, Same, Id, Groups, SonsAre;
    NodeFacts(g, NodeView(l, g, d, x), 0, |g|, es, gr.a, gr.m, d - 1);
  }

  lemma SonAt(l: seq<Le0>, g: seq<Ge1>, es: seq<Entry>, k: nat, m: nat, d: nat, off: nat, num: nat, i: nat)
    requires Ordered(es) && 0 < d < MAX_LEMMA_SIZE && Cluster(es, k, m, d) && SonsAre(g, off, num, |g|, es, k, m, d)
    requires i < num
    ensures i < Groups(es, k, m, d) && off + i < |g|
    ensures NodeFor(l, g, es, d + 1, off + i, Group(StartOf(es, k, m, d, i), StartOf(es, k, m, d, i + 1)))
    ensures StartOf(es, k, m, d, i) < |es| && g[off + i].spl == Id(es[StartOf(es, k, m, d, i)], d)
  {
    StartNext(es, k, m, d, i);
    var c, e := StartOf(es, k, m, d, i), StartOf(es, k, m, d, i + 1);
    GroupFacts(es, k, m, d, c, e);
    hide Own, Groups, StartOf, Same, Ordered, NodeIs;
    assert SonIs(g, off, num, |g|, es, k, m, d, i);
    Kept(g, g, Look1(g[off + i]), off + num, |g|, 0, |g|, es, c, e, d);
    NodeFacts(g, Look1(g[off + i]), 0, |g|, es, c, e, d);
  }

  // Sons have strictly rising ids.
  lemma SonsRise(l: seq<Le0>, g: seq<Ge1>, es: seq<Entry>, d: nat, x: nat, gr: Group, i: nat, j: nat)
    requires Ordered(es) && NodeFor(l, g, es, d, x, gr) && i < j < NodeView(l, g, d, x).sonNum
    ensures var v := NodeView(l, g, d, x); v.sonOff + j < |g| && SonSpl(g, v, i) < SonSpl(g, v, j)
  {
    hide *;
    NodeOwn(l, g, es, d, x, gr);
    SonOf(l, g, es, d, x, gr, i);
    SonOf(l, g, es, d, x, gr, j);
    NodeCluster(l, g, es, d, x, gr);
    SonGroupIs(es, gr, d, i);
    SonGroupIs(es, gr, d, j);
    GroupsRise(es, gr.a + Own(es, gr.a, gr.m, d - 1), gr.m, d, i, j);
  }

  lemma NodeCluster(l: seq<Le0>, g: seq<Ge1>, es: seq<Entry>, d: nat, x: nat, gr: Group)
    requires Ordered(es) && NodeFor(l, g, es, d, x, gr)
    ensures 1 <= d && gr.a < gr.m <= |es| && Cluster(es, gr.a + Own(es, gr.a, gr.m, d - 1), gr.m, d)
  {
    hide *;
    NodeOwn(l, g, es, d, x, gr);
    NodeSame(l, g, es, d, x, gr);
    OwnFacts(es, gr.a, gr.m, d - 1);
  }

  // The sons of number i and up in the range, as groups.
  ghost function KidsFrom(es: seq<Entry>, gr: Group, d: nat, r: Range, i: nat): seq<Group>
    requires gr.a < gr.m <= |es| && d > 0 && i <= Groups(es, gr.a + Own(es, gr.a, gr.m, d - 1), gr.m, d)
  {
    Sub(es, gr.a + Own(es, gr.a, gr.m, d - 1), gr.m, d, r, i)
  }

  ghost predicate PastSon(g: seq<Ge1>, v: View, j: nat, r: Range) {
    v.sonOff + j < |g| && SonSpl(g, v, j) >= r.start + r.num
  }

  // One son further; past the range nothing is left.
  lemma KidsStep(l: seq<Le0>, g: seq<Ge1>, es: seq<Entry>, d: nat, x: nat, gr: Group, r: Range, i: nat)
    requires Ordered(es) && NodeFor(l, g, es, d, x, gr) && i < NodeView(l, g, d, x).sonNum
    requires i < Groups(es, gr.a + Own(es, gr.a, gr.m, d - 1), gr.m, d)
    requires NodeView(l, g, d, x).sonOff + i < |g|
    ensures KidsFrom(es, gr, d, r, i)
         == (if In(SonSpl(g, NodeView(l, g, d, x), i), r) then [SonGroup(es, gr, d, i)] else []) +
           KidsFrom(es, gr, d, r, i + 1)
    ensures SonSpl(g, NodeView(l, g, d, x), i) + 1 >= r.start + r.num ==> KidsFrom(es, gr, d, r, i + 1) == []
  {
    hide *;
    NodeOwn(l, g, es, d, x, gr);
    SonOf(l, g, es, d, x, gr, i);
    KidsUnfold(es, gr, d, r, i);
    var v := NodeView(l, g, d, x);
    if SonSpl(g, v, i) + 1 >= r.start + r.num {
      forall j: nat | i + 1 <= j < v.sonNum
        ensures PastSon(g, v, j, r)
      {
        SonsRise(l, g, es, d, x, gr, i, j);
        IsPast(g, v, j, r);
      }
      PastAll(l, g, es, d, x, gr, r, i + 1);
    }
  }

  lemma IsPast(g: seq<Ge1>, v: View, j: nat, r: Range)
    requires v.sonOff + j < |g| && SonSpl(g, v, j) >= r.start + r.num
    ensures PastSon(g, v, j, r)
  {}

  lemma KidsUnfold(es: seq<Entry>, gr: Group, d: nat, r: Range, i: nat)
    requires gr.a < gr.m <= |es| && d > 0 && i < Groups(es, gr.a + Own(es, gr.a, gr.m, d - 1), gr.m, d)
    ensures KidsFrom(es, gr, d, r, i)
         == (if In(Id(es[SonGroup(es, gr, d, i).a], d), r) then [SonGroup(es, gr, d, i)] else []) +
           KidsFrom(es, gr, d, r, i + 1)
  {
    hide Own, Groups, StartOf, Id;
  }

  lemma {:induction false} PastAll(l: seq<Le0>, g: seq<Ge1>, es: seq<Entry>, d: nat, x: nat, gr: Group, r: Range,
                                   i: nat)
    requires Ordered(es) && NodeFor(l, g, es, d, x, gr)
    requires i <= NodeView(l, g, d, x).sonNum == Groups(es, gr.a + Own(es, gr.a, gr.m, d - 1), gr.m, d)
    requires forall j: nat :: i <= j < NodeView(l, g, d, x).sonNum ==> PastSon(g, NodeView(l, g, d, x), j, r)
    ensures KidsFrom(es, gr, d, r, i) == []
    decreases NodeView(l, g, d, x).sonNum - i
  {
    hide *;
    NodeOwn(l, g, es, d, x, gr);
    var v := NodeView(l, g, d, x);
    if i < v.sonNum {
      PastOut(g, v, i, r);
      SonOf(l, g, es, d, x, gr, i);
      KidsUnfold(es, gr, d, r, i);
      PastAll(l, g, es, d, x, gr, r, i + 1);
    } else {
      KidsEnd(es, gr, d, r);
    }
  }

  lemma PastOut(g: seq<Ge1>, v: View, i: nat, r: Range)
    requires PastSon(g, v, i, r)
    ensures v.sonOff + i < |g| && !In(SonSpl(g, v, i), r)
  {}

  lemma KidsEnd(es: seq<Entry>, gr: Group, d: nat, r: Range)
    requires gr.a < gr.m <= |es| && d > 0
    ensures KidsFrom(es, gr, d, r, Groups(es, gr.a + Own(es, gr.a, gr.m, d - 1), gr.m, d)) == []
  {
    hide Groups, Own;
  }

  // ---- The first layer ----

  // Every full id has a son of root.
  ghost predicate AllRoots(es: seq<Entry>, n: nat) {
    && Groups(es, 0, |es|, 0) == n
    && forall k: nat :: k < n ==> RootId(es, k) == FULL_START + k
  }

  ghost function RootId(es: seq<Entry>, k: nat): nat
    requires k < Groups(es, 0, |es|, 0)
  {
    StartNext(es, 0, |es|, 0, k);
    Id(es[StartOf(es, 0, |es|, 0, k)], 0)
  }

  ghost function RootGroup(es: seq<Entry>, k: nat): (r: Group)
    requires k < Groups(es, 0, |es|, 0)
    ensures r.a < r.m <= |es|
  {
    StartNext(es, 0, |es|, 0, k);
    Group(StartOf(es, 0, |es|, 0, k), StartOf(es, 0, |es|, 0, k + 1))
  }

  lemma RootSon(l: seq<Le0>, g: seq<Ge1>, es: seq<Entry>, k: nat)
    requires IsTrie(l, g, es) && k < Groups(es, 0, |es|, 0)
    ensures 1 + k < |l| && NodeFor(l, g, es, 1, 1 + k, RootGroup(es, k)) && l[1 + k].spl == RootId(es, k)
  {
    RootSame(es, k);
    hide Groups, StartOf, Same, Ordered, NodeIs, GroupEnd;
    assert RootSonIs(l, g, es, k);
    StartNext(es, 0, |es|, 0, k);
    NodeFacts(g, Look0(l[1 + k]), 0, |g|, es, StartOf(es, 0, |es|, 0, k), StartOf(es, 0, |es|, 0, k + 1), 0);
  }

  lemma RootSame(es: seq<Entry>, k: nat)
    requires Ordered(es) && k < Groups(es, 0, |es|, 0)
    ensures Same(es, RootGroup(es, k).a, RootGroup(es, k).m, 1)
  {
    AllCluster(es);
    StartNext(es, 0, |es|, 0, k);
    hide Groups, StartOf, Ordered, Same;
    GroupFacts(es, 0, |es|, 0, StartOf(es, 0, |es|, 0, k), StartOf(es, 0, |es|, 0, k + 1));
  }

  // The groups of root sons i..j.
  ghost function RootGroups(es: seq<Entry>, i: nat, j: nat): (gs: seq<Group>)
    requires i <= j <= Groups(es, 0, |es|, 0)
    ensures |gs| == j - i && AllIn(es, gs) && forall k :: 0 <= k < j - i ==> gs[k] == RootGroup(es, i + k)
    decreases j - i
  {
    if i == j then [] else [RootGroup(es, i)] + RootGroups(es, i + 1, j)
  }

  // A range of full ids covers the root sons of the same numbers.
  lemma {:induction false} RootsCover(es: seq<Entry>, n: nat, r: Range, i: nat)
    requires AllRoots(es, n) && FULL_START <= r.start && r.start + r.num <= FULL_START + n && i <= n
    ensures Sub(es, 0, |es|, 0, r, i)
         == (var lo, hi := r.start - FULL_START, r.start + r.num - FULL_START;
             if i >= hi then [] else RootGroups(es, if i < lo then lo else i, hi))
    decreases n - i
  {
    hide Groups, StartOf, Own;
    if i < n {
      RootsCover(es, n, r, i + 1);
      StartNext(es, 0, |es|, 0, i);
      assert RootId(es, i) == FULL_START + i;
      var lo, hi := r.start - FULL_START, r.start + r.num - FULL_START;
      if lo <= i < hi {
        assert RootGroups(es, i, hi) == [RootGroup(es, i)] + RootGroups(es, i + 1, hi);
      }
    }
  }

  // ---- Lists of nodes ----

  ghost predicate Denote(l: seq<Le0>, g: seq<Ge1>, es: seq<Entry>, d: nat, xs: seq<nat>, gs: seq<Group>) {
    |xs| == |gs| && forall i :: 0 <= i < |xs| ==> NodeFor(l, g, es, d, xs[i], gs[i])
  }

  lemma DenotePlus(l: seq<Le0>, g: seq<Ge1>, es: seq<Entry>, d: nat, xs: seq<nat>, gs: seq<Group>, ys: seq<nat>,
                   hs: seq<Group>)
    requires Denote(l, g, es, d, xs, gs) && Denote(l, g, es, d, ys, hs)
    ensures Denote(l, g, es, d, xs + ys, gs + hs)
  {
    hide NodeFor;
  }

  lemma {:induction false} AllKidsMore(es: seq<Entry>, gs: seq<Group>, n: nat, d: nat, r: Range)
    requires AllIn(es, gs) && d > 0 && n < |gs|
    ensures AllKids(es, gs[..n + 1], d, r) == AllKids(es, gs[..n], d, r) + Kids(es, gs[n], d, r)
    decreases n
  {
    hide Kids;
    if n == 0 {
      assert gs[..1][1..] == [];
    } else {
      AllKidsMore(es, gs[1..], n - 1, d, r);
      assert gs[..n + 1][1..] == gs[1..][..n] && gs[..n][1..] == gs[1..][..n - 1];
    }
  }

  lemma {:induction false} ItemsMore(es: seq<Entry>, gs: seq<Group>, n: nat, d: nat)
    requires AllIn(es, gs) && d > 0 && n < |gs|
    ensures Items(es, gs[..n + 1], d) == Items(es, gs[..n], d) + OwnIds(es, gs[n], d)
    decreases n
  {
    hide OwnIds;
    if n == 0 {
      assert gs[..1][1..] == [];
    } else {
      ItemsMore(es, gs[1..], n - 1, d);
      assert gs[..n + 1][1..] == gs[1..][..n] && gs[..n][1..] == gs[1..][..n - 1];
    }
  }

  lemma {:induction false} ItemsPlus(es: seq<Entry>, gs: seq<Group>, hs: seq<Group>, d: nat)
    requires AllIn(es, gs) && AllIn(es, hs) && d > 0
    ensures AllIn(es, gs + hs) && Items(es, gs + hs, d) == Items(es, gs, d) + Items(es, hs, d)
  {
    hide OwnIds;
    if gs == [] {
      assert gs + hs == hs;
    } else {
      ItemsPlus(es, gs[1..], hs, d);
      assert (gs + hs)[1..] == gs[1..] + hs;
    }
  }
}
