// Looking lemmas up in the system dictionary: walking one spelling, the batch lookup over ranges of ids,
// and the incremental lookup that keeps its partial matches in marks and mile stones.

module DictTrie {
  import opened Limits
  import opened Trie
  import opened TrieCover
  import opened TrieWalk
  import opened SpellingIds

  const MAX_MILE_STONE := 100
  const MAX_PARSING_MARK := 600
  const FIRST_HANDLE := 1
  const MAX_EXTENDBUF_LEN := 200

  datatype Item = Item(id: nat, len: nat, psb: nat)

  // A run of neighbouring nodes, and a run of marks.
  datatype Mark = Mark(off: nat, num: nat)
  datatype Stone = Stone(start: nat, num: nat)

  function Psb(psbs: seq<nat>, id: nat): nat { if id < |psbs| then psbs[id] else 0 }

  ghost function ToItems(ids: seq<nat>, len: nat, psbs: seq<nat>): (r: seq<Item>)
    ensures |r| == |ids| && forall i :: 0 <= i < |ids| ==> r[i] == Item(ids[i], len, Psb(psbs, ids[i]))
  {
    seq<Item>(|ids|, i requires 0 <= i < |ids| => Item(ids[i], len, Psb(psbs, ids[i])))
  }

  lemma WantSize(es: seq<Entry>, off: nat, num: nat, len: nat, psbs: seq<nat>)
    requires off + num <= |es|
    ensures |IdsOf(es)| == |es| && |ToItems(IdsOf(es)[off..off + num], len, psbs)| == num
  {}

  lemma ItemAt(es: seq<Entry>, off: nat, num: nat, len: nat, psbs: seq<nat>, i: nat)
    requires off + num <= |es| && i < num
    ensures |IdsOf(es)| == |es|
    ensures var want := ToItems(IdsOf(es)[off..off + num], len, psbs);
            |want| == num && want[i] == Item(IdsOf(es)[off + i], len, Psb(psbs, IdsOf(es)[off + i]))
  {}

  ghost function RunOf(m: Mark): (r: seq<nat>)
    ensures |r| == m.num && forall i :: 0 <= i < m.num ==> r[i] == m.off + i
  {
    seq<nat>(m.num, i requires 0 <= i < m.num => m.off + i)
  }

  ghost function Flat(ms: seq<Mark>): seq<nat> {
    if ms == [] then [] else Flat(ms[..|ms| - 1]) + RunOf(ms[|ms| - 1])
  }

  // The stone's marks are the nodes of exactly the groups in the ranges.
  ghost predicate Means(l: seq<Le0>, g: seq<Ge1>, es: seq<Entry>, marks: seq<Mark>, st: Stone, rs: seq<Range>) {
    && Ordered(es) && 0 < |rs| <= MAX_LEMMA_SIZE && st.start + st.num <= |marks|
    && Denote(l, g, es, |rs|, Flat(marks[st.start..st.start + st.num]), Cover(es, rs, |rs|))
  }

  // The marks of the mile stones come one after another.
  ghost predicate StonesOk(stones: seq<Stone>, stonesPos: nat, marksPos: nat) {
    && FIRST_HANDLE <= stonesPos <= |stones|
    && (forall k: nat :: FIRST_HANDLE <= k < stonesPos ==> stones[k].start + stones[k].num <= marksPos)
    && forall j: nat, k: nat :: FIRST_HANDLE <= j < k < stonesPos ==> stones[j].start + stones[j].num <= stones[k].start
  }

  ghost predicate IndexOk(index: seq<nat>, n: nat) {
    |index| == n + 1 && forall k :: 0 <= k <= n ==> index[k] == k + 1
  }

  ghost function Singles(splids: seq<nat>): (rs: seq<Range>)
    ensures |rs| == |splids| && forall i :: 0 <= i < |rs| ==> rs[i] == Range(splids[i], 1)
  {
    seq<Range>(|splids|, i requires 0 <= i < |splids| => Range(splids[i], 1))
  }

  lemma MatchSingles(e: Entry, splids: seq<nat>)
    ensures Match(e, Singles(splids)) <==> e.splids == splids
  {
    if Match(e, Singles(splids)) {
      forall k | 0 <= k < |splids|
        ensures e.splids[k] == splids[k]
      {
        assert In(e.splids[k], Singles(splids)[k]);
      }
    }
  }

  // A layer without groups has none below.
  lemma {:induction false} CoverDies(es: seq<Entry>, rs: seq<Range>, d: nat, d': nat)
    requires Ordered(es) && 0 < d <= d' <= |rs| && Cover(es, rs, d) == []
    ensures Cover(es, rs, d') == []
    decreases d'
  {
    hide Ordered, GroupIn, Sub, AllIn;
    if d < d' {
      CoverDies(es, rs, d, d' - 1);
    }
  }

  lemma CoverNext(es: seq<Entry>, rs: seq<Range>, d: nat, gr: Group)
    requires Ordered(es) && 0 < d < |rs| && Cover(es, rs, d) == [gr] && gr.a < gr.m <= |es|
    ensures Cover(es, rs, d + 1) == Kids(es, gr, d, rs[d])
  {
    hide Ordered, GroupIn, Sub, AllIn, Kids;
    assert [gr][1..] == [];
    assert Cover(es, rs, d + 1) == AllKids(es, [gr], d, rs[d]);
  }

  ghost predicate HasLemma(es: seq<Entry>, splids: seq<nat>, id: nat) {
    exists i :: 0 <= i < |es| && es[i].splids == splids && es[i].id == id
  }

  // Groups that are found hold exactly the lemmas asked for.
  lemma FoundOnly(es: seq<Entry>, splids: seq<nat>, id: nat)
    requires Ordered(es) && splids != []
    ensures id in Items(es, Cover(es, Singles(splids), |splids|), |splids|)
       <==> HasLemma(es, splids, id)
  {
    hide Match;
    CoverFinds(es, Singles(splids));
    SelHas(es, 0, |es|, Singles(splids), id);
    forall i | 0 <= i < |es|
      ensures Match(es[i], Singles(splids)) <==> es[i].splids == splids
    {
      MatchSingles(es[i], splids);
    }
  }

  class DictTrie {
    ghost var lemmas: seq<Entry>
    var root: array<Le0>
    var nodes: array<Ge1>
    var idBuf: array<nat>
    var splidIndex: array<nat>
    var splNum: nat
    var psbs: seq<nat>
    var marks: array<Mark>
    var marksPos: nat
    var stones: array<Stone>
    var stonesPos: nat

    ghost predicate Valid()
      reads this, root, nodes, idBuf, splidIndex, marks, stones
    {
      && IsTrie(root[..], nodes[..], lemmas) && nodes.Length <= ID_LIMIT && root.Length <= WORD
      && AllRoots(lemmas, splNum) && IndexOk(splidIndex[..], splNum)
      && (forall k: nat :: k < |lemmas| ==> IdHeld(idBuf[..], IdsOf(lemmas), k))
      && marks.Length == MAX_PARSING_MARK && stones.Length == MAX_MILE_STONE && marksPos <= MAX_PARSING_MARK
      && StonesOk(stones[..], stonesPos, marksPos)
    }

    // The end of load_dict: the quick index of the first layer.
    constructor (ghost es: seq<Entry>, r: array<Le0>, g: array<Ge1>, ids: array<nat>, ghost tops: seq<nat>, n: nat,
                 scores: seq<nat>)
      requires IsTrie(r[..], g[..], es) && HoldsIds(ids[..], IdsOf(es) + tops) && AllRoots(es, n)
      requires g.Length <= ID_LIMIT && r.Length <= WORD
      ensures Valid() && lemmas == es && root == r && nodes == g && splNum == n && psbs == scores
      ensures fresh(splidIndex) && fresh(marks) && fresh(stones) && stonesPos == FIRST_HANDLE && marksPos == 0
    {
      lemmas, root, nodes, idBuf, splNum, psbs := es, r, g, ids, n, scores;
      var index := new nat[n + 1](i => 0);
      splidIndex := index;
      marks := new Mark[MAX_PARSING_MARK](i => Mark(0, 0));
      stones := new Stone[MAX_MILE_STONE](i => Stone(0, 0));
      marksPos, stonesPos := 0, FIRST_HANDLE;
      new;
      hide *;
      FillIndex(es, r, g, n, index);
      Loaded(es, tops);
    }

    lemma Loaded(es: seq<Entry>, tops: seq<nat>)
      requires lemmas == es && IsTrie(root[..], nodes[..], es) && HoldsIds(idBuf[..], IdsOf(es) + tops)
      requires AllRoots(es, splNum)
      requires nodes.Length <= ID_LIMIT && root.Length <= WORD && IndexOk(splidIndex[..], splNum)
      requires marks.Length == MAX_PARSING_MARK && stones.Length == MAX_MILE_STONE && marksPos == 0
      requires stonesPos == FIRST_HANDLE
      ensures Valid()
    {
      hide IsTrie, AllRoots, IndexOk;
      forall k: nat | k < |es|
        ensures IdHeld(idBuf[..], IdsOf(es), k)
      {
        assert IdHeld(idBuf[..], IdsOf(es) + tops, k);
      }
    }

    static method FillIndex(ghost es: seq<Entry>, r: array<Le0>, ghost g: array<Ge1>, n: nat, index: array<nat>)
      requires IsTrie(r[..], g[..], es) && AllRoots(es, n) && index.Length == n + 1
      modifies index
      ensures IndexOk(index[..], n)
    {
      RootIds(r[..], g[..], es, n);
      hide IsTrie, AllRoots, RootId, Groups;
      var lastSplid, lastPos := FULL_START, 0;
      for i := 1 to r.Length
        invariant lastPos == i - 1 && lastSplid == FULL_START + (if i == 1 then 0 else i - 2)
        invariant forall k :: 0 <= k < i - 1 ==> index[k] == k + 1
      {
        for splid := lastSplid to r[i].spl
          invariant forall k :: 0 <= k < i - 1 ==> index[k] == k + 1
        {
          index[splid - FULL_START] := lastPos;
        }
        index[r[i].spl - FULL_START] := i;
        lastSplid := r[i].spl;
        lastPos := i;
      }
      for splid := lastSplid + 1 to n + 1 + FULL_START
        invariant forall k :: 0 <= k < splid - FULL_START ==> index[k] == k + 1
      {
        index[splid - FULL_START] := lastPos + 1;
      }
    }

    // ---- Reading a node's lemmas ----

    // get_lemma_id
    function GetLemmaId(off: nat): nat
      reads this, idBuf
      requires off * ID_SIZE + 2 < idBuf.Length
    {
      ReadId(idBuf[..], off)
    }

    lemma ValidFacts()
      requires Valid()
      ensures IsTrie(root[..], nodes[..], lemmas) && nodes.Length <= ID_LIMIT && root.Length <= WORD
      ensures Ordered(lemmas) && AllRoots(lemmas, splNum) && IndexOk(splidIndex[..], splNum)
      ensures marks.Length == MAX_PARSING_MARK && stones.Length == MAX_MILE_STONE && marksPos <= MAX_PARSING_MARK
      ensures StonesOk(stones[..], stonesPos, marksPos)
    {
      hide AllRoots, IndexOk, StonesOk;
    }

    lemma IdAt(k: nat)
      requires Valid() && k < |lemmas|
      ensures k * ID_SIZE + 2 < idBuf.Length && GetLemmaId(k) == lemmas[k].id == IdsOf(lemmas)[k]
    {
      hide IsTrie, AllRoots, IndexOk, StonesOk;
      assert IdHeld(idBuf[..], IdsOf(lemmas), k);
    }

    // fill_lpi_buffer: a node's own lemmas, as many as there is room for.
    method FillLpi(buf: array<Item>, at: nat, max: nat, v: View, len: nat) returns (n: nat)
      requires Valid() && max > 0 && at + max <= buf.Length && v.homoOff + v.homoNum <= |lemmas|
      modifies buf
      ensures Valid() && n <= max
      ensures buf[at..at + n] == First(max, ToItems(IdsOf(lemmas)[v.homoOff..v.homoOff + v.homoNum], len, psbs))
      ensures forall i :: 0 <= i < buf.Length && !(at <= i < at + n) ==> buf[i] == old(buf[i])
    {
      hide *;
      ghost var want := ToItems(IdsOf(lemmas)[v.homoOff..v.homoOff + v.homoNum], len, psbs);
      ValidFacts();
      WantSize(lemmas, v.homoOff, v.homoNum, len, psbs);
      FirstIs(max, want);
      n := 0;
      var i: nat := 0;
      while i < v.homoNum
        invariant i <= v.homoNum && n == i && n < max && Valid()
        invariant n <= |want| && buf[at..at + n] == want[..n]
        invariant forall j :: 0 <= j < buf.Length && !(at <= j < at + n) ==> buf[j] == old(buf[j])
      {
        IdAt(v.homoOff + i);
        var id := GetLemmaId(v.homoOff + i);
        ItemAt(lemmas, v.homoOff, v.homoNum, len, psbs, i);
        PutItem(buf, at, n, Item(id, len, Psb(psbs, id)), want);
        n := n + 1;
        if n >= max {
          break;
        }
        i := i + 1;
      }
    }

    method PutItem(buf: array<Item>, at: nat, n: nat, x: Item, ghost want: seq<Item>)
      requires at + n < buf.Length && n < |want| && want[n] == x && buf[at..at + n] == want[..n]
      modifies buf
      ensures buf[at..at + n + 1] == want[..n + 1]
      ensures forall j :: 0 <= j < buf.Length && j != at + n ==> buf[j] == old(buf[j])
    {
      buf[at + n] := x;
    }

    // ---- One spelling ----

    // The son with an id, if there is one.
    method SonWith(v: View, spl: nat, ghost d: nat, ghost x: nat, ghost gr: Group)
      returns (found: bool, y: nat, ghost kid: Group)
      requires Valid() && NodeFor(root[..], nodes[..], lemmas, d, x, gr) && v == NodeView(root[..], nodes[..], d, x)
      ensures found ==>
                NodeFor(root[..], nodes[..], lemmas, d + 1, y, kid) && Kids(lemmas, gr, d, Range(spl, 1)) == [kid]
      ensures !found ==> Kids(lemmas, gr, d, Range(spl, 1)) == []
    {
      hide *;
      ValidFacts();
      ghost var l, g, r := root[..], nodes[..], Range(spl, 1);
      NodeOwn(l, g, lemmas, d, x, gr);
      KidsZero(lemmas, gr, d, r);
      var sonPos: nat := 0;
      while sonPos < v.sonNum
        invariant sonPos <= v.sonNum
        invariant KidsFrom(lemmas, gr, d, r, sonPos) == Kids(lemmas, gr, d, r)
      {
        SonOf(l, g, lemmas, d, x, gr, sonPos);
        KidsStep(l, g, lemmas, d, x, gr, r, sonPos);
        SonSplIs(g, v, sonPos);
        InOne(SonSpl(g, v, sonPos), spl);
        if nodes[v.sonOff + sonPos].spl == spl {
          return true, v.sonOff + sonPos, SonGroup(lemmas, gr, d, sonPos);
        }
        sonPos := sonPos + 1;
      }
      KidsEnd(lemmas, gr, d, r);
      found, y, kid := false, 0, gr;
    }

    // The son of root for a full id.
    lemma RootOf(splid: nat)
      requires Valid() && FULL_START <= splid < FULL_START + splNum
      ensures var k: nat := splid - FULL_START;
              && k < splidIndex.Length && splidIndex[k] == 1 + k && 1 + k < root.Length
              && k < Groups(lemmas, 0, |lemmas|, 0)
              && NodeFor(root[..], nodes[..], lemmas, 1, 1 + k, RootGroup(lemmas, k))
              && Sub(lemmas, 0, |lemmas|, 0, Range(splid, 1), 0) == [RootGroup(lemmas, k)]
    {
      hide IsTrie, StonesOk, Groups, NodeFor, RootId, Sub, RootGroup;
      RootSon(root[..], nodes[..], lemmas, splid - FULL_START);
      RootsCover(lemmas, splNum, Range(splid, 1), 0);
    }

    // try_extend: whether a lemma has exactly these spelling ids and this id.
    method TryExtend(splids: seq<nat>, idLemma: nat) returns (found: bool)
      requires Valid() && (splids != [] ==> FULL_START <= splids[0] < FULL_START + splNum)
      ensures found <==> HasLemma(lemmas, splids, idLemma)
    {
      hide *;
      if |splids| == 0 {
        NoEmptyLemma(idLemma);
        assert splids == [];
        return false;
      }
      var has, v;
      ghost var x, gr;
      has, v, x, gr := Walk(splids);
      ValidFacts();
      if !has {
        FoundNone(lemmas, splids, idLemma);
        return false;
      }
      NodeOwn(root[..], nodes[..], lemmas, |splids|, x, gr);
      FoundAt(lemmas, splids, gr, idLemma);
      found := OwnsId(v, idLemma);
    }

    // Follows the ids down to a node.
    method Walk(splids: seq<nat>) returns (has: bool, v: View, ghost x: nat, ghost gr: Group)
      requires Valid() && splids != [] && FULL_START <= splids[0] < FULL_START + splNum
      ensures Ordered(lemmas)
      ensures !has ==> Cover(lemmas, Singles(splids), |splids|) == []
      ensures has ==>
                && Cover(lemmas, Singles(splids), |splids|) == [gr]
                && NodeFor(root[..], nodes[..], lemmas, |splids|, x, gr)
      ensures has ==>
                && (if |splids| == 1 then x < root.Length else x < nodes.Length)
                && v == NodeView(root[..], nodes[..], |splids|, x)
    {
      hide *;
      ValidFacts();
      ghost var l, g, rs := root[..], nodes[..], Singles(splids);
      RootOf(splids[0]);
      var at := splidIndex[splids[0] - FULL_START];
      x, gr := at, RootGroup(lemmas, splids[0] - FULL_START);
      v := Look0(root[at]);
      CoverOne(lemmas, rs);
      NodeLooks(l, g, 1, x);
      for pos: nat := 1 to |splids|
        invariant if pos == 1 then x < |l| else x < |g|
        invariant NodeFor(l, g, lemmas, pos, x, gr) && v == NodeView(l, g, pos, x)
        invariant Cover(lemmas, rs, pos) == [gr]
      {
        var y;
        ghost var kid;
        NodeOwn(l, g, lemmas, pos, x, gr);
        CoverNext(lemmas, rs, pos, gr);
        has, y, kid := SonWith(v, splids[pos], pos, x, gr);
        if !has {
          CoverDies(lemmas, rs, pos + 1, |splids|);
          return;
        }
        x, gr := y, kid;
        NodeOwn(l, g, lemmas, pos + 1, x, gr);
        NodeLooks(l, g, pos + 1, x);
        v := Look1(nodes[y]);
      }
      has := true;
    }

    // Whether a node owns an id.
    method OwnsId(v: View, idLemma: nat) returns (found: bool)
      requires Valid() && v.homoOff + v.homoNum <= |lemmas|
      ensures found <==> idLemma in IdsOf(lemmas)[v.homoOff..v.homoOff + v.homoNum]
    {
      hide *;
      ghost var ids := IdsOf(lemmas)[v.homoOff..v.homoOff + v.homoNum];
      found := false;
      var homoPos: nat := 0;
      while homoPos < v.homoNum
        invariant homoPos <= v.homoNum && idLemma !in ids[..homoPos]
      {
        IdAt(v.homoOff + homoPos);
        assert ids[homoPos] == IdsOf(lemmas)[v.homoOff + homoPos];
        if GetLemmaId(v.homoOff + homoPos) == idLemma {
          return true;
        }
        homoPos := homoPos + 1;
      }
      assert ids == ids[..homoPos];
    }

    lemma NoEmptyLemma(id: nat)
      requires Valid()
      ensures !HasLemma(lemmas, [], id)
    {
      hide IsTrie, AllRoots, IndexOk, StonesOk;
      ValidFacts();
      forall i | 0 <= i < |lemmas|
        ensures lemmas[i].splids != []
      {
        assert OkEntry(lemmas[i]);
      }
    }

    // ---- The batch lookup ----

    // The first layer: the sons of root in a range.
    method FirstLayer(r: Range, to: array<nat>) returns (num: nat)
      requires Valid() && OkRange(r, splNum) && to.Length == MAX_EXTENDBUF_LEN && to != idBuf && to != splidIndex
      modifies to
      ensures Valid() && num <= MAX_EXTENDBUF_LEN
      ensures Denote(root[..], nodes[..], lemmas, 1, to[..num],
                First(MAX_EXTENDBUF_LEN, Sub(lemmas, 0, |lemmas|, 0, r, 0)))
    {
      hide *;
      ValidFacts();
      RootRange(r);
      ghost var lo, hi := r.start - FULL_START, r.start + r.num - FULL_START;
      var sonStart, sonEnd := splidIndex[r.start - FULL_START], splidIndex[r.start + r.num - FULL_START];
      num := 0;
      var sonPos := sonStart;
      while sonPos < sonEnd
        invariant sonStart <= sonPos <= sonEnd && num <= MAX_EXTENDBUF_LEN && Valid()
        invariant num == if sonPos - sonStart <= MAX_EXTENDBUF_LEN then sonPos - sonStart else MAX_EXTENDBUF_LEN
        invariant forall i :: 0 <= i < num ==> to[i] == sonStart + i
      {
        if num < MAX_EXTENDBUF_LEN {
          to[num] := sonPos;
          num := num + 1;
        }
        RootSplAt(r, sonPos - 1);
        if root[sonPos].spl + 1 >= r.start + r.num {
          sonPos := sonPos + 1;
          break;
        }
        sonPos := sonPos + 1;
      }
      assert sonPos == sonEnd;
      RootRun(root[..], nodes[..], lemmas, splNum, r, to[..num], MAX_EXTENDBUF_LEN);
    }

    // The index entries of a range, and its lists of sons.
    lemma RootRange(r: Range)
      requires Valid() && OkRange(r, splNum)
      ensures r.start + r.num - FULL_START < splidIndex.Length && r.start + r.num - FULL_START < root.Length
      ensures splidIndex[r.start - FULL_START] == r.start - FULL_START + 1
      ensures splidIndex[r.start + r.num - FULL_START] == r.start + r.num - FULL_START + 1
      ensures r.start + r.num - FULL_START + 1 <= root.Length && r.num > 0
      ensures FULL_START <= r.start && r.start + r.num <= FULL_START + splNum
    {
      ValidFacts();
      hide IsTrie, StonesOk, Ordered, RootId, Groups;
      RootSonCount(root[..], nodes[..], lemmas);
    }

    lemma RootSplAt(r: Range, k: nat)
      requires Valid() && k < splNum
      ensures k + 1 < root.Length && root[k + 1].spl == FULL_START + k
    {
      ValidFacts();
      hide IsTrie, StonesOk, Ordered, RootId, Groups, AllRoots;
      RootIds(root[..], nodes[..], lemmas, splNum);
    }

    // A layer further: the sons in a range of all nodes of a layer.
    method NextLayer(fr: array<nat>, frNum: nat, d: nat, r: Range, to: array<nat>, ghost gs: seq<Group>)
      returns (num: nat)
      requires Valid() && to.Length == fr.Length == MAX_EXTENDBUF_LEN && frNum <= MAX_EXTENDBUF_LEN
      requires to != idBuf && to != splidIndex && to != fr && d > 0
      requires AllIn(lemmas, gs) && Denote(root[..], nodes[..], lemmas, d, fr[..frNum], gs)
      modifies to
      ensures Valid() && num <= MAX_EXTENDBUF_LEN
      ensures Denote(root[..], nodes[..], lemmas, d + 1, to[..num], First(MAX_EXTENDBUF_LEN, AllKids(lemmas, gs, d, r)))
    {
      hide *;
      ghost var l, g, xs := root[..], nodes[..], fr[..frNum];
      num := 0;
      KidsOfNone(l, g, lemmas, gs, d, r, to[..0]);
      DenoteSize(l, g, lemmas, d, xs, gs);
      for frPos: nat := 0 to frNum
        invariant Valid() && num <= MAX_EXTENDBUF_LEN && AllIn(lemmas, gs[..frPos]) && fr[..frNum] == xs
        invariant Denote(l, g, lemmas, d + 1, to[..num], First(MAX_EXTENDBUF_LEN, AllKids(lemmas, gs[..frPos], d, r)))
      {
        DenoteAt(l, g, lemmas, d, xs, gs, frPos);
        var x := fr[frPos];
        NodeOwn(l, g, lemmas, d, x, gs[frPos]);
        NodeLooks(l, g, d, x);
        var v := if d == 1 then Look0(root[x]) else Look1(nodes[x]);
        ghost var hs := AllKids(lemmas, gs[..frPos], d, r);
        num := AddKids(v, r, to, num, d, x, gs[frPos], hs);
        AllKidsMore(lemmas, gs, frPos, d, r);
        AllInFirst(lemmas, gs, frPos + 1);
      }
      assert gs[..frNum] == gs;
    }

    // The sons of one node in a range, with the early stop that rising ids allow.
    // One node more in the buffer, if there is room.
    method PushKid(y: nat, to: array<nat>, num0: nat, ghost d: nat, ghost gs: seq<Group>, ghost kid: Group)
      returns (num: nat)
      requires Valid() && to.Length == MAX_EXTENDBUF_LEN && to != idBuf && to != splidIndex && num0 <= MAX_EXTENDBUF_LEN
      requires NodeFor(root[..], nodes[..], lemmas, d, y, kid)
      requires Denote(root[..], nodes[..], lemmas, d, to[..num0], First(MAX_EXTENDBUF_LEN, gs))
      modifies to
      ensures Valid() && num <= MAX_EXTENDBUF_LEN
      ensures Denote(root[..], nodes[..], lemmas, d, to[..num], First(MAX_EXTENDBUF_LEN, gs + [kid]))
    {
      hide *;
      ghost var before := to[..num0];
      num := num0;
      if num < MAX_EXTENDBUF_LEN {
        to[num] := y;
        num := num + 1;
      }
      Pushed(root[..], nodes[..], lemmas, d, before, to[..num], gs, y, kid, MAX_EXTENDBUF_LEN);
    }

    // One son, if its id lies in the range; `past` says that no later one does.
    method AddSon(v: View, r: Range, to: array<nat>, num0: nat, sonPos: nat, ghost d: nat, ghost x: nat,
                  ghost gr: Group, ghost hs: seq<Group>, ghost ks0: seq<Group>)
      returns (num: nat, past: bool, ghost ks: seq<Group>)
      requires sonPos < v.sonNum && Left(lemmas, gr, d, r, sonPos, ks0)
      requires Valid() && to.Length == MAX_EXTENDBUF_LEN && to != idBuf && to != splidIndex && num0 <= MAX_EXTENDBUF_LEN
      requires Viewed(root[..], nodes[..], lemmas, d, x, gr, v)
      requires Denote(root[..], nodes[..], lemmas, d + 1, to[..num0], First(MAX_EXTENDBUF_LEN, hs + ks0))
      modifies to
      ensures if past then NoneLeft(lemmas, gr, d, r, ks) else Left(lemmas, gr, d, r, sonPos + 1, ks)
      ensures num <= MAX_EXTENDBUF_LEN && Valid()
      ensures Denote(root[..], nodes[..], lemmas, d + 1, to[..num], First(MAX_EXTENDBUF_LEN, hs + ks))
    {
      hide *;
      ValidFacts();
      ghost var l, g, next := root[..], nodes[..], sonPos + 1;
      ViewedFacts(l, g, lemmas, d, x, gr, v);
      LeftFacts(lemmas, gr, d, r, sonPos, ks0);
      num, ks := num0, ks0;
      SonOf(l, g, lemmas, d, x, gr, sonPos);
      KidsStep(l, g, lemmas, d, x, gr, r, sonPos);
      SonSplIs(g, v, sonPos);
      var spl := nodes[v.sonOff + sonPos].spl;
      InIs(spl, r);
      if r.start <= spl < r.start + r.num {
        ghost var kid := SonGroup(lemmas, gr, d, sonPos);
        num := PushKid(v.sonOff + sonPos, to, num, d + 1, hs + ks, kid);
        Regroup(hs, ks, [kid]);
        Regroup(ks, [kid], KidsFrom(lemmas, gr, d, r, next));
        ks := ks + [kid];
      }
      past := spl + 1 >= r.start + r.num;
      assert ks + [] == ks;
      IsLeft(lemmas, gr, d, r, if past then sonPos else next, ks, past);
    }

    method AddKids(v: View, r: Range, to: array<nat>, num0: nat, ghost d: nat, ghost x: nat, ghost gr: Group,
                   ghost hs: seq<Group>)
      returns (num: nat)
      requires Valid() && to.Length == MAX_EXTENDBUF_LEN && to != idBuf && to != splidIndex && num0 <= MAX_EXTENDBUF_LEN
      requires NodeFor(root[..], nodes[..], lemmas, d, x, gr) && v == NodeView(root[..], nodes[..], d, x)
      requires Denote(root[..], nodes[..], lemmas, d + 1, to[..num0], First(MAX_EXTENDBUF_LEN, hs))
      modifies to
      ensures Valid() && num <= MAX_EXTENDBUF_LEN
      ensures Denote(root[..], nodes[..], lemmas, d + 1, to[..num],
                First(MAX_EXTENDBUF_LEN, hs + Kids(lemmas, gr, d, r)))
    {
      hide *;
      ValidFacts();
      ghost var l, g := root[..], nodes[..];
      NodeOwn(l, g, lemmas, d, x, gr);
      KidsZero(lemmas, gr, d, r);
      num := num0;
      var sonPos: nat := 0;
      ghost var ks: seq<Group> := [];
      assert hs + ks == hs && ks + KidsFrom(lemmas, gr, d, r, 0) == Kids(lemmas, gr, d, r);
      IsLeft(lemmas, gr, d, r, 0, ks, false);
      IsViewed(l, g, lemmas, d, x, gr, v);
      while sonPos < v.sonNum
        invariant sonPos <= v.sonNum && num <= MAX_EXTENDBUF_LEN && Valid() && Left(lemmas, gr, d, r, sonPos, ks)
        invariant Denote(root[..], nodes[..], lemmas, d + 1, to[..num], First(MAX_EXTENDBUF_LEN, hs + ks))
      {
        var past;
        num, past, ks := AddSon(v, r, to, num, sonPos, d, x, gr, hs, ks);
        if past {
          NoneLeftIs(lemmas, gr, d, r, ks);
          return;
        }
        sonPos := sonPos + 1;
      }
      LeftFacts(lemmas, gr, d, r, sonPos, ks);
      KidsEnd(lemmas, gr, d, r);
      assert ks + [] == ks;
    }

    // The lemmas of a list of nodes, as many as there is room for.
    method FillAll(to: array<nat>, toNum: nat, d: nat, buf: array<Item>, max: nat, ghost gs: seq<Group>)
      returns (num: nat)
      requires Valid() && toNum <= to.Length && d > 0 && 0 < max <= buf.Length && AllIn(lemmas, gs)
      requires Denote(root[..], nodes[..], lemmas, d, to[..toNum], gs)
      modifies buf
      ensures Valid() && num <= max && buf[..num] == First(max, ToItems(Items(lemmas, gs, d), d, psbs))
    {
      hide *;
      ghost var l, g, xs := root[..], nodes[..], to[..toNum];
      DenoteSize(l, g, lemmas, d, xs, gs);
      num := 0;
      NoItemsYet(lemmas, gs, d, max, psbs);
      for pos: nat := 0 to toNum
        invariant Valid() && num < max && AllIn(lemmas, gs[..pos])
        invariant buf[..num] == ToItems(Items(lemmas, gs[..pos], d), d, psbs)
      {
        DenoteAt(l, g, lemmas, d, xs, gs, pos);
        var x := to[pos];
        NodeOwn(l, g, lemmas, d, x, gs[pos]);
        NodeLooks(l, g, d, x);
        var v := if d == 1 then Look0(root[x]) else Look1(nodes[x]);
        ghost var before := buf[..num];
        var n := FillLpi(buf, num, max - num, v, d);
        ghost var more := buf[num..num + n];
        assert buf[..num + n] == before + more;
        AllInFirst(lemmas, gs, pos + 1);
        ItemsGrow(lemmas, gs, pos, d, max, psbs, before, more);
        FirstIs(max - num, ToItems(IdsOf(lemmas)[v.homoOff..v.homoOff + v.homoNum], d, psbs));
        FirstIs(max, ToItems(Items(lemmas, gs[..pos + 1], d), d, psbs));
        num := num + v.homoNum;
        if num >= max {
          num := max;
          ItemsEnough(lemmas, gs, pos + 1, d, max, psbs);
          return;
        }
      }
      assert gs[..toNum] == gs;
      FirstIs(max, ToItems(Items(lemmas, gs, d), d, psbs));
    }

    // get_lpis: the lemmas whose ids lie in the ranges of the given half and full ids.
    method GetLpis(h: Halves, splids: seq<nat>, buf: array<Item>, max: nat) returns (num: nat)
      requires Valid() && 0 < max <= buf.Length && OkHalves(h)
      requires OkIds(h, splids, splNum)
      modifies buf
      ensures Valid() && num <= max
      ensures splids == [] || |splids| > MAX_LEMMA_SIZE ==> num == 0
      ensures 0 < |splids| <= MAX_LEMMA_SIZE ==>
                Ordered(lemmas)
                && buf[..num] == First(max, ToItems(LpiIds(lemmas, h, splids, MAX_EXTENDBUF_LEN), |splids|, psbs))
    {
      if |splids| > MAX_LEMMA_SIZE || |splids| == 0 {
        return 0;
      }
      hide *;
      ValidFacts();
      ghost var cap: nat := MAX_EXTENDBUF_LEN;
      ghost var l, g, cs := root[..], nodes[..], Capped(lemmas, Ranges(h, splids), |splids|, cap);
      var to, toNum := Layers(h, splids);
      LayerFacts(l, g, lemmas, h, splids, |splids|, to[..toNum]);
      DenoteSize(l, g, lemmas, |splids|, to[..toNum], cs);
      if toNum == 0 {
        LpiNone(lemmas, h, splids, cap, max, psbs);
        assert buf[..0] == [];
        return 0;
      }
      ghost var gs := cs;
      if |splids| == 1 && IsHalfYunmu(splids[0]) {
        toNum := 1;
        gs := cs[..1];
        AllInFirst(lemmas, cs, 1);
        DenoteFirst(l, g, lemmas, |splids|, to[..], cs);
      }
      num := FillAll(to, toNum, |splids|, buf, max, gs);
      LpiIs(lemmas, h, splids, cap, gs);
    }

    // The nodes of the last layer, found layer by layer between two buffers.
    method Layers(h: Halves, splids: seq<nat>) returns (to: array<nat>, toNum: nat)
      requires Valid() && OkHalves(h) && splids != [] && OkIds(h, splids, splNum)
      ensures fresh(to) && toNum <= to.Length
      ensures LayerIs(root[..], nodes[..], lemmas, h, splids, |splids|, to[..toNum])
    {
      hide *;
      ghost var l, g, es := root[..], nodes[..], lemmas;
      var fr := NewBuf();
      to := NewBuf();
      toNum := FirstCapped(h, splids, to);
      for splPos: nat := 1 to |splids|
        invariant Valid() && fresh(fr) && fresh(to) && fr != to && toNum <= to.Length
        invariant fr.Length == to.Length == MAX_EXTENDBUF_LEN
        invariant l == root[..] && g == nodes[..] && to != idBuf && to != splidIndex && fr != idBuf && fr != splidIndex
        invariant LayerIs(l, g, es, h, splids, splPos, to[..toNum])
      {
        if toNum == 0 {
          DeadEnd(l, g, es, h, splids, splPos, to[..toNum]);
          return;
        }
        var frNum := toNum;
        fr, to := to, fr;
        toNum := NextCapped(fr, frNum, splPos, h, splids, to);
      }
    }

    static method NewBuf() returns (buf: array<nat>)
      ensures fresh(buf) && buf.Length == MAX_EXTENDBUF_LEN
    {
      buf := new nat[MAX_EXTENDBUF_LEN](i => 0);
    }

    method FirstCapped(h: Halves, splids: seq<nat>, to: array<nat>) returns (num: nat)
      requires Valid() && OkHalves(h) && splids != [] && OkIds(h, splids, splNum)
      requires to.Length == MAX_EXTENDBUF_LEN && to != idBuf && to != splidIndex
      modifies to
      ensures Valid() && num <= to.Length && LayerIs(root[..], nodes[..], lemmas, h, splids, 1, to[..num])
    {
      FirstOk(h, splids, splNum);
      hide *;
      ValidFacts();
      num := FirstLayer(RangeOf(h, splids[0]), to);
      CappedOne(lemmas, Ranges(h, splids), MAX_EXTENDBUF_LEN);
      IsLayer(root[..], nodes[..], lemmas, h, splids, 1, to[..num]);
    }

    method NextCapped(fr: array<nat>, frNum: nat, d: nat, h: Halves, splids: seq<nat>, to: array<nat>)
      returns (num: nat)
      requires Valid() && to.Length == fr.Length == MAX_EXTENDBUF_LEN && frNum <= fr.Length
      requires to != idBuf && to != splidIndex && to != fr && OkHalves(h) && 0 < d < |splids|
      requires LayerIs(root[..], nodes[..], lemmas, h, splids, d, fr[..frNum])
      modifies to
      ensures Valid() && num <= to.Length && LayerIs(root[..], nodes[..], lemmas, h, splids, d + 1, to[..num])
    {
      LayerFacts(root[..], nodes[..], lemmas, h, splids, d, fr[..frNum]);
      hide *;
      ghost var rs, cap: nat := Ranges(h, splids), MAX_EXTENDBUF_LEN;
      RangesAt(h, splids, d);
      CappedMore(lemmas, rs, d, cap);
      num := NextLayer(fr, frNum, d, RangeOf(h, splids[d]), to, Capped(lemmas, rs, d, cap));
      IsLayer(root[..], nodes[..], lemmas, h, splids, d + 1, to[..num]);
    }

    // ---- The incremental lookup ----

    // One son's lemmas behind the items found so far.
    method AddOwn(y: nat, d: nat, buf: array<Item>, max: nat, num0: nat, ghost hs: seq<Group>, ghost kid: Group)
      returns (num: nat)
      requires Valid() && max <= buf.Length && num0 <= max && d > 0 && AllIn(lemmas, hs)
      requires NodeFor(root[..], nodes[..], lemmas, d, y, kid)
      requires buf[..num0] == First(max, ToItems(Items(lemmas, hs, d), d, psbs))
      modifies buf
      ensures Valid() && num <= max && AllIn(lemmas, hs + [kid])
      ensures buf[..num] == First(max, ToItems(Items(lemmas, hs + [kid], d), d, psbs))
    {
      hide *;
      NodeOwn(root[..], nodes[..], lemmas, d, y, kid);
      NodeLooks(root[..], nodes[..], d, y);
      ghost var before := buf[..num0];
      num := num0;
      if num < max {
        var v := if d == 1 then Look0(root[y]) else Look1(nodes[y]);
        var n := FillLpi(buf, num, max - num, v, d);
        assert buf[..num] == before && buf[..num + n] == buf[..num] + buf[num..num + n];
        ItemsPush(lemmas, hs, kid, d, max, psbs, before, buf[num..num + n]);
        num := num + n;
      } else {
        ItemsPush(lemmas, hs, kid, d, max, psbs, before, []);
      }
    }

    // The sons of a node in a range: a run of neighbours, found with the early stop that rising ids allow.
    method ScanSons(v: View, d: nat, r: Range, buf: array<Item>, max: nat, num0: nat, ghost x: nat, ghost gr: Group,
                    ghost hs: seq<Group>)
      returns (num: nat, foundStart: nat, foundNum: nat)
      requires Valid() && max <= buf.Length && num0 <= max && AllIn(lemmas, hs) && d > 0
      requires NodeFor(root[..], nodes[..], lemmas, d, x, gr) && v == NodeView(root[..], nodes[..], d, x)
      requires buf[..num0] == First(max, ToItems(Items(lemmas, hs, d + 1), d + 1, psbs))
      modifies buf
      ensures Valid() && num <= max && gr.a < gr.m <= |lemmas| && AllIn(lemmas, hs + Kids(lemmas, gr, d, r))
      ensures buf[..num] == First(max, ToItems(Items(lemmas, hs + Kids(lemmas, gr, d, r), d + 1), d + 1, psbs))
      ensures foundNum <= r.num && (foundNum > 0 ==> v.sonOff + foundStart + foundNum <= nodes.Length)
      ensures Denote(root[..], nodes[..], lemmas, d + 1, RunOf(Mark(v.sonOff + foundStart, foundNum)),
                Kids(lemmas, gr, d, r))
    {
      hide *;
      ValidFacts();
      ghost var l, g, es, ps := root[..], nodes[..], lemmas, psbs;
      NodeOwn(l, g, es, d, x, gr);
      KidsZero(es, gr, d, r);
      num, foundStart, foundNum := num0, 0, 0;
      var sonPos: nat := 0;
      ghost var ks: seq<Group> := [];
      NothingYet(l, g, es, d + 1, v.sonOff);
      assert hs + ks == hs && ks + KidsFrom(es, gr, d, r, 0) == Kids(es, gr, d, r);
      while sonPos < v.sonNum
        invariant sonPos <= v.sonNum && num <= max && Valid() && AllIn(es, hs + ks)
        invariant ks + KidsFrom(es, gr, d, r, sonPos) == Kids(es, gr, d, r) && |ks| == foundNum
        invariant Denote(l, g, es, d + 1, RunOf(Mark(v.sonOff + foundStart, foundNum)), ks)
        invariant buf[..num] == First(max, ToItems(Items(es, hs + ks, d + 1), d + 1, ps))
        invariant foundNum > 0 ==> foundStart + foundNum == sonPos
        invariant foundNum > 0 ==> r.start + foundNum <= SonSpl(g, v, sonPos - 1) + 1 <= r.start + r.num
      {
        SonOf(l, g, es, d, x, gr, sonPos);
        KidsStep(l, g, es, d, x, gr, r, sonPos);
        SonSplIs(g, v, sonPos);
        if foundNum > 0 {
          SonsRise(l, g, es, d, x, gr, sonPos - 1, sonPos);
        }
        var spl := nodes[v.sonOff + sonPos].spl;
        InIs(spl, r);
        ghost var next := sonPos + 1;
        if r.start <= spl < r.start + r.num {
          ghost var kid := SonGroup(es, gr, d, sonPos);
          num := AddOwn(v.sonOff + sonPos, d + 1, buf, max, num, hs + ks, kid);
          if foundNum == 0 {
            foundStart := sonPos;
            RunMoves(l, g, es, d + 1, ks, v.sonOff + sonPos);
          }
          foundNum := foundNum + 1;
          RunGrows(l, g, es, d + 1, Mark(v.sonOff + foundStart, foundNum - 1), ks, kid);
          Regroup(hs, ks, [kid]);
          Regroup(ks, [kid], KidsFrom(es, gr, d, r, next));
          ks := ks + [kid];
        }
        if spl + 1 >= r.start + r.num {
          assert ks + [] == ks;
          return;
        }
        sonPos := sonPos + 1;
      }
      KidsEnd(es, gr, d, r);
      assert ks + [] == ks;
    }

    // Adds the mark of one node's run of sons to the mile stone under construction.
    method AddMark(off: nat, num: nat, retVal: nat, ghost m0: nat, ghost d: nat, ghost hs: seq<Group>,
                   ghost ks: seq<Group>)
      requires Valid() && stonesPos < MAX_MILE_STONE && marksPos < MAX_PARSING_MARK && m0 <= marksPos
      requires marksPos == m0 + retVal
      requires num > 0 && num < BYTE && off + num <= nodes.Length
      requires retVal > 0 ==> stones[stonesPos].start == m0
      requires Denote(root[..], nodes[..], lemmas, d, Flat(marks[m0..marksPos]), hs)
      requires Denote(root[..], nodes[..], lemmas, d, RunOf(Mark(off, num)), ks)
      modifies this`marksPos, marks, stones
      ensures Valid() && marksPos == old(marksPos) + 1 && stones[stonesPos].start == m0
      ensures Denote(root[..], nodes[..], lemmas, d, Flat(marks[m0..marksPos]), hs + ks)
      ensures forall i :: 0 <= i < old(marksPos) ==> marks[i] == old(marks[i])
      ensures forall i :: 0 <= i < stones.Length && i != stonesPos ==> stones[i] == old(stones[i])
    {
      hide *;
      ValidFacts();
      StoreExact(off, num, nodes.Length);
      ghost var before := marks[m0..marksPos];
      if retVal == 0 {
        StartStone();
      }
      PutMark(off, num);
      OneBehind(before, marks[..], m0, marksPos - 1);
      assert marks[m0..marksPos] == marks[..][m0..marksPos];
      FlatMore(before, Mark(off, num));
      DenotePlus(root[..], nodes[..], lemmas, d, Flat(before), hs, RunOf(Mark(off, num)), ks);
    }

    method StartStone()
      requires Valid() && stonesPos < MAX_MILE_STONE
      modifies stones
      ensures Valid() && stones[stonesPos].start == marksPos
      ensures forall i :: 0 <= i < stones.Length && i != stonesPos ==> stones[i] == old(stones[i])
    {
      hide IsTrie, AllRoots, IndexOk, IdHeld;
      stones[stonesPos] := stones[stonesPos].(start := marksPos);
    }

    method PutMark(off: nat, num: nat)
      requires Valid() && marksPos < MAX_PARSING_MARK
      modifies this`marksPos, marks
      ensures Valid() && marksPos == old(marksPos) + 1 && marks[old(marksPos)] == Mark(off % ID_LIMIT, num % BYTE)
      ensures forall i :: 0 <= i < old(marksPos) ==> marks[i] == old(marks[i])
    {
      hide IsTrie, AllRoots, IndexOk, IdHeld;
      marks[marksPos] := Mark(off % ID_LIMIT, num % BYTE);
      marksPos := marksPos + 1;
    }

    method FinishStone(retVal: nat, ghost m0: nat) returns (handle: nat)
      requires Valid() && stonesPos < MAX_MILE_STONE && marksPos == m0 + retVal && stones[stonesPos].start == m0
      requires forall k: nat :: FIRST_HANDLE <= k < stonesPos ==> stones[k].start + stones[k].num <= m0
      modifies this`stonesPos, stones
      ensures Valid() && handle == old(stonesPos) && stonesPos == handle + 1 && stones[handle] == Stone(m0, retVal)
      ensures forall i :: 0 <= i < stones.Length && i != handle ==> stones[i] == old(stones[i])
    {
      hide IsTrie, AllRoots, IndexOk, IdHeld;
      stones[stonesPos] := stones[stonesPos].(num := retVal);
      handle := stonesPos;
      stonesPos := stonesPos + 1;
    }

    // A mile stone under construction: its marks so far are the nodes of the groups hs.
    ghost predicate Partial(m0: nat, retVal: nat, d: nat, hs: seq<Group>)
      reads this, root, nodes, idBuf, splidIndex, marks, stones
    {
      && Valid() && stonesPos < MAX_MILE_STONE && marksPos == m0 + retVal && d > 1 && AllIn(lemmas, hs)
      && (retVal > 0 ==> stones[stonesPos].start == m0)
      && Denote(root[..], nodes[..], lemmas, d, Flat(marks[m0..marksPos]), hs)
    }

    lemma PartialFacts(m0: nat, retVal: nat, d: nat, hs: seq<Group>)
      requires Partial(m0, retVal, d, hs)
      ensures Valid() && stonesPos < MAX_MILE_STONE && marksPos == m0 + retVal && d > 1 && AllIn(lemmas, hs)
      ensures marksPos <= marks.Length && stonesPos < stones.Length && marks.Length == MAX_PARSING_MARK
      ensures Ordered(lemmas)
      ensures retVal > 0 ==> stones[stonesPos].start == m0
      ensures Denote(root[..], nodes[..], lemmas, d, Flat(marks[m0..marksPos]), hs)
    {
      ValidFacts();
      hide Valid, Denote, Flat, Ordered, IsTrie, AllRoots, IndexOk;
    }

    lemma IsPartial(m0: nat, retVal: nat, d: nat, hs: seq<Group>)
      requires Valid() && stonesPos < MAX_MILE_STONE && marksPos == m0 + retVal && d > 1 && AllIn(lemmas, hs)
      requires marksPos <= marks.Length && stonesPos < stones.Length && (retVal > 0 ==> stones[stonesPos].start == m0)
      requires Denote(root[..], nodes[..], lemmas, d, Flat(marks[m0..marksPos]), hs)
      ensures Partial(m0, retVal, d, hs)
    {
      hide Valid, Denote, Flat;
    }

    // One node extended: its sons in the range, their items and their mark.
    method ExtendNode(v: View, d: nat, r: Range, buf: array<Item>, max: nat, num0: nat, retVal0: nat,
                      ghost m0: nat, ghost x: nat, ghost gr: Group, ghost hs: seq<Group>)
                        returns (num: nat, retVal: nat)
      requires Partial(m0, retVal0, d + 1, hs) && max <= buf.Length && num0 <= max && r.num < BYTE
      requires NodeFor(root[..], nodes[..], lemmas, d, x, gr) && v == NodeView(root[..], nodes[..], d, x)
      requires gr.a < gr.m <= |lemmas| && d > 0 && Filled(lemmas, psbs, buf[..num0], max, d + 1, hs)
      requires marksPos + (if Kids(lemmas, gr, d, r) == [] then 0 else 1) <= MAX_PARSING_MARK
      modifies this`marksPos, marks, stones, buf
      ensures Partial(m0, retVal, d + 1, hs + Kids(lemmas, gr, d, r))
      ensures retVal == retVal0 + (if Kids(lemmas, gr, d, r) == [] then 0 else 1)
      ensures num <= max && Filled(lemmas, psbs, buf[..num], max, d + 1, hs + Kids(lemmas, gr, d, r))
      ensures forall i :: 0 <= i < m0 + retVal0 ==> marks[i] == old(marks[i])
      ensures forall i :: 0 <= i < stones.Length && i != stonesPos ==> stones[i] == old(stones[i])
    {
      hide *;
      PartialFacts(m0, retVal0, d + 1, hs);
      FilledIs(lemmas, psbs, buf[..num0], max, d + 1, hs);
      var foundStart, foundNum;
      num, foundStart, foundNum := ScanSons(v, d, r, buf, max, num0, x, gr, hs);
      ghost var ks := Kids(lemmas, gr, d, r);
      FilledIs(lemmas, psbs, buf[..num], max, d + 1, hs + ks);
      DenoteSize(root[..], nodes[..], lemmas, d + 1, RunOf(Mark(v.sonOff + foundStart, foundNum)), ks);
      RunSize(Mark(v.sonOff + foundStart, foundNum));
      retVal := retVal0;
      if foundNum > 0 {
        AddMark(v.sonOff + foundStart, foundNum, retVal, m0, d + 1, hs, ks);
        retVal := retVal + 1;
      } else {
        assert hs + ks == hs;
      }
      ValidFacts();
      IsPartial(m0, retVal, d + 1, hs + ks);
    }

    // The handle is in use and its marks are the nodes of exactly the groups in the ranges.
    ghost predicate HandleMeans(k: nat, rs: seq<Range>)
      reads this, root, nodes, marks, stones
    {
      && FIRST_HANDLE <= k < stonesPos <= stones.Length && stones[k].start + stones[k].num <= marksPos <= marks.Length
      && Means(root[..], nodes[..], lemmas, marks[..], stones[k], rs)
    }

    lemma HandleFacts(k: nat, rs: seq<Range>)
      requires HandleMeans(k, rs)
      ensures FIRST_HANDLE <= k < stonesPos <= stones.Length && Ordered(lemmas) && 0 < |rs| <= MAX_LEMMA_SIZE
      ensures AllIn(lemmas, Cover(lemmas, rs, |rs|)) && stones[k].start + stones[k].num <= marksPos <= marks.Length
      ensures Denote(root[..], nodes[..], lemmas, |rs|,
                Flat(marks[..][stones[k].start..stones[k].start + stones[k].num]),
                     Cover(lemmas, rs, |rs|))
    {
      hide Means, Cover, Denote, Ordered, AllIn, Flat;
      MeansFacts(root[..], nodes[..], lemmas, marks[..], stones[k], rs);
    }

    lemma IsHandle(k: nat, rs: seq<Range>)
      requires Valid() && FIRST_HANDLE <= k < stonesPos && k < stones.Length
      requires Means(root[..], nodes[..], lemmas, marks[..], stones[k], rs)
      ensures HandleMeans(k, rs)
    {
      hide IsTrie, AllRoots, IndexOk, IdHeld, Means;
    }

    // Handles in use keep their meaning while only marks and stones behind them are written.
    twostate lemma HandlesStay()
      requires root == old(root) && nodes == old(nodes) && marks == old(marks) && stones == old(stones)
      requires lemmas == old(lemmas)
      requires root[..] == old(root[..]) && nodes[..] == old(nodes[..])
      requires marksPos >= old(marksPos) && stonesPos >= old(stonesPos) && stonesPos <= stones.Length
      requires marksPos <= marks.Length
      requires forall i :: 0 <= i < old(marksPos) && i < marks.Length ==> marks[i] == old(marks[i])
      requires forall i :: 0 <= i < old(stonesPos) && i < stones.Length ==> stones[i] == old(stones[i])
      ensures forall k: nat, q: seq<Range> :: old(HandleMeans(k, q)) ==> HandleMeans(k, q)
    {
      hide Means;
      forall k: nat, q: seq<Range> | old(HandleMeans(k, q))
        ensures HandleMeans(k, q)
      {
        MeansStays(root[..], nodes[..], lemmas, old(marks[..]), marks[..], stones[k], q);
      }
    }

    // extend_dict0: the sons of root in a range. Of a one-letter final only its own full id gives items.
    method ExtendDict0(splid: nat, r: Range, cached: bool, buf: array<Item>, max: nat) returns (handle: nat, num: nat)
      requires Valid() && OkRange(r, splNum) && r.num < BYTE && max <= buf.Length
      modifies this`marksPos, this`stonesPos, marks, stones, buf
      ensures Valid() && Ordered(lemmas) && num <= max && (cached ==> num == 0)
      ensures !cached ==> Filled(lemmas, psbs, buf[..num], max, 1, Front(IsHalfYunmu(splid), Cover(lemmas, [r], 1)))
      ensures handle == if old(stonesPos) < MAX_MILE_STONE && old(marksPos) < MAX_PARSING_MARK then old(stonesPos)
                else 0
      ensures stonesPos == old(stonesPos) + (if handle == 0 then 0 else 1)
      ensures marksPos == old(marksPos) + (if handle == 0 then 0 else 1)
      ensures handle > 0 ==> HandleMeans(handle, [r])
      ensures forall k: nat, q: seq<Range> :: old(HandleMeans(k, q)) ==> HandleMeans(k, q)
    {
      hide *;
      ValidFacts();
      RootRange(r);
      FirstStone();
      handle := 0;
      if stonesPos < MAX_MILE_STONE && marksPos < MAX_PARSING_MARK {
        handle := RootMark(r, splidIndex[r.start - FULL_START]);
      }
      num := RootItems(splid, r, cached, buf, max);
    }

    method RootItems(splid: nat, r: Range, cached: bool, buf: array<Item>, max: nat) returns (num: nat)
      requires Valid() && OkRange(r, splNum) && max <= buf.Length
      modifies buf
      ensures Valid() && Ordered(lemmas) && num <= max && (cached ==> num == 0)
      ensures !cached ==> Filled(lemmas, psbs, buf[..num], max, 1, Front(IsHalfYunmu(splid), Cover(lemmas, [r], 1)))
    {
      hide *;
      ValidFacts();
      RootRange(r);
      ghost var l, g, es, ps, yunmu := root[..], nodes[..], lemmas, psbs, IsHalfYunmu(splid);
      ghost var gs := RunGroups(es, splNum, r);
      OneRange(es, r);
      RunIn(es, splNum, r);
      var sonStart, sonEnd := splidIndex[r.start - FULL_START], splidIndex[r.start + r.num - FULL_START];
      num := 0;
      NothingFilled(es, ps, gs, yunmu, buf[..0], max);
      var sonPos := sonStart;
      ghost var i: nat := 0;
      while sonPos < sonEnd
        invariant sonPos == sonStart + i <= sonEnd && num <= max && Valid() && (cached ==> num == 0)
        invariant !cached ==> Filled(es, ps, buf[..num], max, 1, Front(yunmu, gs[..i]))
      {
        RunAt(l, g, es, splNum, r, i);
        FrontMore(yunmu, gs, i);
        if !cached {
          var needLpi := !(IsHalfYunmu(splid) && sonPos != sonStart);
          if needLpi {
            FilledFacts(es, ps, buf[..num], max, 1, Front(yunmu, gs[..i]));
            num := AddOwn(sonPos, 1, buf, max, num, Front(yunmu, gs[..i]), gs[i]);
            FilledIs(es, ps, buf[..num], max, 1, Front(yunmu, gs[..i]) + [gs[i]]);
          }
        }
        RootSplAt(r, sonPos - 1);
        ghost var next := i + 1;
        i := next;
        if root[sonPos].spl + 1 >= r.start + r.num {
          sonPos := sonPos + 1;
          break;
        }
        sonPos := sonPos + 1;
      }
      assert sonPos == sonEnd && gs[..i] == gs;
    }

    lemma FirstStone()
      requires Valid()
      ensures stonesPos >= FIRST_HANDLE > 0
    {
      hide IsTrie, AllRoots, IndexOk, IdHeld;
    }

    // The mark and the mile stone of a whole run of root sons.
    method RootMark(r: Range, sonStart: nat) returns (handle: nat)
      requires Valid() && OkRange(r, splNum) && r.num < BYTE && stonesPos < MAX_MILE_STONE
      requires marksPos < MAX_PARSING_MARK
      requires sonStart == r.start - FULL_START + 1
      modifies this`marksPos, this`stonesPos, marks, stones
      ensures Valid() && handle == old(stonesPos) && stonesPos == handle + 1 && marksPos == old(marksPos) + 1
      ensures HandleMeans(handle, [r])
      ensures forall k: nat, q: seq<Range> :: old(HandleMeans(k, q)) ==> HandleMeans(k, q)
    {
      hide *;
      ValidFacts();
      RootRange(r);
      StonesBelow(marksPos);
      FirstStone();
      ghost var l, g, es, m0 := root[..], nodes[..], lemmas, marksPos;
      ghost var gs := RunGroups(es, splNum, r);
      OneRange(es, r);
      forall i | 0 <= i < r.num
        ensures NodeFor(l, g, es, 1, sonStart + i, gs[i])
      {
        RunAt(l, g, es, splNum, r, i);
      }
      RunOfNodes(l, g, es, Mark(sonStart, r.num), gs);
      StoreRoot(sonStart, r.num, root.Length);
      FlatMore([], Mark(sonStart, r.num));
      FlatNone();
      StartStone();
      PutMark(sonStart, r.num);
      handle := FinishStone(1, m0);
      OneBehind([], marks[..], m0, m0);
      IsMeans(l, g, es, marks[..], stones[handle], [r]);
      IsHandle(handle, [r]);
      HandlesStay();
    }

    // reset_milestones: the stones from a handle on are given back, with their marks.
    method ResetMilestones(fromStep: nat, fromHandle: nat)
      requires Valid()
      modifies this`marksPos, this`stonesPos
      ensures Valid()
      ensures fromStep == 0 ==> stonesPos == FIRST_HANDLE && marksPos == 0
      ensures fromStep > 0 && FIRST_HANDLE <= fromHandle < old(stonesPos) ==>
                stonesPos == fromHandle && marksPos == stones[fromHandle].start <= old(marksPos)
      ensures fromStep > 0 && !(FIRST_HANDLE <= fromHandle < old(stonesPos)) ==>
                stonesPos == old(stonesPos) && marksPos == old(marksPos)
      ensures forall k: nat, q: seq<Range> :: k < stonesPos && old(HandleMeans(k, q)) ==> HandleMeans(k, q)
    {
      hide IsTrie, AllRoots, IndexOk, IdHeld;
      if fromStep == 0 {
        marksPos := 0;
        stonesPos := FIRST_HANDLE;
      } else if 0 < fromHandle < stonesPos {
        stonesPos := fromHandle;
        marksPos := stones[fromHandle].start;
      }
    }

    // The node of number q extended.
    method ExtendAt(x: nat, d: nat, r: Range, buf: array<Item>, max: nat, num0: nat, retVal0: nat,
                    ghost m0: nat, ghost q: nat, ghost gs: seq<Group>) returns (num: nat, retVal: nat)
      requires AllIn(lemmas, gs) && q < |gs| && d > 0 && AllIn(lemmas, gs[..q])
      requires NodeFor(root[..], nodes[..], lemmas, d, x, gs[q])
      requires Partial(m0, retVal0, d + 1, AllKids(lemmas, gs[..q], d, r))
      requires retVal0 == Lively(lemmas, gs[..q], d, r) && m0 + Lively(lemmas, gs, d, r) <= MAX_PARSING_MARK
      requires max <= buf.Length && num0 <= max && r.num < BYTE
      requires Filled(lemmas, psbs, buf[..num0], max, d + 1, AllKids(lemmas, gs[..q], d, r))
      modifies this`marksPos, marks, stones, buf
      ensures AllIn(lemmas, gs[..q + 1]) && Partial(m0, retVal, d + 1, AllKids(lemmas, gs[..q + 1], d, r))
      ensures retVal == Lively(lemmas, gs[..q + 1], d, r)
      ensures num <= max && Filled(lemmas, psbs, buf[..num], max, d + 1, AllKids(lemmas, gs[..q + 1], d, r))
      ensures forall i :: 0 <= i < m0 && i < marks.Length ==> marks[i] == old(marks[i])
      ensures forall i :: 0 <= i < stones.Length && i != stonesPos ==> stones[i] == old(stones[i])
    {
      hide *;
      ghost var hs := AllKids(lemmas, gs[..q], d, r);
      PartialFacts(m0, retVal0, d + 1, hs);
      NodeOwn(root[..], nodes[..], lemmas, d, x, gs[q]);
      NodeLooks(root[..], nodes[..], d, x);
      var v := if d == 1 then Look0(root[x]) else Look1(nodes[x]);
      AllKidsMore(lemmas, gs, q, d, r);
      AllInFirst(lemmas, gs, q + 1);
      LivelyMore(lemmas, gs, q, d, r);
      num, retVal := ExtendNode(v, d, r, buf, max, num0, retVal0, m0, x, gs[q], hs);
    }

    // All nodes of all marks of a mile stone extended, one after another.
    method ExtendMarks(st: Stone, d: nat, r: Range, buf: array<Item>, max: nat, ghost gs: seq<Group>)
      returns (num: nat, retVal: nat)
      requires Valid() && stonesPos < MAX_MILE_STONE && st.start + st.num <= marksPos && d > 0 && AllIn(lemmas, gs)
      requires marksPos + Lively(lemmas, gs, d, r) <= MAX_PARSING_MARK && max <= buf.Length && r.num < BYTE
      requires marks.Length == MAX_PARSING_MARK
      requires Denote(root[..], nodes[..], lemmas, d, Flat(marks[st.start..st.start + st.num]), gs)
      modifies this`marksPos, marks, stones, buf
      ensures Partial(old(marksPos), retVal, d + 1, AllKids(lemmas, gs, d, r))
      ensures num <= max && Filled(lemmas, psbs, buf[..num], max, d + 1, AllKids(lemmas, gs, d, r))
      ensures retVal == Lively(lemmas, gs, d, r)
      ensures forall i :: 0 <= i < old(marksPos) ==> marks[i] == old(marks[i])
      ensures forall i :: 0 <= i < stones.Length && i != stonesPos ==> stones[i] == old(stones[i])
    {
      hide *;
      ghost var l, g, es, m0 := root[..], nodes[..], lemmas, marksPos;
      ghost var ms := marks[st.start..st.start + st.num];
      ghost var xs := Flat(ms);
      num, retVal := 0, 0;
      DenoteSize(l, g, es, d, xs, gs);
      StartsPartial(m0, d, r, gs, buf[..0], max);
      var hPos: nat := 0;
      ghost var q: nat := 0;
      FlatAll(ms);
      while hPos < st.num
        invariant hPos <= st.num && q == |Flat(ms[..hPos])| <= |xs| && num <= max && AllIn(es, gs[..q])
        invariant retVal == Lively(es, gs[..q], d, r)
        invariant Partial(m0, retVal, d + 1, AllKids(es, gs[..q], d, r)) && l == root[..] && g == nodes[..]
        invariant Filled(es, psbs, buf[..num], max, d + 1, AllKids(es, gs[..q], d, r))
        invariant marks[st.start..st.start + st.num] == ms && forall i :: 0 <= i < m0 ==> marks[i] == old(marks[i])
        invariant forall i :: 0 <= i < stones.Length && i != stonesPos ==> stones[i] == old(stones[i])
      {
        var mark := marks[st.start + hPos];
        assert mark == ms[hPos];
        ghost var q0 := q;
        FlatNext(ms, hPos);
        var extPos: nat := 0;
        while extPos < mark.num
          invariant extPos <= mark.num && q == q0 + extPos <= |xs| && num <= max && AllIn(es, gs[..q])
          invariant retVal == Lively(es, gs[..q], d, r)
          invariant Partial(m0, retVal, d + 1, AllKids(es, gs[..q], d, r)) && l == root[..] && g == nodes[..]
          invariant Filled(es, psbs, buf[..num], max, d + 1, AllKids(es, gs[..q], d, r))
          invariant forall i :: 0 <= i < m0 ==> marks[i] == old(marks[i])
          invariant forall i :: 0 <= i < stones.Length && i != stonesPos ==> stones[i] == old(stones[i])
        {
          FlatAt(ms, hPos, extPos);
          DenoteAt(l, g, es, d, xs, gs, q);
          num, retVal := ExtendAt(mark.off + extPos, d, r, buf, max, num, retVal, m0, q, gs);
          ghost var next := q + 1;
          q := next;
          extPos := extPos + 1;
        }
        var nextPos := hPos + 1;
        hPos := nextPos;
      }
      assert ms[..hPos] == ms && gs[..q] == gs;
    }

    lemma StartsPartial(m0: nat, d: nat, r: Range, gs: seq<Group>, items: seq<Item>, max: nat)
      requires Valid() && stonesPos < MAX_MILE_STONE && marksPos == m0 && d > 0 && AllIn(lemmas, gs) && items == []
      ensures AllIn(lemmas, gs[..0]) && AllKids(lemmas, gs[..0], d, r) == [] && Lively(lemmas, gs[..0], d, r) == 0
      ensures Partial(m0, 0, d + 1, []) && Filled(lemmas, psbs, items, max, d + 1, [])
    {
      hide Valid;
      ValidFacts();
      assert marks[m0..marksPos] == [];
    }

    lemma StonesBelow(m0: nat)
      requires Valid() && marksPos == m0
      ensures forall k: nat :: FIRST_HANDLE <= k < stonesPos ==> stones[k].start + stones[k].num <= m0
    {
      hide IsTrie, AllRoots, IndexOk, IdHeld;
    }

    // extend_dict1 and extend_dict2, which differ only in the array that holds the nodes they start from:
    // all sons in the range of all nodes of a mile stone.
    method ExtendFrom(fromHandle: nat, r: Range, buf: array<Item>, max: nat, ghost rs: seq<Range>, d: nat)
      returns (handle: nat, num: nat)
      requires Valid() && FIRST_HANDLE <= fromHandle < stonesPos < MAX_MILE_STONE && r.num < BYTE
      requires max <= buf.Length && d == |rs| < MAX_LEMMA_SIZE
      requires HandleMeans(fromHandle, rs)
      requires Ordered(lemmas) && rs != []
      requires marksPos + Lively(lemmas, Cover(lemmas, rs, |rs|), |rs|, r) <= MAX_PARSING_MARK
      modifies this`marksPos, this`stonesPos, marks, stones, buf
      ensures Valid() && num <= max && (handle == 0 || handle == old(stonesPos))
      ensures stonesPos == old(stonesPos) + (if handle == 0 then 0 else 1)
      ensures Ordered(lemmas) && marksPos == old(marksPos) + Lively(lemmas, Cover(lemmas, rs, |rs|), |rs|, r)
      ensures handle == 0 <==> Cover(lemmas, rs + [r], |rs| + 1) == []
      ensures handle > 0 ==> HandleMeans(handle, rs + [r])
      ensures Ordered(lemmas) && Filled(lemmas, psbs, buf[..num], max, d + 1, Cover(lemmas, rs + [r], |rs| + 1))
      ensures forall k: nat, q: seq<Range> :: old(HandleMeans(k, q)) ==> HandleMeans(k, q)
    {
      hide *;
      ValidFacts();
      HandleFacts(fromHandle, rs);
      StonesBelow(marksPos);
      ghost var gs := Cover(lemmas, rs, |rs|);
      ghost var m0, l, g, es := marksPos, root[..], nodes[..], lemmas;
      ghost var st := stones[fromHandle];
      assert marks[..][st.start..st.start + st.num] == marks[st.start..st.start + st.num];
      var retVal;
      FirstStone();
      CoverMore(es, rs, r);
      LivelyNone(es, gs, d, r);
      num, retVal := ExtendMarks(stones[fromHandle], d, r, buf, max, gs);
      PartialFacts(m0, retVal, d + 1, AllKids(es, gs, d, r));
      handle := 0;
      if retVal > 0 {
        handle := FinishStone(retVal, m0);
        assert marks[..][m0..m0 + retVal] == marks[m0..marksPos];
        IsMeans(l, g, es, marks[..], stones[handle], rs + [r]);
        IsHandle(handle, rs + [r]);
      }
      HandlesStay();
    }

    // A first extension and one more for each id: what a search does while the user types.
    method ExtendAll(h: Halves, splids: seq<nat>, buf: array<Item>, max: nat) returns (handle: nat, num: nat)
      requires Valid() && OkHalves(h) && OkIds(h, splids, splNum) && 0 < |splids| <= MAX_LEMMA_SIZE && max <= buf.Length
      requires NarrowIds(h, splids)
      requires Ordered(lemmas) && stonesPos + |splids| <= MAX_MILE_STONE
      requires marksPos + MarkNeed(lemmas, Ranges(h, splids), |splids|) <= MAX_PARSING_MARK
      modifies this`marksPos, this`stonesPos, marks, stones, buf
      ensures Valid() && num <= max && (handle == 0 ==> Cover(lemmas, Ranges(h, splids), |splids|) == [])
      ensures handle > 0 ==> HandleMeans(handle, Ranges(h, splids))
      ensures Uncapped(lemmas, Ranges(h, splids), MAX_EXTENDBUF_LEN) ==>
                buf[..num] == First(max, ToItems(LpiIds(lemmas, h, splids, MAX_EXTENDBUF_LEN), |splids|, psbs))
    {
      hide *;
      ChainOk(h, splids, splNum);
      ghost var es, ps, rs := lemmas, psbs, Ranges(h, splids);
      NeedOne(es, rs);
      FirstStone();
      handle, num := ExtendDict0(splids[0], RangeOf(h, splids[0]), false, buf, max);
      OneOf(es, rs);
      ChainStarts(es, ps, h, splids, buf[..num], max);
      var pos: nat := 1;
      while pos < |splids|
        invariant 1 <= pos <= |splids| && Valid() && num <= max && stonesPos + (|splids| - pos) <= MAX_MILE_STONE
        invariant handle > 0 && HandleMeans(handle, rs[..pos])
        invariant marksPos + MarkNeed(es, rs, |splids|) <= MAX_PARSING_MARK + MarkNeed(es, rs, pos)
        invariant Chained(es, ps, h, splids, buf[..num], max, pos)
      {
        RangeFits(h, splids, pos);
        HandleFacts(handle, rs[..pos]);
        Step(es, h, splids, pos);
        handle, num := ExtendFrom(handle, RangeOf(h, splids[pos]), buf, max, rs[..pos], pos);
        var nextPos := pos + 1;
        if handle == 0 {
          CoverDies(es, rs, nextPos, |splids|);
          ChainDies(es, ps, h, splids, buf[..0], max);
          return 0, 0;
        }
        ChainGoesOn(es, ps, h, splids, buf[..num], max, nextPos);
        pos := nextPos;
      }
      assert rs[..pos] == rs;
      ChainIs(es, ps, h, splids, buf[..num], max);
    }
  }

  // Node x stands for the group, and v is what it says.
  ghost predicate Viewed(l: seq<Le0>, g: seq<Ge1>, es: seq<Entry>, d: nat, x: nat, gr: Group, v: View) {
    && NodeFor(l, g, es, d, x, gr) && v == NodeView(l, g, d, x) && d > 0 && gr.a < gr.m <= |es|
    && v.sonNum == Groups(es, gr.a + Own(es, gr.a, gr.m, d - 1), gr.m, d)
  }

  lemma ViewedFacts(l: seq<Le0>, g: seq<Ge1>, es: seq<Entry>, d: nat, x: nat, gr: Group, v: View)
    requires Viewed(l, g, es, d, x, gr, v)
    ensures NodeFor(l, g, es, d, x, gr) && v == NodeView(l, g, d, x) && d > 0 && gr.a < gr.m <= |es|
    ensures v.sonNum == Groups(es, gr.a + Own(es, gr.a, gr.m, d - 1), gr.m, d)
  {
    hide NodeFor, Groups, Own;
  }

  lemma IsViewed(l: seq<Le0>, g: seq<Ge1>, es: seq<Entry>, d: nat, x: nat, gr: Group, v: View)
    requires NodeFor(l, g, es, d, x, gr) && v == NodeView(l, g, d, x) && d > 0 && gr.a < gr.m <= |es|
    requires v.sonNum == Groups(es, gr.a + Own(es, gr.a, gr.m, d - 1), gr.m, d)
    ensures Viewed(l, g, es, d, x, gr, v)
  {
    hide NodeFor, Groups, Own;
  }

  // ks are the sons in the range before number i.
  ghost predicate Left(es: seq<Entry>, gr: Group, d: nat, r: Range, i: nat, ks: seq<Group>) {
    && gr.a < gr.m <= |es| && d > 0 && i <= Groups(es, gr.a + Own(es, gr.a, gr.m, d - 1), gr.m, d)
    && ks + KidsFrom(es, gr, d, r, i) == Kids(es, gr, d, r)
  }

  ghost predicate NoneLeft(es: seq<Entry>, gr: Group, d: nat, r: Range, ks: seq<Group>) {
    gr.a < gr.m <= |es| && d > 0 && ks == Kids(es, gr, d, r)
  }

  lemma LeftFacts(es: seq<Entry>, gr: Group, d: nat, r: Range, i: nat, ks: seq<Group>)
    requires Left(es, gr, d, r, i, ks)
    ensures gr.a < gr.m <= |es| && d > 0 && i <= Groups(es, gr.a + Own(es, gr.a, gr.m, d - 1), gr.m, d)
    ensures ks + KidsFrom(es, gr, d, r, i) == Kids(es, gr, d, r)
  {
    hide Groups, Own, KidsFrom, Kids;
  }

  lemma NoneLeftIs(es: seq<Entry>, gr: Group, d: nat, r: Range, ks: seq<Group>)
    requires NoneLeft(es, gr, d, r, ks)
    ensures gr.a < gr.m <= |es| && d > 0 && ks == Kids(es, gr, d, r)
  {
    hide Kids;
  }

  lemma IsLeft(es: seq<Entry>, gr: Group, d: nat, r: Range, i: nat, ks: seq<Group>, none: bool)
    requires gr.a < gr.m <= |es| && d > 0 && i <= Groups(es, gr.a + Own(es, gr.a, gr.m, d - 1), gr.m, d)
    requires if none then ks == Kids(es, gr, d, r) else ks + KidsFrom(es, gr, d, r, i) == Kids(es, gr, d, r)
    ensures if none then NoneLeft(es, gr, d, r, ks) else Left(es, gr, d, r, i, ks)
  {
    hide Groups, Own, KidsFrom, Kids;
  }

  // The ranges of the ids fit the marks' eight bits.
  ghost predicate NarrowIds(h: Halves, splids: seq<nat>)
    requires OkHalves(h)
  {
    forall i :: 0 <= i < |splids| ==> RangeOf(h, splids[i]).num < BYTE
  }

  lemma ChainOk(h: Halves, splids: seq<nat>, n: nat)
    requires OkHalves(h) && OkIds(h, splids, n) && NarrowIds(h, splids) && splids != []
    ensures OkRange(RangeOf(h, splids[0]), n) && RangeOf(h, splids[0]).num < BYTE
    ensures |Ranges(h, splids)| == |splids| && Ranges(h, splids)[0] == RangeOf(h, splids[0])
  {
    hide RangeOf;
  }

  lemma RangeFits(h: Halves, splids: seq<nat>, i: nat)
    requires OkHalves(h) && NarrowIds(h, splids) && i < |splids| <= MAX_LEMMA_SIZE
    ensures RangeOf(h, splids[i]).num < BYTE && i < MAX_LEMMA_SIZE
  {
    hide RangeOf;
  }

  // How many marks a chain of extensions writes.
  ghost function MarkNeed(es: seq<Entry>, rs: seq<Range>, n: nat): nat
    requires Ordered(es) && n <= |rs|
  {
    if n == 0 then 0
    else if n == 1 then 1
    else MarkNeed(es, rs, n - 1) + Lively(es, Cover(es, rs, n - 1), n - 1, rs[n - 1])
  }

  // No layer has more groups than the cap.
  ghost predicate Uncapped(es: seq<Entry>, rs: seq<Range>, cap: nat)
    requires Ordered(es)
  {
    forall k: nat :: 0 < k <= |rs| ==> |Cover(es, rs, k)| <= cap
  }

  lemma NeedOne(es: seq<Entry>, rs: seq<Range>)
    requires Ordered(es) && rs != []
    ensures MarkNeed(es, rs, 1) == 1 && MarkNeed(es, rs, |rs|) >= 1
  {
    hide Ordered, Cover;
    NeedGrows(es, rs, 1, |rs|);
  }

  lemma {:induction false} NeedGrows(es: seq<Entry>, rs: seq<Range>, m: nat, n: nat)
    requires Ordered(es) && m <= n <= |rs|
    ensures MarkNeed(es, rs, m) <= MarkNeed(es, rs, n)
    decreases n
  {
    hide Ordered, Cover, Lively, GroupIn;
    if m < n {
      NeedGrows(es, rs, m, n - 1);
    }
  }

  // A one-letter final keeps only its first group.
  ghost function Front(yunmu: bool, gs: seq<Group>): seq<Group> { if yunmu then First(1, gs) else gs }

  lemma FrontMore(yunmu: bool, gs: seq<Group>, i: nat)
    requires i < |gs|
    ensures Front(yunmu, gs[..i + 1]) == if yunmu && i > 0 then Front(yunmu, gs[..i])
              else Front(yunmu, gs[..i]) + [gs[i]]
  {}

  lemma OneRange(es: seq<Entry>, r: Range)
    requires Ordered(es)
    ensures |[r]| == 1 <= MAX_LEMMA_SIZE && Cover(es, [r], 1) == Sub(es, 0, |es|, 0, r, 0)
  {
    hide Sub, Ordered, GroupIn;
  }

  lemma RunIn(es: seq<Entry>, n: nat, r: Range)
    requires AllRoots(es, n) && OkRange(r, n)
    ensures AllIn(es, Sub(es, 0, |es|, 0, r, 0))
  {
    hide AllRoots, Groups;
    SubAllIn(es, 0, |es|, 0, r, 0);
  }

  lemma NothingFilled(es: seq<Entry>, psbs: seq<nat>, gs: seq<Group>, yunmu: bool, items: seq<Item>, max: nat)
    requires items == []
    ensures Filled(es, psbs, items, max, 1, Front(yunmu, gs[..0]))
  {}

  lemma FilledFacts(es: seq<Entry>, psbs: seq<nat>, items: seq<Item>, max: nat, d: nat, hs: seq<Group>)
    requires Filled(es, psbs, items, max, d, hs)
    ensures d > 0 && AllIn(es, hs) && items == First(max, ToItems(Items(es, hs, d), d, psbs))
  {
    hide Items, ToItems;
  }

  lemma RunOfNodes(l: seq<Le0>, g: seq<Ge1>, es: seq<Entry>, m: Mark, gs: seq<Group>)
    requires |gs| == m.num && forall i :: 0 <= i < m.num ==> NodeFor(l, g, es, 1, m.off + i, gs[i])
    ensures Denote(l, g, es, 1, RunOf(m), gs)
  {
    hide NodeFor;
  }

  lemma StoreRoot(off: nat, num: nat, n: nat)
    requires 0 < num < BYTE && off + num <= n <= WORD
    ensures Mark(off % ID_LIMIT, num % BYTE) == Mark(off, num)
  {}

  lemma OneBehind(before: seq<Mark>, s: seq<Mark>, from: nat, pos: nat)
    requires from <= pos < |s| && |before| == pos - from && forall i :: from <= i < pos ==> s[i] == before[i - from]
    ensures s[from..pos + 1] == before + [s[pos]]
  {}

  lemma FlatNone()
    ensures Flat([]) == [] && forall s: seq<nat> :: [] + s == s
  {}

  lemma OneOf(es: seq<Entry>, rs: seq<Range>)
    requires Ordered(es) && rs != []
    ensures rs[..1] == [rs[0]] && Cover(es, [rs[0]], 1) == Cover(es, rs, 1)
  {
    CoverPrefix(es, [rs[0]], rs, 1);
  }

  lemma StepRanges(h: Halves, splids: seq<nat>, pos: nat)
    requires OkHalves(h) && pos < |splids|
    ensures var rs := Ranges(h, splids);
            && |rs| == |splids| && |rs[..pos]| == pos && rs[..pos] + [RangeOf(h, splids[pos])] == rs[..pos + 1]
            && rs[pos] == RangeOf(h, splids[pos])
  {
    hide RangeOf;
  }

  lemma NeedNext(es: seq<Entry>, rs: seq<Range>, pos: nat)
    requires Ordered(es) && 0 < pos < |rs|
    ensures MarkNeed(es, rs, pos + 1) ==
              MarkNeed(es, rs, pos) + Lively(es, Cover(es, rs, pos), pos, rs[pos]) <= MarkNeed(es, rs, |rs|)
  {
    NeedGrows(es, rs, pos + 1, |rs|);
    hide Ordered, Cover;
  }

  // One id more: its range, its cover and its marks.
  lemma Step(es: seq<Entry>, h: Halves, splids: seq<nat>, pos: nat)
    requires Ordered(es) && OkHalves(h) && 0 < pos < |splids|
    ensures var rs := Ranges(h, splids);
            && |rs| == |splids| && rs[..pos] + [RangeOf(h, splids[pos])] == rs[..pos + 1] && |rs[..pos]| == pos
            && Cover(es, rs[..pos], pos) == Cover(es, rs, pos)
            && Cover(es, rs[..pos] + [RangeOf(h, splids[pos])], pos + 1) == Cover(es, rs, pos + 1)
            && MarkNeed(es, rs, pos + 1) ==
                 MarkNeed(es, rs, pos) + Lively(es, Cover(es, rs, pos), pos, rs[pos]) <= MarkNeed(es, rs, |splids|)
            && rs[pos] == RangeOf(h, splids[pos])
  {
    hide *;
    StepRanges(h, splids, pos);
    var rs := Ranges(h, splids);
    NeedNext(es, rs, pos);
    CoverOfFront(es, rs, pos);
    CoverOfFront(es, rs, pos + 1);
  }

  lemma CoverOfFront(es: seq<Entry>, rs: seq<Range>, d: nat)
    requires Ordered(es) && 0 < d <= |rs|
    ensures Cover(es, rs[..d], d) == Cover(es, rs, d)
  {
    hide *;
    assert rs[..d][..d] == rs[..d];
    CoverPrefix(es, rs[..d], rs, d);
  }

  // The items of the layer of the first pos ids.
  ghost predicate Chained(es: seq<Entry>, psbs: seq<nat>, h: Halves, splids: seq<nat>, items: seq<Item>, max: nat,
                          pos: nat) {
    && Ordered(es) && OkHalves(h) && 0 < pos <= |splids|
    && var c := Cover(es, Ranges(h, splids), pos);
       Filled(es, psbs, items, max, pos, if pos == 1 then Front(IsHalfYunmu(splids[0]), c) else c)
  }

  lemma ChainStarts(es: seq<Entry>, psbs: seq<nat>, h: Halves, splids: seq<nat>, items: seq<Item>, max: nat)
    requires Ordered(es) && OkHalves(h) && splids != []
    requires Filled(es, psbs, items, max, 1, Front(IsHalfYunmu(splids[0]), Cover(es, Ranges(h, splids), 1)))
    ensures Chained(es, psbs, h, splids, items, max, 1)
  {
    hide Ordered, Cover, Ranges, Filled;
  }

  lemma ChainGoesOn(es: seq<Entry>, psbs: seq<nat>, h: Halves, splids: seq<nat>, items: seq<Item>, max: nat, pos: nat)
    requires Ordered(es) && OkHalves(h) && 1 < pos <= |splids|
    requires Filled(es, psbs, items, max, pos, Cover(es, Ranges(h, splids), pos))
    ensures Chained(es, psbs, h, splids, items, max, pos)
  {
    hide Ordered, Cover, Ranges, Filled;
  }

  lemma ChainDies(es: seq<Entry>, psbs: seq<nat>, h: Halves, splids: seq<nat>, items: seq<Item>, max: nat)
    requires Ordered(es) && OkHalves(h) && splids != [] && items == [] && Cover(es, Ranges(h, splids), |splids|) == []
    ensures Uncapped(es, Ranges(h, splids), MAX_EXTENDBUF_LEN) ==>
              items == First(max, ToItems(LpiIds(es, h, splids, MAX_EXTENDBUF_LEN), |splids|, psbs))
  {
    var rs := Ranges(h, splids);
    if Uncapped(es, rs, MAX_EXTENDBUF_LEN) {
      CappedIsCover(es, rs, |splids|, MAX_EXTENDBUF_LEN);
    }
    hide Ordered, Cover, Capped, Uncapped, Ranges;
  }

  // The items of the last layer are those the batch lookup finds.
  lemma ChainIs(es: seq<Entry>, psbs: seq<nat>, h: Halves, splids: seq<nat>, items: seq<Item>, max: nat)
    requires Chained(es, psbs, h, splids, items, max, |splids|)
    ensures Ordered(es) && OkHalves(h) && splids != []
    ensures Uncapped(es, Ranges(h, splids), MAX_EXTENDBUF_LEN) ==>
              items == First(max, ToItems(LpiIds(es, h, splids, MAX_EXTENDBUF_LEN), |splids|, psbs))
  {
    var rs := Ranges(h, splids);
    if Uncapped(es, rs, MAX_EXTENDBUF_LEN) {
      CappedIsCover(es, rs, |splids|, MAX_EXTENDBUF_LEN);
    }
    hide Ordered, Cover, Capped, Uncapped, Ranges;
  }

  // ---- What the batch lookup finds ----

  // Under the cap, and unless it is a lone one-letter final: exactly the lemmas with an id in each range.
  lemma LpiExact(es: seq<Entry>, h: Halves, splids: seq<nat>, cap: nat)
    requires Ordered(es) && OkHalves(h) && splids != [] && Uncapped(es, Ranges(h, splids), cap)
    requires !(|splids| == 1 && IsHalfYunmu(splids[0]))
    ensures LpiIds(es, h, splids, cap) == Sel(es, 0, |es|, Ranges(h, splids))
  {
    hide Ordered, Cover, Capped, Sel;
    CappedIsCover(es, Ranges(h, splids), |splids|, cap);
    CoverFinds(es, Ranges(h, splids));
  }

  lemma LpiFirst(es: seq<Entry>, h: Halves, id: nat, cap: nat)
    requires Ordered(es) && OkHalves(h) && IsHalfYunmu(id)
    ensures AllIn(es, First(1, Capped(es, [RangeOf(h, id)], 1, cap)))
    ensures LpiIds(es, h, [id], cap) == Items(es, First(1, Capped(es, [RangeOf(h, id)], 1, cap)), 1)
  {
    assert Ranges(h, [id]) == [RangeOf(h, id)];
    hide Ordered, Capped, Items, RangeOf, Ranges;
  }

  // Of a run of groups the first is that of the run's first id alone.
  lemma RunFront(es: seq<Entry>, n: nat, r: Range, cap: nat)
    requires AllRoots(es, n) && OkRange(r, n) && cap > 0
    ensures OkRange(Range(r.start, 1), n)
    ensures First(1, First(cap, Sub(es, 0, |es|, 0, r, 0))) == Sub(es, 0, |es|, 0, Range(r.start, 1), 0)
  {
    hide AllRoots, Groups, RootGroup, Sub;
    var gs := RunGroups(es, n, r);
    var one := RunGroups(es, n, Range(r.start, 1));
    assert First(1, First(cap, gs)) == one;
  }

  // A lone one-letter final: exactly the lemmas of its first full id.
  lemma LpiYunmu(es: seq<Entry>, n: nat, h: Halves, id: nat, cap: nat)
    requires Ordered(es) && OkHalves(h) && IsHalfYunmu(id) && cap > 0 && AllRoots(es, n) && OkRange(RangeOf(h, id), n)
    ensures LpiIds(es, h, [id], cap) == Sel(es, 0, |es|, [Range(RangeOf(h, id).start, 1)])
  {
    hide *;
    var r := RangeOf(h, id);
    LpiFirst(es, h, id, cap);
    CappedOne(es, [r], cap);
    RunFront(es, n, r, cap);
    OneRange(es, Range(r.start, 1));
    CoverFinds(es, [Range(r.start, 1)]);
  }

  // A range of one full id keeps at most one group of a cluster.
  lemma {:induction false} SubFew(es: seq<Entry>, a: nat, b: nat, level: nat, r: Range, i: nat)
    requires Ordered(es) && Cluster(es, a, b, level) && i <= Groups(es, a, b, level) && r.num <= 1
    ensures |Sub(es, a, b, level, r, i)| <= 1
    decreases Groups(es, a, b, level) - i
  {
    hide Groups, StartOf, Ordered, Own;
    if i < Groups(es, a, b, level) {
      StartNext(es, a, b, level, i);
      SubFew(es, a, b, level, r, i + 1);
      if In(Id(es[StartOf(es, a, b, level, i)], level), r) {
        SubPast(es, a, b, level, r, i, i + 1);
      }
    }
  }

  lemma {:induction false} SubPast(es: seq<Entry>, a: nat, b: nat, level: nat, r: Range, i: nat, j: nat)
    requires Ordered(es) && Cluster(es, a, b, level) && i < j <= Groups(es, a, b, level) && r.num <= 1
    requires StartOf(es, a, b, level, i) < |es| && In(Id(es[StartOf(es, a, b, level, i)], level), r)
    ensures Sub(es, a, b, level, r, j) == []
    decreases Groups(es, a, b, level) - j
  {
    hide Groups, StartOf, Ordered, Own;
    if j < Groups(es, a, b, level) {
      StartNext(es, a, b, level, j);
      GroupsRise(es, a, b, level, i, j);
      SubPast(es, a, b, level, r, i, j + 1);
    }
  }

  // Full ids lead along one path.
  lemma {:induction false} OnePath(es: seq<Entry>, rs: seq<Range>, d: nat)
    requires Ordered(es) && 0 < d <= |rs| && forall k :: 0 <= k < d ==> rs[k].num <= 1
    ensures |Cover(es, rs, d)| <= 1
    decreases d
  {
    hide *;
    if d == 1 {
      AllCluster(es);
      CoverOne(es, rs);
      SubFew(es, 0, |es|, 0, rs[0], 0);
    } else {
      OnePath(es, rs, d - 1);
      PathOn(es, rs, d);
    }
  }

  lemma PathOn(es: seq<Entry>, rs: seq<Range>, d: nat)
    requires Ordered(es) && 1 < d <= |rs| && rs[d - 1].num <= 1 && |Cover(es, rs, d - 1)| <= 1
    ensures |Cover(es, rs, d)| <= 1
  {
    hide *;
    var gs, r := Cover(es, rs, d - 1), rs[d - 1];
    if gs == [] {
      CoverDies(es, rs, d - 1, d);
    } else {
      assert gs == [gs[0]];
      CoverBounds(es, rs, d - 1);
      CoverNext(es, rs, d - 1, gs[0]);
      OwnCluster(es, gs[0], d - 1, rs);
      KidsAre(es, gs[0], d - 1, r);
      SubFew(es, gs[0].a + Own(es, gs[0].a, gs[0].m, d - 2), gs[0].m, d - 1, r, 0);
    }
  }

  lemma CoverBounds(es: seq<Entry>, rs: seq<Range>, d: nat)
    requires Ordered(es) && 0 < d <= |rs| && Cover(es, rs, d) != []
    ensures var gr := Cover(es, rs, d)[0]; GroupIn(es, gr, rs, d) && gr.a < gr.m <= |es|
  {
    hide Ordered, Sub, AllKids;
  }

  // For full ids no buffer limit matters: exactly the lemmas with that spelling, in the array's order.
  lemma LpiFull(es: seq<Entry>, h: Halves, splids: seq<nat>, cap: nat)
    requires Ordered(es) && OkHalves(h) && splids != [] && cap > 0
    requires forall i :: 0 <= i < |splids| ==> !IsHalf(splids[i])
    ensures LpiIds(es, h, splids, cap) == Sel(es, 0, |es|, Singles(splids))
    ensures forall id :: id in LpiIds(es, h, splids, cap) <==> HasLemma(es, splids, id)
  {
    hide *;
    NeverCapped(es, h, splids, cap);
    LpiExact(es, h, splids, cap);
    CoverFinds(es, Ranges(h, splids));
    forall id
      ensures id in LpiIds(es, h, splids, cap) <==> HasLemma(es, splids, id)
    {
      FoundOnly(es, splids, id);
    }
  }

  // For full ids each layer has at most one group.
  lemma NeverCapped(es: seq<Entry>, h: Halves, splids: seq<nat>, cap: nat)
    requires Ordered(es) && OkHalves(h) && splids != [] && cap > 0
    requires forall i :: 0 <= i < |splids| ==> !IsHalf(splids[i])
    ensures Ranges(h, splids) == Singles(splids) && |splids| == |Ranges(h, splids)|
    ensures Uncapped(es, Ranges(h, splids), cap)
    ensures |splids| == 1 ==> !IsHalfYunmu(splids[0])
  {
    var rs := Ranges(h, splids);
    assert rs == Singles(splids);
    hide Ordered, Cover;
    forall k: nat | 0 < k <= |rs|
      ensures |Cover(es, rs, k)| <= cap
    {
      OnePath(es, rs, k);
    }
  }

  // How many of the groups go on in a range: the marks that extending their nodes writes.
  ghost function Lively(es: seq<Entry>, gs: seq<Group>, d: nat, r: Range): nat
    requires AllIn(es, gs) && d > 0
  {
    if gs == [] then 0
    else Lively(es, gs[..|gs| - 1], d, r) + if Kids(es, gs[|gs| - 1], d, r) == [] then 0 else 1
  }

  lemma LivelyMore(es: seq<Entry>, gs: seq<Group>, n: nat, d: nat, r: Range)
    requires AllIn(es, gs) && d > 0 && n < |gs|
    ensures Lively(es, gs[..n + 1], d, r) == Lively(es, gs[..n], d, r) + if Kids(es, gs[n], d, r) == [] then 0 else 1
    ensures Lively(es, gs[..n + 1], d, r) <= Lively(es, gs, d, r)
  {
    hide Kids;
    assert gs[..n + 1][..n] == gs[..n];
    LivelyWithin(es, gs, n + 1, d, r);
  }

  lemma {:induction false} LivelyWithin(es: seq<Entry>, gs: seq<Group>, n: nat, d: nat, r: Range)
    requires AllIn(es, gs) && d > 0 && n <= |gs|
    ensures Lively(es, gs[..n], d, r) <= Lively(es, gs, d, r)
  {
    hide Kids;
    if n == |gs| {
      assert gs[..n] == gs;
    } else {
      assert gs[..|gs| - 1][..n] == gs[..n];
      LivelyWithin(es, gs[..|gs| - 1], n, d, r);
    }
  }

  // No mark is written exactly if no group goes on.
  lemma {:induction false} LivelyNone(es: seq<Entry>, gs: seq<Group>, d: nat, r: Range)
    requires AllIn(es, gs) && d > 0
    ensures Lively(es, gs, d, r) == 0 <==> AllKids(es, gs, d, r) == []
  {
    hide Kids;
    if gs != [] {
      var n := |gs| - 1;
      LivelyNone(es, gs[..n], d, r);
      assert gs[..n + 1] == gs;
      AllKidsMore(es, gs, n, d, r);
    }
  }

  lemma StonesRoom(stones: seq<Stone>, stonesPos: nat, marksPos: nat)
    requires StonesOk(stones, stonesPos, marksPos)
    ensures stonesPos <= |stones|
  {}

  lemma MeansStays(l: seq<Le0>, g: seq<Ge1>, es: seq<Entry>, marks: seq<Mark>, marks': seq<Mark>, st: Stone,
                   rs: seq<Range>)
    requires Means(l, g, es, marks, st, rs) && st.start + st.num <= |marks'|
    requires forall i :: st.start <= i < st.start + st.num ==> marks'[i] == marks[i]
    ensures Means(l, g, es, marks', st, rs)
  {
    hide Denote, Ordered, Cover;
    assert marks[st.start..st.start + st.num] == marks'[st.start..st.start + st.num];
  }

  lemma MeansFacts(l: seq<Le0>, g: seq<Ge1>, es: seq<Entry>, marks: seq<Mark>, st: Stone, rs: seq<Range>)
    requires Means(l, g, es, marks, st, rs)
    ensures Ordered(es) && 0 < |rs| <= MAX_LEMMA_SIZE && st.start + st.num <= |marks| && AllIn(es, Cover(es, rs, |rs|))
    ensures Denote(l, g, es, |rs|, Flat(marks[st.start..st.start + st.num]), Cover(es, rs, |rs|))
  {
    hide Denote, Ordered;
  }

  lemma IsMeans(l: seq<Le0>, g: seq<Ge1>, es: seq<Entry>, marks: seq<Mark>, st: Stone, rs: seq<Range>)
    requires Ordered(es) && 0 < |rs| <= MAX_LEMMA_SIZE && st.start + st.num <= |marks|
    requires Denote(l, g, es, |rs|, Flat(marks[st.start..st.start + st.num]), Cover(es, rs, |rs|))
    ensures Means(l, g, es, marks, st, rs)
  {
    hide Denote, Ordered, Cover;
  }

  // A range more is a layer more.
  lemma CoverMore(es: seq<Entry>, rs: seq<Range>, r: Range)
    requires Ordered(es) && |rs| > 0
    ensures AllIn(es, Cover(es, rs, |rs|))
    ensures Cover(es, rs + [r], |rs| + 1) == AllKids(es, Cover(es, rs, |rs|), |rs|, r)
  {
    hide *;
    var more := rs + [r];
    assert more[..|rs|] == rs[..|rs|];
    CoverPrefix(es, rs, more, |rs|);
    CoverUnfold(es, more, |rs|);
  }

  lemma CoverUnfold(es: seq<Entry>, rs: seq<Range>, d: nat)
    requires Ordered(es) && 0 < d < |rs|
    ensures AllIn(es, Cover(es, rs, d)) && Cover(es, rs, d + 1) == AllKids(es, Cover(es, rs, d), d, rs[d])
  {
    hide Ordered, GroupIn, Sub, AllKids;
  }

  lemma FlatAll(ms: seq<Mark>)
    ensures Flat(ms[..0]) == [] && ms[..|ms|] == ms
  {}

  // The nodes of the first marks are the first nodes.
  lemma {:induction false} FlatNext(ms: seq<Mark>, h: nat)
    requires h < |ms|
    ensures |Flat(ms[..h + 1])| == |Flat(ms[..h])| + ms[h].num <= |Flat(ms)|
    decreases |ms|
  {
    hide RunOf;
    assert ms[..h + 1][..h] == ms[..h];
    if h + 1 < |ms| {
      var most := ms[..|ms| - 1];
      assert most[..h + 1] == ms[..h + 1] && most[..h] == ms[..h];
      FlatNext(most, h);
    } else {
      assert ms[..h + 1] == ms;
    }
  }

  lemma {:induction false} FlatAt(ms: seq<Mark>, h: nat, e: nat)
    requires h < |ms| && e < ms[h].num
    ensures |Flat(ms[..h])| + e < |Flat(ms)| && Flat(ms)[|Flat(ms[..h])| + e] == ms[h].off + e
    decreases |ms|
  {
    var most := ms[..|ms| - 1];
    if h + 1 < |ms| {
      assert most[..h] == ms[..h];
      FlatAt(most, h, e);
    } else {
      assert ms[..h] == most;
    }
  }

  // The items of the groups hs, as many as there is room for.
  ghost predicate Filled(es: seq<Entry>, psbs: seq<nat>, items: seq<Item>, max: nat, d: nat, hs: seq<Group>) {
    d > 0 && AllIn(es, hs) && items == First(max, ToItems(Items(es, hs, d), d, psbs))
  }

  lemma FilledIs(es: seq<Entry>, psbs: seq<nat>, items: seq<Item>, max: nat, d: nat, hs: seq<Group>)
    requires d > 0 && AllIn(es, hs)
    ensures Filled(es, psbs, items, max, d, hs) <==> items == First(max, ToItems(Items(es, hs, d), d, psbs))
  {
    hide Items, ToItems;
  }

  lemma RunSize(m: Mark)
    ensures |RunOf(m)| == m.num
  {}

  lemma StoreExact(off: nat, num: nat, n: nat)
    requires num > 0 && num < BYTE && off + num <= n <= ID_LIMIT
    ensures Mark(off % ID_LIMIT, num % BYTE) == Mark(off, num)
  {}

  lemma FlatMore(ms: seq<Mark>, m: Mark)
    ensures Flat(ms + [m]) == Flat(ms) + RunOf(m)
  {
    hide RunOf;
    assert (ms + [m])[..|ms|] == ms;
  }

  lemma NothingYet(l: seq<Le0>, g: seq<Ge1>, es: seq<Entry>, d: nat, off: nat)
    ensures Denote(l, g, es, d, RunOf(Mark(off + 0, 0)), [])
  {}

  lemma RunMoves(l: seq<Le0>, g: seq<Ge1>, es: seq<Entry>, d: nat, ks: seq<Group>, off: nat)
    requires ks == []
    ensures Denote(l, g, es, d, RunOf(Mark(off, 0)), ks)
  {}

  // A run one node longer.
  lemma RunGrows(l: seq<Le0>, g: seq<Ge1>, es: seq<Entry>, d: nat, m: Mark, ks: seq<Group>, kid: Group)
    requires Denote(l, g, es, d, RunOf(m), ks) && NodeFor(l, g, es, d, m.off + m.num, kid)
    ensures Denote(l, g, es, d, RunOf(Mark(m.off, m.num + 1)), ks + [kid])
  {
    hide NodeFor;
    assert RunOf(Mark(m.off, m.num + 1)) == RunOf(m) + [m.off + m.num];
  }

  lemma ItemsPush(es: seq<Entry>, hs: seq<Group>, kid: Group, d: nat, max: nat, psbs: seq<nat>, before: seq<Item>,
                  more: seq<Item>)
    requires AllIn(es, hs) && kid.a < kid.m <= |es| && d > 0
    requires before == First(max, ToItems(Items(es, hs, d), d, psbs)) && |before| <= max
    requires if |before| < max then more == First(max - |before|, ToItems(OwnIds(es, kid, d), d, psbs)) else more == []
    ensures AllIn(es, hs + [kid]) && before + more == First(max, ToItems(Items(es, hs + [kid], d), d, psbs))
  {
    assert AllIn(es, [kid]);
    hide *;
    ItemsPlus(es, hs, [kid], d);
    OneItem(es, kid, d);
    var s, t := ToItems(Items(es, hs, d), d, psbs), ToItems(OwnIds(es, kid, d), d, psbs);
    ToItemsPlus(Items(es, hs, d), OwnIds(es, kid, d), d, psbs);
    FirstJoins(max, s, t, before, more);
  }

  lemma FirstJoins<T>(max: nat, s: seq<T>, t: seq<T>, before: seq<T>, more: seq<T>)
    requires before == First(max, s) && more == if |before| < max then First(max - |before|, t) else []
    ensures before + more == First(max, s + t)
  {}

  // The list is the capped layer of depth d.
  ghost predicate LayerIs(l: seq<Le0>, g: seq<Ge1>, es: seq<Entry>, h: Halves, splids: seq<nat>, d: nat, xs: seq<nat>) {
    && Ordered(es) && OkHalves(h) && 0 < d <= |splids|
    && Denote(l, g, es, d, xs, Capped(es, Ranges(h, splids), d, MAX_EXTENDBUF_LEN))
  }

  lemma IsLayer(l: seq<Le0>, g: seq<Ge1>, es: seq<Entry>, h: Halves, splids: seq<nat>, d: nat, xs: seq<nat>)
    requires Ordered(es) && OkHalves(h) && 0 < d <= |splids|
    requires Denote(l, g, es, d, xs, Capped(es, Ranges(h, splids), d, MAX_EXTENDBUF_LEN))
    ensures LayerIs(l, g, es, h, splids, d, xs)
  {
    hide Denote, Capped, Ordered;
  }

  lemma LayerFacts(l: seq<Le0>, g: seq<Ge1>, es: seq<Entry>, h: Halves, splids: seq<nat>, d: nat, xs: seq<nat>)
    requires LayerIs(l, g, es, h, splids, d, xs)
    ensures Ordered(es) && OkHalves(h) && 0 < d <= |splids|
    ensures Denote(l, g, es, d, xs, Capped(es, Ranges(h, splids), d, MAX_EXTENDBUF_LEN))
  {
    hide Denote, Capped, Ordered;
  }

  lemma DeadEnd(l: seq<Le0>, g: seq<Ge1>, es: seq<Entry>, h: Halves, splids: seq<nat>, d: nat, xs: seq<nat>)
    requires LayerIs(l, g, es, h, splids, d, xs) && xs == []
    ensures LayerIs(l, g, es, h, splids, |splids|, xs)
  {
    hide NodeFor, Ordered, Capped;
    CappedDies(es, Ranges(h, splids), d, |splids|, MAX_EXTENDBUF_LEN);
  }

  // Every id stands for full ids of the table.
  ghost predicate OkIds(h: Halves, splids: seq<nat>, n: nat)
    requires OkHalves(h)
  {
    forall i :: 0 <= i < |splids| ==> OkRange(RangeOf(h, splids[i]), n)
  }

  lemma FirstOk(h: Halves, splids: seq<nat>, n: nat)
    requires OkHalves(h) && OkIds(h, splids, n) && splids != []
    ensures OkRange(RangeOf(h, splids[0]), n) && |Ranges(h, splids)| == |splids|
    ensures Ranges(h, splids)[0] == RangeOf(h, splids[0])
  {}

  ghost function Ranges(h: Halves, splids: seq<nat>): (rs: seq<Range>)
    requires OkHalves(h)
    ensures |rs| == |splids| && forall i :: 0 <= i < |rs| ==> rs[i] == RangeOf(h, splids[i])
  {
    seq<Range>(|splids|, i requires 0 <= i < |splids| => RangeOf(h, splids[i]))
  }

  // What the batch lookup finds: of a one-letter final only its own full id counts.
  ghost function LpiIds(es: seq<Entry>, h: Halves, splids: seq<nat>, cap: nat): seq<nat>
    requires Ordered(es) && OkHalves(h) && splids != []
  {
    var gs := Capped(es, Ranges(h, splids), |splids|, cap);
    Items(es, if |splids| == 1 && IsHalfYunmu(splids[0]) then First(1, gs) else gs, |splids|)
  }

  lemma RangesAt(h: Halves, splids: seq<nat>, i: nat)
    requires OkHalves(h) && i < |splids|
    ensures |Ranges(h, splids)| == |splids| && Ranges(h, splids)[i] == RangeOf(h, splids[i])
  {}

  lemma CappedOne(es: seq<Entry>, rs: seq<Range>, cap: nat)
    requires Ordered(es) && |rs| > 0
    ensures Capped(es, rs, 1, cap) == First(cap, Sub(es, 0, |es|, 0, rs[0], 0))
  {
    hide Sub, Ordered, GroupIn;
  }

  lemma CappedMore(es: seq<Entry>, rs: seq<Range>, d: nat, cap: nat)
    requires Ordered(es) && 0 < d < |rs|
    ensures AllIn(es, Capped(es, rs, d, cap))
    ensures Capped(es, rs, d + 1, cap) == First(cap, AllKids(es, Capped(es, rs, d, cap), d, rs[d]))
  {
    hide Sub, Ordered, GroupIn, AllKids;
  }

  lemma {:induction false} CappedDies(es: seq<Entry>, rs: seq<Range>, d: nat, d': nat, cap: nat)
    requires Ordered(es) && 0 < d <= d' <= |rs| && Capped(es, rs, d, cap) == []
    ensures Capped(es, rs, d', cap) == []
    decreases d'
  {
    hide Ordered, Capped, GroupIn, Sub;
    if d < d' {
      CappedDies(es, rs, d, d' - 1, cap);
      CappedMore(es, rs, d' - 1, cap);
    }
  }

  lemma LpiNone(es: seq<Entry>, h: Halves, splids: seq<nat>, cap: nat, max: nat, psbs: seq<nat>)
    requires Ordered(es) && OkHalves(h) && splids != [] && Capped(es, Ranges(h, splids), |splids|, cap) == []
    ensures First(max, ToItems(LpiIds(es, h, splids, cap), |splids|, psbs)) == []
  {
    hide Ordered, Capped;
  }

  lemma LpiIs(es: seq<Entry>, h: Halves, splids: seq<nat>, cap: nat, gs: seq<Group>)
    requires Ordered(es) && OkHalves(h) && splids != []
    requires gs == (var c := Capped(es, Ranges(h, splids), |splids|, cap);
                    if |splids| == 1 && IsHalfYunmu(splids[0]) && |c| > 0 then c[..1] else c)
    ensures AllIn(es, gs) && LpiIds(es, h, splids, cap) == Items(es, gs, |splids|)
  {
    hide Ordered, Capped, Items, Ranges;
    assert AllIn(es, Capped(es, Ranges(h, splids), |splids|, cap));
  }

  lemma DenoteFirst(l: seq<Le0>, g: seq<Ge1>, es: seq<Entry>, d: nat, xs: seq<nat>, gs: seq<Group>)
    requires 0 < |gs| <= |xs| && Denote(l, g, es, d, xs[..|gs|], gs)
    ensures Denote(l, g, es, d, xs[..1], gs[..1])
  {
    hide NodeFor;
    assert xs[..1] == xs[..|gs|][..1];
  }

  lemma NoItemsYet(es: seq<Entry>, gs: seq<Group>, d: nat, max: nat, psbs: seq<nat>)
    requires AllIn(es, gs) && d > 0
    ensures AllIn(es, gs[..0]) && ToItems(Items(es, gs[..0], d), d, psbs) == []
  {}

  lemma ToItemsPlus(ids: seq<nat>, more: seq<nat>, len: nat, psbs: seq<nat>)
    ensures ToItems(ids + more, len, psbs) == ToItems(ids, len, psbs) + ToItems(more, len, psbs)
  {}

  lemma FirstWithin<T>(n: nat, s: seq<T>, t: seq<T>)
    requires |s| <= n
    ensures First(n, s + t) == s + First(n - |s|, t)
  {}

  lemma FirstEnough<T>(n: nat, s: seq<T>, t: seq<T>)
    requires |s| >= n
    ensures First(n, s + t) == First(n, s)
  {}

  // A node's own items behind those of the nodes before it.
  lemma ItemsGrow(es: seq<Entry>, gs: seq<Group>, pos: nat, d: nat, max: nat, psbs: seq<nat>, before: seq<Item>,
                  more: seq<Item>)
    requires AllIn(es, gs) && d > 0 && pos < |gs| && AllIn(es, gs[..pos]) && AllIn(es, gs[..pos + 1]) && |before| < max
    requires before == ToItems(Items(es, gs[..pos], d), d, psbs)
    requires more == First(max - |before|, ToItems(OwnIds(es, gs[pos], d), d, psbs))
    ensures before + more == First(max, ToItems(Items(es, gs[..pos + 1], d), d, psbs))
    ensures |ToItems(Items(es, gs[..pos + 1], d), d, psbs)| == |before| + |OwnIds(es, gs[pos], d)|
  {
    assert gs[pos].a < gs[pos].m <= |es|;
    hide *;
    ItemsMore(es, gs, pos, d);
    var own := OwnIds(es, gs[pos], d);
    ToItemsPlus(Items(es, gs[..pos], d), own, d, psbs);
    FirstWithin(max, before, ToItems(own, d, psbs));
  }

  // Enough items from the first nodes are the first items of all.
  lemma ItemsEnough(es: seq<Entry>, gs: seq<Group>, n: nat, d: nat, max: nat, psbs: seq<nat>)
    requires AllIn(es, gs) && d > 0 && n <= |gs| && AllIn(es, gs[..n]) && |Items(es, gs[..n], d)| >= max
    ensures First(max, ToItems(Items(es, gs, d), d, psbs)) == First(max, ToItems(Items(es, gs[..n], d), d, psbs))
  {
    var front, back := gs[..n], gs[n..];
    assert AllIn(es, back);
    assert gs == front + back;
    hide *;
    ItemsPlus(es, front, back, d);
    ToItemsPlus(Items(es, front, d), Items(es, back, d), d, psbs);
    FirstEnough(max, ToItems(Items(es, front, d), d, psbs), ToItems(Items(es, back, d), d, psbs));
  }

  // A range of full ids of the table.
  predicate OkRange(r: Range, n: nat) {
    FULL_START <= r.start && r.num > 0 && r.start + r.num <= FULL_START + n
  }

  lemma RootRun(l: seq<Le0>, g: seq<Ge1>, es: seq<Entry>, n: nat, r: Range, xs: seq<nat>, cap: nat)
    requires IsTrie(l, g, es) && AllRoots(es, n) && OkRange(r, n)
    requires |xs| == if r.num <= cap then r.num else cap
    requires r.start >= FULL_START && forall i :: 0 <= i < |xs| ==> xs[i] == r.start - FULL_START + 1 + i
    ensures Denote(l, g, es, 1, xs, First(cap, Sub(es, 0, |es|, 0, r, 0)))
  {
    hide *;
    var gs := RunGroups(es, n, r);
    forall i | 0 <= i < |xs|
      ensures NodeFor(l, g, es, 1, xs[i], gs[i])
    {
      RunAt(l, g, es, n, r, i);
    }
    RunDenotes(l, g, es, xs, gs, cap);
  }

  lemma RunGroups(es: seq<Entry>, n: nat, r: Range) returns (gs: seq<Group>)
    requires AllRoots(es, n) && OkRange(r, n)
    ensures |gs| == r.num && r.start + r.num - FULL_START <= n == Groups(es, 0, |es|, 0) && r.start >= FULL_START
    ensures gs == Sub(es, 0, |es|, 0, r, 0)
    ensures forall i :: 0 <= i < r.num ==> gs[i] == RootGroup(es, r.start - FULL_START + i)
  {
    hide Groups, RootId, RootGroup, Sub;
    RootsCover(es, n, r, 0);
    gs := RootGroups(es, r.start - FULL_START, r.start + r.num - FULL_START);
  }

  lemma RunAt(l: seq<Le0>, g: seq<Ge1>, es: seq<Entry>, n: nat, r: Range, i: nat)
    requires IsTrie(l, g, es) && AllRoots(es, n) && OkRange(r, n) && i < r.num
    ensures r.start - FULL_START + i < n == Groups(es, 0, |es|, 0) && r.start >= FULL_START
    ensures NodeFor(l, g, es, 1, r.start - FULL_START + 1 + i, RootGroup(es, r.start - FULL_START + i))
  {
    hide IsTrie, Groups, RootId, RootGroup, NodeFor;
    RootSon(l, g, es, r.start - FULL_START + i);
  }

  lemma RunDenotes(l: seq<Le0>, g: seq<Ge1>, es: seq<Entry>, xs: seq<nat>, gs: seq<Group>, cap: nat)
    requires |xs| == (if |gs| <= cap then |gs| else cap)
    requires forall i :: 0 <= i < |xs| ==> NodeFor(l, g, es, 1, xs[i], gs[i])
    ensures Denote(l, g, es, 1, xs, First(cap, gs))
  {
    hide NodeFor;
  }

  lemma KidsOfNone(l: seq<Le0>, g: seq<Ge1>, es: seq<Entry>, gs: seq<Group>, d: nat, r: Range, xs: seq<nat>)
    requires AllIn(es, gs) && d > 0 && xs == []
    ensures AllIn(es, gs[..0]) && Denote(l, g, es, d + 1, xs, First(MAX_EXTENDBUF_LEN, AllKids(es, gs[..0], d, r)))
  {}

  lemma DenoteSize(l: seq<Le0>, g: seq<Ge1>, es: seq<Entry>, d: nat, xs: seq<nat>, gs: seq<Group>)
    requires Denote(l, g, es, d, xs, gs)
    ensures |xs| == |gs|
  {}

  lemma DenoteAt(l: seq<Le0>, g: seq<Ge1>, es: seq<Entry>, d: nat, xs: seq<nat>, gs: seq<Group>, i: nat)
    requires Denote(l, g, es, d, xs, gs) && i < |xs|
    ensures |xs| == |gs| && NodeFor(l, g, es, d, xs[i], gs[i])
  {
    hide NodeFor;
  }

  lemma AllInFirst(es: seq<Entry>, gs: seq<Group>, n: nat)
    requires AllIn(es, gs) && n <= |gs|
    ensures AllIn(es, gs[..n])
  {}

  lemma InIs(x: nat, r: Range)
    ensures In(x, r) <==> r.start <= x < r.start + r.num
  {}

  // One node more in a limited list.
  lemma Pushed(l: seq<Le0>, g: seq<Ge1>, es: seq<Entry>, d: nat, xs: seq<nat>, ys: seq<nat>, gs: seq<Group>, y: nat,
               kid: Group, cap: nat)
    requires Denote(l, g, es, d, xs, First(cap, gs)) && NodeFor(l, g, es, d, y, kid)
    requires ys == if |xs| < cap then xs + [y] else xs
    ensures Denote(l, g, es, d, ys, First(cap, gs + [kid]))
  {
    hide NodeFor;
  }

  lemma InOne(x: nat, spl: nat)
    ensures In(x, Range(spl, 1)) <==> x == spl
    ensures x == spl ==> x + 1 >= Range(spl, 1).start + Range(spl, 1).num
  {}

  lemma KidsZero(es: seq<Entry>, gr: Group, d: nat, r: Range)
    requires gr.a < gr.m <= |es| && d > 0
    ensures KidsFrom(es, gr, d, r, 0) == Kids(es, gr, d, r)
  {
    hide Sub, Own;
  }

  lemma CoverOne(es: seq<Entry>, rs: seq<Range>)
    requires Ordered(es) && |rs| > 0
    ensures Cover(es, rs, 1) == Sub(es, 0, |es|, 0, rs[0], 0)
  {
    hide Sub, Ordered, GroupIn;
  }

  lemma NodeLooks(l: seq<Le0>, g: seq<Ge1>, d: nat, x: nat)
    requires if d == 1 then x < |l| else x < |g|
    ensures NodeView(l, g, d, x) == if d == 1 then Look0(l[x]) else Look1(g[x])
  {}

  lemma OneItem(es: seq<Entry>, gr: Group, d: nat)
    requires gr.a < gr.m <= |es| && d > 0
    ensures AllIn(es, [gr]) && Items(es, [gr], d) == OwnIds(es, gr, d)
  {
    hide OwnIds;
    assert [gr][1..] == [];
  }

  lemma FoundNone(es: seq<Entry>, splids: seq<nat>, id: nat)
    requires Ordered(es) && splids != [] && Cover(es, Singles(splids), |splids|) == []
    ensures !HasLemma(es, splids, id)
  {
    hide Ordered, HasLemma, Cover;
    FoundOnly(es, splids, id);
  }

  lemma FoundAt(es: seq<Entry>, splids: seq<nat>, gr: Group, id: nat)
    requires Ordered(es) && splids != [] && Cover(es, Singles(splids), |splids|) == [gr] && gr.a < gr.m <= |es|
    ensures id in OwnIds(es, gr, |splids|) <==> HasLemma(es, splids, id)
  {
    hide *;
    FoundOnly(es, splids, id);
    OneItem(es, gr, |splids|);
  }

  lemma FirstIs<T>(n: nat, s: seq<T>)
    ensures First(n, s) == if |s| <= n then s else s[..n]
  {}

  lemma RootIds(l: seq<Le0>, g: seq<Ge1>, es: seq<Entry>, n: nat)
    requires IsTrie(l, g, es) && AllRoots(es, n)
    ensures |l| == n + 1 && forall i :: 1 <= i <= n ==> l[i].spl == FULL_START + (i - 1)
  {
    hide RootId, Groups, NodeIs, NodeFor, RootSonIs, StartOf;
    RootSonCount(l, g, es);
    forall i | 1 <= i <= n
      ensures l[i].spl == FULL_START + (i - 1)
    {
      var k: nat := i - 1;
      RootSon(l, g, es, k);
      assert RootId(es, k) == FULL_START + k;
    }
  }

  lemma RootSonCount(l: seq<Le0>, g: seq<Ge1>, es: seq<Entry>)
    requires IsTrie(l, g, es)
    ensures |l| == 1 + Groups(es, 0, |es|, 0)
  {
    hide Groups, RootSonIs;
  }
}
