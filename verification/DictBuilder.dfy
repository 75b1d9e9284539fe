// Building the system dictionary: the recursive construction of the trie from the lemma array sorted by
// spelling ids, in the flat node arrays the program fills.

module DictBuilder {
  import opened Limits
  import opened Trie

  // The node at a place of the layer the level's sons live in.
  ghost function CellOf(l: seq<Le0>, g: seq<Ge1>, level: nat, pos: nat): View
    requires if level == 0 then pos < |l| else pos < |g|
  {
    if level == 0 then Look0(l[pos]) else Look1(g[pos])
  }

  // Son i of a block under construction stands for group i.
  ghost predicate Done(l: seq<Le0>, g: seq<Ge1>, first: nat, lo: nat, es: seq<Entry>, a: nat, b: nat, level: nat,
                       i: nat)
    requires a <= b <= |es| && level < MAX_LEMMA_SIZE && i < Groups(es, a, b, level)
  {
    StartNext(es, a, b, level, i);
    && (if level == 0 then first + i < |l| else first + i < |g|)
    && NodeIs(g, CellOf(l, g, level, first + i), lo, |g|, es,
              StartOf(es, a, b, level, i), StartOf(es, a, b, level, i + 1), level)
  }

  // Arrays that differ only from the old end of the packed nodes on, and in one son.
  ghost predicate OnlyGrew(l: seq<Le0>, l': seq<Le0>, g: seq<Ge1>, g': seq<Ge1>, level: nat, pos: nat) {
    && |l'| == |l| && |g| <= |g'|
    && (forall i :: 0 <= i < |l| && (level != 0 || i != pos) ==> l'[i] == l[i])
    && forall i :: 0 <= i < |g| && (level == 0 || i != pos) ==> g'[i] == g[i]
  }

  lemma DoneKept(l: seq<Le0>, l': seq<Le0>, g: seq<Ge1>, g': seq<Ge1>, first: nat, k: nat, lo: nat,
                 es: seq<Entry>, a: nat, b: nat, level: nat, i: nat)
    requires a <= b <= |es| && level < MAX_LEMMA_SIZE && i < k < Groups(es, a, b, level)
    requires OnlyGrew(l, l', g, g', level, first + k) && (level > 0 ==> first + k < lo)
    requires Done(l, g, first, lo, es, a, b, level, i)
    ensures Done(l', g', first, lo, es, a, b, level, i)
  {
    hide NodeIs, Groups, StartOf, Own, Id;
    StartNext(es, a, b, level, i);
    Kept(g, g', CellOf(l, g, level, first + i), lo, |g|, lo, |g'|, es,
         StartOf(es, a, b, level, i), StartOf(es, a, b, level, i + 1), level);
  }

  lemma AllKept(l: seq<Le0>, l': seq<Le0>, g: seq<Ge1>, g': seq<Ge1>, first: nat, k: nat, lo: nat,
                es: seq<Entry>, a: nat, b: nat, level: nat)
    requires a <= b <= |es| && level < MAX_LEMMA_SIZE && k < Groups(es, a, b, level)
    requires OnlyGrew(l, l', g, g', level, first + k) && (level > 0 ==> first + k < lo)
    requires forall i: nat :: i < k ==> Done(l, g, first, lo, es, a, b, level, i)
    ensures forall i: nat :: i < k ==> Done(l', g', first, lo, es, a, b, level, i)
  {
    hide Done, OnlyGrew, Groups;
    forall i: nat | i < k
      ensures Done(l', g', first, lo, es, a, b, level, i)
    {
      DoneKept(l, l', g, g', first, k, lo, es, a, b, level, i);
    }
  }

  lemma DoneAll(l: seq<Le0>, g: seq<Ge1>, first: nat, num: nat, lo: nat, es: seq<Entry>, a: nat, b: nat, level: nat)
    requires a <= b <= |es| && 0 < level < MAX_LEMMA_SIZE && num == Groups(es, a, b, level) && lo == first + num <= |g|
    requires forall i: nat :: i < num ==> Done(l, g, first, lo, es, a, b, level, i)
    ensures SonsAre(g, first, num, |g|, es, a, b, level)
  {
    hide NodeIs, Groups, StartOf;
    forall i: nat | i < num
      ensures SonIs(g, first, num, |g|, es, a, b, level, i)
    {
      assert Done(l, g, first, lo, es, a, b, level, i);
    }
  }

  lemma {:induction false} RunEndIs(es: seq<Entry>, c: nat, m: nat, i: nat, b: nat, level: nat)
    requires c < m <= i <= b <= |es| && (forall k :: m <= k < i ==> Id(es[k], level) == Id(es[c], level))
    requires i < b ==> Id(es[i], level) != Id(es[c], level)
    ensures RunEnd(es, c, m, b, level) == i
    decreases i - m
  {
    if m < i {
      RunEndIs(es, c, m + 1, i, b, level);
    }
  }

  lemma GroupEndIs(es: seq<Entry>, c: nat, i: nat, b: nat, level: nat)
    requires c < i <= b <= |es| && (forall k :: c <= k < i ==> Id(es[k], level) == Id(es[c], level))
    requires i < b ==> Id(es[i], level) != Id(es[c], level)
    ensures GroupEnd(es, c, b, level) == i
  {
    RunEndIs(es, c, c + 1, i, b, level);
  }

  // The first n entries of c..d, and no others, end after the level.
  ghost predicate Leads(es: seq<Entry>, c: nat, d: nat, level: nat, n: nat) {
    c + n <= d <= |es| && forall k :: c <= k < d ==> (Id(es[k], level + 1) == 0 <==> k < c + n)
  }

  lemma {:induction false} OwnIs(es: seq<Entry>, c: nat, d: nat, level: nat, n: nat)
    requires Leads(es, c, d, level, n)
    ensures Own(es, c, d, level) == n
    decreases n
  {
    if n > 0 {
      OwnIs(es, c + 1, d, level, n - 1);
    }
  }

  lemma LeadsMore(es: seq<Entry>, c: nat, d: nat, level: nat, n: nat)
    requires Ordered(es) && Same(es, c, d + 1, level + 1) && Leads(es, c, d, level, n)
    ensures Leads(es, c, d + 1, level, if Id(es[d], level + 1) == 0 then n + 1 else n)
  {
    forall k | c <= k < d
      ensures Id(es[k], level + 1) <= Id(es[d], level + 1)
    {
      Rises(es, c, d + 1, level + 1, k, d);
    }
    if c + n < d {
      assert Id(es[c + n], level + 1) <= Id(es[d], level + 1);
    }
  }

  // The entries seen so far share the level's id with the first of their group.
  ghost predicate Run(es: seq<Entry>, c: nat, i: nat, level: nat) {
    c < i <= |es| && forall k :: c <= k < i ==> Id(es[k], level) == Id(es[c], level)
  }

  lemma RunSame(es: seq<Entry>, a: nat, b: nat, level: nat, c: nat, i: nat)
    requires Ordered(es) && Cluster(es, a, b, level) && a <= c < i <= b && Run(es, c, i, level)
    ensures Same(es, c, i, level + 1)
  {
    hide Ordered;
    forall k, j | c <= k < i && c <= j < i
      ensures es[k].splids[..level + 1] == es[j].splids[..level + 1]
    {
      assert es[k].splids[..level] == es[j].splids[..level];
      assert es[k].splids[level] == Id(es[k], level) == Id(es[j], level) == es[j].splids[level];
      assert es[k].splids[..level + 1] == es[k].splids[..level] + [es[k].splids[level]];
      assert es[j].splids[..level + 1] == es[j].splids[..level] + [es[j].splids[level]];
    }
  }

  // The node counts of a block split at its first group.
  lemma {:induction false} BelowFrom(es: seq<Entry>, a: nat, b: nat, level: nat, i: nat)
    requires a <= b <= |es| && level < MAX_LEMMA_SIZE && i < Groups(es, a, b, level)
    ensures StartOf(es, a, b, level, i) < b && StartOf(es, a, b, level, i) < StartOf(es, a, b, level, i + 1)
    ensures Below(es, StartOf(es, a, b, level, i), b, level)
         == Under(es, StartOf(es, a, b, level, i), StartOf(es, a, b, level, i + 1), level)
          + Below(es, StartOf(es, a, b, level, i + 1), b, level)
    ensures Fits(es, StartOf(es, a, b, level, i), b, level) ==>
              && FitsUnder(es, StartOf(es, a, b, level, i), StartOf(es, a, b, level, i + 1), level)
              && Fits(es, StartOf(es, a, b, level, i + 1), b, level)
  {
    StartNext(es, a, b, level, i);
    hide Under, FitsUnder, GroupEnd, Groups, StartOf;
  }

  class DictBuilder {
    var lemmas: seq<Entry>
    var le0: array<Le0>
    var usedLe0: nat
    var ge1: array<Ge1>
    var usedGe1: nat
    var homo: array<nat>
    var homoEq1: nat
    var homoGt1: nat

    // The lemmas are sorted, unused nodes are blank, and the homophone buffer copies the array's start.
    ghost predicate Ready()
      reads this, le0, ge1, homo
    {
      && Ordered(lemmas) && |lemmas| <= ID_LIMIT && |lemmas| <= homo.Length && ge1.Length <= ID_LIMIT
      && usedLe0 <= le0.Length && usedGe1 <= ge1.Length && homoEq1 + homoGt1 <= |lemmas|
      && (forall i :: usedLe0 <= i < le0.Length ==> le0[i] == ZERO0)
      && (forall i :: usedGe1 <= i < ge1.Length ==> ge1[i] == ZERO1)
      && forall i :: 0 <= i < homoEq1 + homoGt1 ==> homo[i] == lemmas[i].id
    }

    ghost predicate Room(from: nat, to: nat, level: nat)
      reads this
      requires from <= to <= |lemmas| && level < MAX_LEMMA_SIZE
    {
      && Groups(lemmas, from, to, level) <= SonCap(level) && Fits(lemmas, from, to, level)
      && (level == 0 ==> usedLe0 + Groups(lemmas, from, to, level) <= le0.Length)
      && usedGe1 + (if level == 0 then 0 else Groups(lemmas, from, to, level)) +
           Below(lemmas, from, to, level) <= ge1.Length
    }

    constructor (es: seq<Entry>)
      requires Ordered(es) && |es| <= ID_LIMIT
      ensures Ready() && lemmas == es && usedLe0 == usedGe1 == homoEq1 == homoGt1 == 0
      ensures fresh(le0) && fresh(ge1) && fresh(homo) && le0.Length == MAX_SPELLING_NUM + 1 && ge1.Length == |es|
    {
      lemmas := es;
      le0 := new Le0[MAX_SPELLING_NUM + 1](i => ZERO0);
      ge1 := new Ge1[|es|](i => ZERO1);
      homo := new nat[|es|](i => 0);
      usedLe0, usedGe1, homoEq1, homoGt1 := 0, 0, 0, 0;
    }

    // The trie part of build_dict: root and subsets, then nodes and ids are moved out, the ids of the
    // top lemmas behind the others.
    method BuildTrie(tops: seq<nat>) returns (ok: bool, root: array<Le0>, nodes: array<Ge1>, ids: array<nat>)
      requires Ready() && usedLe0 == usedGe1 == homoEq1 == homoGt1 == 0 && |lemmas| > 0 && le0.Length > 0
      requires Groups(lemmas, 0, |lemmas|, 0) + 1 <= le0.Length <= WORD && Fits(lemmas, 0, |lemmas|, 0)
      requires Below(lemmas, 0, |lemmas|, 0) <= ge1.Length
      requires forall i :: 0 <= i < |tops| ==> tops[i] < ID_LIMIT
      modifies this, le0, ge1, homo
      ensures ok && lemmas == old(lemmas) && IsTrie(root[..], nodes[..], lemmas)
      ensures nodes.Length == Below(lemmas, 0, |lemmas|, 0) && root.Length <= WORD
      ensures HoldsIds(ids[..], IdsOf(lemmas) + tops) && fresh(root) && fresh(nodes) && fresh(ids)
    {
      hide *;
      ReadyFacts();
      AllCluster(lemmas);
      TakeRoot();
      ghost var l0, g0 := le0[..], ge1[..usedGe1];
      ok := ConstructSubset(0, 0, |lemmas|, 0);
      ReadyFacts();
      WholeTrie(l0, g0);
      AllIds(tops);
      root := new Le0[usedLe0](i requires 0 <= i < usedLe0 <= le0.Length reads this, le0 => le0[i]);
      nodes := new Ge1[usedGe1](i requires 0 <= i < usedGe1 <= ge1.Length reads this, ge1 => ge1[i]);
      var all := homo[..homoEq1 + homoGt1] + tops;
      ids := PackIds(all);
      assert root[..] == le0[..usedLe0] && nodes[..] == ge1[..usedGe1];
    }

    method TakeRoot()
      requires Ready() && usedLe0 == usedGe1 == homoEq1 == homoGt1 == 0 && |lemmas| > 0 && le0.Length > 0
      requires Groups(lemmas, 0, |lemmas|, 0) + 1 <= le0.Length <= WORD && Fits(lemmas, 0, |lemmas|, 0)
      requires Below(lemmas, 0, |lemmas|, 0) <= ge1.Length
      modifies this`usedLe0
      ensures Ready() && usedLe0 == 1 && 0 < MAX_LEMMA_SIZE && Room(0, |lemmas|, 0)
    {
      hide Ordered, Groups, Fits, Below;
      usedLe0 := 1;
    }

    lemma WholeTrie(l0: seq<Le0>, g0: seq<Ge1>)
      requires Ready() && |lemmas| > 0 && le0.Length > 0 && |g0| == 0
      requires Constructed(l0, le0[..], g0, ge1[..usedGe1], 1, usedLe0, lemmas, 0, 0, |lemmas|, 0)
      ensures usedLe0 <= le0.Length && usedGe1 <= ge1.Length && usedLe0 == 1 + Groups(lemmas, 0, |lemmas|, 0)
      ensures usedGe1 == Below(lemmas, 0, |lemmas|, 0)
      ensures IsTrie(le0[..usedLe0], ge1[..usedGe1], lemmas)
    {
      ReadyFacts();
      hide Ready, Ordered, Groups, Below, IsTrie, Block;
      TrieDone(le0[..], ge1[..usedGe1], usedLe0, lemmas);
    }

    lemma AllIds(tops: seq<nat>)
      requires Ready() && homoEq1 + homoGt1 == |lemmas| && forall i :: 0 <= i < |tops| ==> tops[i] < ID_LIMIT
      ensures homoEq1 + homoGt1 <= homo.Length && homo[..homoEq1 + homoGt1] == IdsOf(lemmas)
      ensures var all := IdsOf(lemmas) + tops; forall i :: 0 <= i < |all| ==> all[i] < ID_LIMIT
    {
      assert forall i :: 0 <= i < |lemmas| ==> OkEntry(lemmas[i]);
      assert homo[..|lemmas|] == IdsOf(lemmas);
    }

    lemma ReadyFacts()
      requires Ready()
      ensures Ordered(lemmas) && |lemmas| <= ID_LIMIT && |lemmas| <= homo.Length
      ensures usedLe0 <= le0.Length && usedGe1 <= ge1.Length <= ID_LIMIT && homoEq1 + homoGt1 <= |lemmas|
    {}

    lemma IsRoom(from: nat, to: nat, level: nat)
      requires 0 < level < MAX_LEMMA_SIZE && from <= to <= |lemmas|
      requires Groups(lemmas, from, to, level) <= SonCap(level) && Fits(lemmas, from, to, level)
      requires usedGe1 + Groups(lemmas, from, to, level) + Below(lemmas, from, to, level) <= ge1.Length
      ensures Room(from, to, level)
    {
      hide Groups, Fits, Below;
    }

    // The scan for how many sons a node gets.
    method CountSons(from: nat, to: nat, level: nat) returns (num: nat)
      requires from < to <= |lemmas|
      ensures num == Groups(lemmas, from, to, level)
    {
      hide Groups, StartOf, GroupEnd;
      num := 0;
      var spl := Id(lemmas[from], level);
      ghost var c := from;
      var i := from + 1;
      assert StartOf(lemmas, from, to, level, 0) == from && num < Groups(lemmas, from, to, level) by {
        StartZero(lemmas, from, to, level);
      }
      while i < to
        invariant from <= c < i <= to && Run(lemmas, c, i, level) && spl == Id(lemmas[c], level)
        invariant num < Groups(lemmas, from, to, level) && c == StartOf(lemmas, from, to, level, num)
      {
        if Id(lemmas[i], level) != spl {
          GroupEndIs(lemmas, c, i, to, level);
          StartNext(lemmas, from, to, level, num);
          num := num + 1;
          StartNext(lemmas, from, to, level, num);
          spl := Id(lemmas[i], level);
          c := i;
        }
        i := i + 1;
      }
      GroupEndIs(lemmas, c, to, to, level);
      StartNext(lemmas, from, to, level, num);
      num := num + 1;
      StartNext(lemmas, from, to, level, num);
    }

    // The parent learns where its sons are and how many; the places are taken.
    method NoteSons(level: nat, parent: nat, num: nat) returns (first: nat)
      requires Ready() && num <= SonCap(level) && num > 0 && (if level <= 1 then parent < usedLe0 else parent < usedGe1)
      requires if level == 0 then usedLe0 + num <= le0.Length else usedGe1 + num <= ge1.Length
      modifies this`usedLe0, this`usedGe1, le0, ge1
      ensures Ready() && Noted(old(le0[..]), le0[..], old(ge1[..usedGe1]), ge1[..usedGe1], level, parent, first, num)
      ensures usedLe0 == (if level == 0 then old(usedLe0) + num else old(usedLe0))
      ensures first == old(if level == 0 then usedLe0 else usedGe1)
      ensures usedGe1 == (if level == 0 then old(usedGe1) else old(usedGe1) + num)
    {
      hide *;
      SonCaps(level);
      if level == 0 {
        first := usedLe0;
        NoteRoot(parent, num);
      } else if level == 1 {
        first := usedGe1;
        NoteFirst(parent, num);
      } else {
        first := usedGe1;
        NotePacked(level, parent, num);
      }
    }

    lemma SonCaps(level: nat)
      ensures if level <= 1 then SonCap(level) < WORD else SonCap(level) < BYTE
    {}

    method NoteRoot(parent: nat, num: nat)
      requires Ready() && 0 < num < WORD && parent < usedLe0 && usedLe0 + num <= le0.Length
      modifies this`usedLe0, le0
      ensures Ready() && usedLe0 == old(usedLe0) + num
      ensures Noted(old(le0[..]), le0[..], old(ge1[..usedGe1]), ge1[..usedGe1], 0, parent, old(usedLe0), num)
    {
      hide Ordered, Noted;
      ghost var l0, g0 := le0[..], ge1[..usedGe1];
      le0[parent] := le0[parent].(sonOff := usedLe0, sonNum := num % WORD);
      usedLe0 := usedLe0 + num;
      NotedRoot(l0, le0[..], g0, ge1[..usedGe1], parent, usedLe0 - num, num);
    }

    method NoteFirst(parent: nat, num: nat)
      requires Ready() && 0 < num < WORD && parent < usedLe0 && usedGe1 + num <= ge1.Length
      modifies this`usedGe1, le0
      ensures Ready() && usedGe1 == old(usedGe1) + num
      ensures Noted(old(le0[..]), le0[..], old(ge1[..usedGe1]), ge1[..usedGe1], 1, parent, old(usedGe1), num)
    {
      hide Ordered, Noted;
      ghost var l0, g0 := le0[..], ge1[..usedGe1];
      le0[parent] := le0[parent].(sonOff := usedGe1, sonNum := num % WORD);
      usedGe1 := usedGe1 + num;
      NotedFirst(l0, le0[..], g0, ge1[..usedGe1], parent, num);
    }

    method NotePacked(level: nat, parent: nat, num: nat)
      requires Ready() && 0 < num < BYTE && level > 1 && parent < usedGe1 && usedGe1 + num <= ge1.Length
      modifies this`usedGe1, ge1
      ensures Ready() && usedGe1 == old(usedGe1) + num
      ensures Noted(old(le0[..]), le0[..], old(ge1[..usedGe1]), ge1[..usedGe1], level, parent, old(usedGe1), num)
    {
      hide Ordered, Noted;
      ghost var l0, g0 := le0[..], ge1[..usedGe1];
      ge1[parent] := SetSon(ge1[parent], usedGe1).(sonNum := num % BYTE);
      usedGe1 := usedGe1 + num;
      NotedPacked(l0, g0, ge1[..usedGe1], level, parent, num);
    }

    // A node gets its id and its own lemmas.
    method PutNode(level: nat, pos: nat, spl: nat, homoNum: nat, from: nat)
      requires Ready() && homoNum <= HomoCap(level) && from == homoEq1 + homoGt1 && from < |lemmas|
      requires from + homoNum <= |lemmas|
      requires if level == 0 then pos < usedLe0 && le0[pos] == ZERO0 else pos < usedGe1 && ge1[pos] == ZERO1
      modifies this`homoEq1, this`homoGt1, le0, ge1, homo
      ensures Ready() && homoEq1 + homoGt1 == from + homoNum
      ensures OnlyGrew(old(le0[..]), le0[..], old(ge1[..usedGe1]), ge1[..usedGe1], level, pos)
      ensures CellOf(le0[..], ge1[..usedGe1], level, pos) == View(spl, 0, 0, from, homoNum)
    {
      hide Ordered;
      FillNode(level, pos, spl, homoNum, homoEq1 + homoGt1);
      if level == 0 {
        homoEq1 := homoEq1 + homoNum;
      } else {
        homoGt1 := homoGt1 + homoNum;
      }
      if homoNum > 0 {
        CopyIds(homoNum, from);
      }
    }

    method FillNode(level: nat, pos: nat, spl: nat, homoNum: nat, off: nat)
      requires homoNum <= HomoCap(level) && off < ID_LIMIT
      requires if level == 0 then pos < le0.Length && le0[pos] == ZERO0 else pos < ge1.Length && ge1[pos] == ZERO1
      modifies le0, ge1
      ensures if level == 0 then Look0(le0[pos]) == View(spl, 0, 0, off, homoNum) && ge1[..] == old(ge1[..])
              else Look1(ge1[pos]) == View(spl, 0, 0, off, homoNum) && le0[..] == old(le0[..])
      ensures forall i :: 0 <= i < le0.Length && (level > 0 || i != pos) ==> le0[i] == old(le0[i])
      ensures forall i :: 0 <= i < ge1.Length && (level == 0 || i != pos) ==> ge1[i] == old(ge1[i])
    {
      if level == 0 {
        le0[pos] := le0[pos].(spl := spl, homoOff := off, sonOff := 0);
        if homoNum > 0 {
          le0[pos] := le0[pos].(homoNum := homoNum % WORD);
        }
      } else {
        var n := ge1[pos].(spl := spl);
        HomoPacked(n, off);
        SonPacked(SetHomo(n, off), 0);
        n := SetSon(SetHomo(n, off), 0);
        if homoNum > 0 {
          n := n.(homoNum := homoNum % BYTE);
        }
        ge1[pos] := n;
      }
    }

    method CopyIds(homoNum: nat, from: nat)
      requires homoEq1 + homoGt1 == from + homoNum <= |lemmas| <= homo.Length
      requires forall i :: 0 <= i < from ==> homo[i] == lemmas[i].id
      modifies homo
      ensures forall i :: 0 <= i < from + homoNum ==> homo[i] == lemmas[i].id
    {
      var buf := homoEq1 + homoGt1 - homoNum;
      for homoPos := 0 to homoNum
        invariant forall i :: 0 <= i < from + homoPos ==> homo[i] == lemmas[i].id
      {
        homo[buf + homoPos] := lemmas[from + homoPos].id;
      }
    }

    // A son with its own lemmas, and the subset below it.
    method ConstructSon(level: nat, pos: nat, spl: nat, homoNum: nat, from: nat, to: nat)
      requires Ready() && level < MAX_LEMMA_SIZE && from < to <= |lemmas| && from == homoEq1 + homoGt1
      requires Same(lemmas, from, to, level + 1) && spl == Id(lemmas[from], level)
      requires homoNum == Own(lemmas, from, to, level)
      requires FitsUnder(lemmas, from, to, level) && usedGe1 + Under(lemmas, from, to, level) <= ge1.Length
      requires if level == 0 then pos < usedLe0 && le0[pos] == ZERO0 else pos < usedGe1 && ge1[pos] == ZERO1
      modifies this`homoEq1, this`homoGt1, this`usedLe0, this`usedGe1, le0, ge1, homo
      ensures Ready() && homoEq1 + homoGt1 == to && usedLe0 == old(usedLe0)
      ensures usedGe1 == old(usedGe1) + Under(lemmas, from, to, level)
      ensures OnlyGrew(old(le0[..]), le0[..], old(ge1[..usedGe1]), ge1[..usedGe1], level, pos)
      ensures NodeIs(ge1[..usedGe1], CellOf(le0[..], ge1[..usedGe1], level, pos), old(usedGe1), usedGe1, lemmas, from,
                to, level)
      decreases MAX_LEMMA_SIZE - level, 0
    {
      hide *;
      ReadyFacts();
      ghost var l0, g0 := le0[..], ge1[..usedGe1];
      SonFacts(lemmas, from, to, level);
      PutNode(level, pos, spl, homoNum, from);
      ghost var l1, g1, used1 := le0[..], ge1[..usedGe1], usedLe0;
      if to - from > homoNum {
        IsRoom(from + homoNum, to, level + 1);
        var ok := ConstructSubset(pos, from + homoNum, to, level + 1);
        ReadyFacts();
        ConstructedParts(l1, le0[..], g1, ge1[..usedGe1], used1, usedLe0, lemmas, pos, from + homoNum, to, level + 1);
        Grows(l0, l1, le0[..], g0, g1, ge1[..usedGe1], level, pos);
        SonBlock(l1, le0[..], g1, ge1[..usedGe1], lemmas, from, to, level, pos, |g1|);
      } else {
        SonAlone(le0[..], ge1[..usedGe1], lemmas, from, to, level, pos, |g1|);
      }
    }

    // construct_subset: the sons of a node, one for each group of the lemmas from..to.
    method ConstructSubset(parent: nat, from: nat, to: nat, level: nat) returns (ok: bool)
      requires Ready() && level <= MAX_LEMMA_SIZE
      requires level < MAX_LEMMA_SIZE && from < to ==>
                 && Cluster(lemmas, from, to, level) && Room(from, to, level) && from == homoEq1 + homoGt1
                 && (if level <= 1 then parent < usedLe0 else parent < usedGe1)
      modifies this`homoEq1, this`homoGt1, this`usedLe0, this`usedGe1, le0, ge1, homo
      ensures ok <==> level < MAX_LEMMA_SIZE && from < to
      ensures !ok ==> unchanged(this) && unchanged(le0) && unchanged(ge1) && unchanged(homo)
      ensures Ready() && (ok ==> homoEq1 + homoGt1 == to)
      ensures ok ==> Constructed(old(le0[..]), le0[..], old(ge1[..usedGe1]), ge1[..usedGe1], old(usedLe0), usedLe0,
                                 lemmas, parent, from, to, level)
      decreases MAX_LEMMA_SIZE - level, 3
    {
      if level >= MAX_LEMMA_SIZE || to <= from {
        return false;
      }
      assert to <= |lemmas|;
      hide Ready, OnlyGrew, CellOf, Ordered, NodeIs, SonsAre, Done, Under, FitsUnder, Below, Fits, Own, Id, StartOf,
        Groups, GroupEnd,
           Same, Block, ParentOf, ParentKept, Noted, Progress, Run, Leads, Built, Constructed;
      ReadyFacts();
      ghost var l0, g0, used0 := le0[..], ge1[..usedGe1], usedLe0;
      var num := CountSons(from, to, level);
      StartZero(lemmas, from, to, level);
      var first := NoteSons(level, parent, num);
      ghost var b := Job(le0[..], ge1[..usedGe1], from, to, level, first, num, usedLe0);
      ProgressZero(l0, b.l1, g0, b.g1, level, parent, first, num);
      JobStarts(b);
      BuildSons(b, from, to, level, first);
      ReadyFacts();
      JobEnds(b, num);
      BlockDone(l0, b.l1, le0[..], g0, b.g1, ge1[..usedGe1], used0, usedLe0, lemmas, from, to, level, parent, first,
                num, Lo(b));
      ok := true;
    }

    // One son after the other, as the level's id changes.
    method BuildSons(ghost b: Job, from: nat, to: nat, level: nat, first: nat)
      requires Built(b, 0, from) && from == b.from < to == b.to <= |lemmas| && level == b.level && first == b.first
      requires b.num > 0
      requires Ordered(lemmas) && Cluster(lemmas, from, to, level)
      modifies this`homoEq1, this`homoGt1, this`usedLe0, this`usedGe1, le0, ge1, homo
      ensures Ready() && Built(b, b.num, to)
      decreases MAX_LEMMA_SIZE - b.level, 2
    {
      hide *;
      GroupOpens(lemmas, from, level);
      var sonPos: nat := 0;
      var spl := Id(lemmas[from], level);
      var homoNum: nat := 0;
      if Id(lemmas[from], level + 1) == 0 {
        homoNum := 1;
      }
      var itemStart := from;
      var i := from + 1;
      while i < to
        invariant from <= itemStart < i <= to && spl == Id(lemmas[itemStart], level) && sonPos < b.num
        invariant Run(lemmas, itemStart, i, level) && Leads(lemmas, itemStart, i, level, homoNum)
        invariant Built(b, sonPos, itemStart)
      {
        if Id(lemmas[i], level) == spl {
          GroupGoesOn(lemmas, from, to, level, itemStart, i, homoNum);
          if Id(lemmas[i], level + 1) == 0 {
            homoNum := homoNum + 1;
          }
        } else {
          NextSon(b, level, first, sonPos, spl, homoNum, itemStart, i);
          GroupOpens(lemmas, i, level);
          itemStart := i;
          spl := Id(lemmas[i], level);
          homoNum := 0;
          if Id(lemmas[i], level + 1) == 0 {
            homoNum := 1;
          }
          sonPos := sonPos + 1;
        }
        i := i + 1;
      }
      NextSon(b, level, first, sonPos, spl, homoNum, itemStart, to);
      BuiltReady(b, sonPos + 1, to);
    }

    lemma BuiltReady(b: Job, k: nat, c: nat)
      requires Built(b, k, c)
      ensures Ready()
    {}

    // The first k sons of a block are built, and c is where the lemmas of the next one start.
    ghost predicate Built(b: Job, k: nat, c: nat)
      reads this, le0, ge1, homo
    {
      && Ready() && b.from <= c <= b.to <= |lemmas| && b.level < MAX_LEMMA_SIZE
      && Cluster(lemmas, b.from, b.to, b.level)
      && b.num == Groups(lemmas, b.from, b.to, b.level) && k <= b.num && c == StartOf(lemmas, b.from, b.to, b.level, k)
      && c == homoEq1 + homoGt1 && Fits(lemmas, c, b.to, b.level) && usedLe0 == b.was
      && usedGe1 + Below(lemmas, c, b.to, b.level) == |b.g1| + Below(lemmas, b.from, b.to, b.level) <= ge1.Length
      && Progress(b.l1, le0[..], b.g1, ge1[..usedGe1], b.level, b.first, b.num, k)
      && (b.level == 0 ==> b.first + b.num <= usedLe0)
      && forall j: nat :: j < k ==> Done(le0[..], ge1[..usedGe1], b.first, Lo(b), lemmas, b.from, b.to, b.level, j)
    }

    lemma JobStarts(b: Job)
      requires Ready() && b.level < MAX_LEMMA_SIZE && b.from < b.to <= |lemmas|
      requires Cluster(lemmas, b.from, b.to, b.level)
      requires b.num == Groups(lemmas, b.from, b.to, b.level) && b.from == homoEq1 + homoGt1 && usedLe0 == b.was
      requires Fits(lemmas, b.from, b.to, b.level) && b.l1 == le0[..] && b.g1 == ge1[..usedGe1]
      requires usedGe1 + Below(lemmas, b.from, b.to, b.level) <= ge1.Length
      requires Progress(b.l1, b.l1, b.g1, b.g1, b.level, b.first, b.num, 0)
      requires (b.level == 0 ==> b.first + b.num <= usedLe0)
      ensures Built(b, 0, b.from)
    {}

    lemma JobEnds(b: Job, k: nat)
      requires Built(b, k, b.to) && k == b.num
      ensures Ready() && homoEq1 + homoGt1 == b.to && usedLe0 == b.was
      ensures b.level < MAX_LEMMA_SIZE && b.to <= |lemmas|
      ensures usedGe1 == |b.g1| + Below(lemmas, b.from, b.to, b.level)
      ensures Progress(b.l1, le0[..], b.g1, ge1[..usedGe1], b.level, b.first, b.num, b.num)
      ensures forall j: nat :: j < b.num ==>
                Done(le0[..], ge1[..usedGe1], b.first, Lo(b), lemmas, b.from, b.to, b.level, j)
    {
      hide Done, NodeIs, Progress, Ready, Cluster, Fits;
    }

    lemma BuiltFacts(b: Job, k: nat, c: nat)
      requires Built(b, k, c) && k < b.num
      ensures Ready() && b.level < MAX_LEMMA_SIZE && b.from <= c <= b.to <= |lemmas|
      ensures Cluster(lemmas, b.from, b.to, b.level)
      ensures b.num == Groups(lemmas, b.from, b.to, b.level) && c == StartOf(lemmas, b.from, b.to, b.level, k)
      ensures c == homoEq1 + homoGt1 && Fits(lemmas, c, b.to, b.level) && usedLe0 == b.was
      ensures usedGe1 + Below(lemmas, c, b.to, b.level) == |b.g1| + Below(lemmas, b.from, b.to, b.level) <= ge1.Length
      ensures if b.level == 0 then b.first + k < usedLe0 <= le0.Length && le0[b.first + k] == ZERO0
              else b.first + k < usedGe1 <= ge1.Length && ge1[b.first + k] == ZERO1
    {
      hide Done, NodeIs, Cluster, Fits, Groups, StartOf, Below, Ordered, Same;
    }

    lemma BuiltNext(b: Job, k: nat, c: nat, d: nat, l: seq<Le0>, g: seq<Ge1>)
      requires Ready() && b.level < MAX_LEMMA_SIZE && b.from <= c < d <= b.to <= |lemmas|
      requires Cluster(lemmas, b.from, b.to, b.level)
      requires k < b.num == Groups(lemmas, b.from, b.to, b.level) && c == StartOf(lemmas, b.from, b.to, b.level, k)
      requires d == StartOf(lemmas, b.from, b.to, b.level, k + 1) == homoEq1 + homoGt1 && Fits(lemmas, d, b.to, b.level)
      requires usedLe0 == b.was
      requires usedGe1 + Below(lemmas, d, b.to, b.level) == |b.g1| + Below(lemmas, b.from, b.to, b.level) <= ge1.Length
      requires OnlyGrew(l, le0[..], g, ge1[..usedGe1], b.level, b.first + k)
      requires (b.level == 0 ==> b.first + b.num <= usedLe0)
      requires Progress(b.l1, l, b.g1, g, b.level, b.first, b.num, k)
      requires forall j: nat :: j < k ==> Done(l, g, b.first, Lo(b), lemmas, b.from, b.to, b.level, j)
      requires if b.level == 0 then b.first + k < |l| else b.first + k < |g|
      requires NodeIs(ge1[..usedGe1], CellOf(le0[..], ge1[..usedGe1], b.level, b.first + k), |g|, usedGe1, lemmas, c,
                 d, b.level)
      ensures Built(b, k + 1, d)
    {
      hide NodeIs, Done, Groups, StartOf, Cluster, Fits, Ready, Below, Id, Own;
      SonAdded(b.l1, l, le0[..], b.g1, g, ge1[..usedGe1], lemmas, b.from, b.to, b.level, b.first, b.num, k, Lo(b), c,
               d);
    }

    lemma BuiltSons(b: Job, k: nat, c: nat)
      requires Built(b, k, c)
      ensures Progress(b.l1, le0[..], b.g1, ge1[..usedGe1], b.level, b.first, b.num, k)
      ensures b.level == 0 ==> b.first + b.num <= usedLe0
      ensures b.level < MAX_LEMMA_SIZE && b.from <= b.to <= |lemmas| && k <= Groups(lemmas, b.from, b.to, b.level)
      ensures forall j: nat :: j < k ==> Done(le0[..], ge1[..usedGe1], b.first, Lo(b), lemmas, b.from, b.to, b.level, j)
    {
      hide NodeIs, Done, Progress, Ready, Cluster, Fits;
    }

    // The lemmas itemStart..i are a whole group: its son is built.
    method NextSon(ghost b: Job, level: nat, first: nat, sonPos: nat, spl: nat, homoNum: nat, itemStart: nat, i: nat)
      requires Built(b, sonPos, itemStart) && level == b.level && first == b.first && sonPos < b.num
      requires b.from <= itemStart < i <= b.to <= |lemmas| && spl == Id(lemmas[itemStart], level)
      requires i < b.to ==> Id(lemmas[i], level) != spl
      requires Run(lemmas, itemStart, i, level) && Leads(lemmas, itemStart, i, level, homoNum)
      modifies this`homoEq1, this`homoGt1, this`usedLe0, this`usedGe1, le0, ge1, homo
      ensures Built(b, sonPos + 1, i) && (i < b.to <==> sonPos + 1 < b.num)
      decreases MAX_LEMMA_SIZE - b.level, 1
    {
      hide Built, Ready, Cluster, Fits, FitsUnder, Below, Under, Own, Id, StartOf, Groups, GroupEnd, Same, Run, Leads,
        Ordered,
           NodeIs, Done, Progress, OnlyGrew, CellOf, Lo;
      BuiltFacts(b, sonPos, itemStart);
      BuiltSons(b, sonPos, itemStart);
      ReadyFacts();
      ghost var l, g := le0[..], ge1[..usedGe1];
      GroupCloses(lemmas, b.from, b.to, level, sonPos, itemStart, i, homoNum);
      ConstructSon(level, first + sonPos, spl, homoNum, itemStart, i);
      BuiltNext(b, sonPos, itemStart, i, l, g);
    }
  }

  // id_to_charbuf, at a byte offset of the buffer.
  method IdToCharbuf(buf: array<nat>, at: nat, id: nat)
    requires at + ID_SIZE <= buf.Length
    modifies buf
    ensures forall pos: nat :: pos < ID_SIZE ==> buf[at + pos] == ByteAt(id, pos)
    ensures forall i :: 0 <= i < buf.Length && !(at <= i < at + ID_SIZE) ==> buf[i] == old(buf[i])
  {
    var rest := id;
    for pos := 0 to ID_SIZE
      invariant forall i :: 0 <= i < buf.Length && !(at <= i < at + pos) ==> buf[i] == old(buf[i])
      invariant forall q: nat :: q < pos ==> buf[at + q] == ByteAt(id, q)
      invariant rest == Shifted(id, pos)
    {
      buf[at + pos] := rest % BYTE;
      rest := rest / BYTE;
    }
  }

  // Fills the byte buffer, id after id.
  method PackIds(ids: seq<nat>) returns (buf: array<nat>)
    requires forall i :: 0 <= i < |ids| ==> ids[i] < ID_LIMIT
    ensures fresh(buf) && HoldsIds(buf[..], ids)
  {
    buf := new nat[|ids| * ID_SIZE](i => 0);
    for k: nat := 0 to |ids|
      invariant forall j: nat :: j < k ==> IdHeld(buf[..], ids, j)
    {
      ghost var before := buf[..];
      IdToCharbuf(buf, k * ID_SIZE, ids[k]);
      forall j: nat | j < k
        ensures IdHeld(buf[..], ids, j)
      {
        assert IdHeld(before, ids, j);
      }
      ReadBack(buf[..], k, ids[k]);
    }
  }

  // A block under construction: the nodes when it was noted, its lemmas, and its place.
  datatype Job = Job(l1: seq<Le0>, g1: seq<Ge1>, from: nat, to: nat, level: nat, first: nat, num: nat, was: nat)

  // Packed nodes below a block's sons lie from here on.
  ghost function Lo(b: Job): nat { if b.level == 0 then 0 else b.first + b.num }

  const MAX_SPELLING_NUM := 482

  lemma TrieDone(l: seq<Le0>, g: seq<Ge1>, used: nat, es: seq<Entry>)
    requires Ordered(es) && 0 < |es| && used == 1 + Groups(es, 0, |es|, 0) <= |l| && l[0].sonOff == 1
    requires Block(l, g, ParentOf(l, g, 0, 0), es, 0, |es|, 0)
    ensures IsTrie(l[..used], g, es)
  {
    hide NodeIs, Groups, StartOf;
    var l' := l[..used];
    forall i: nat | i < Groups(es, 0, |es|, 0)
      ensures RootSonIs(l', g, es, i)
    {
      assert Done(l, g, 1, 0, es, 0, |es|, 0, i);
    }
  }

  lemma StartZero(es: seq<Entry>, a: nat, b: nat, level: nat)
    requires a < b <= |es|
    ensures Groups(es, a, b, level) > 0 && StartOf(es, a, b, level, 0) == a
  {}

  ghost function ParentOf(l: seq<Le0>, g: seq<Ge1>, level: nat, pos: nat): View
    requires if level <= 1 then pos < |l| else pos < |g|
  {
    if level <= 1 then Look0(l[pos]) else Look1(g[pos])
  }

  // What noting the sons changes: the parent, and blank places for the sons.
  ghost predicate Noted(l0: seq<Le0>, l1: seq<Le0>, g0: seq<Ge1>, g1: seq<Ge1>, level: nat, parent: nat, first: nat,
                        num: nat) {
    && |l1| == |l0| && |g1| == |g0| + (if level == 0 then 0 else num)
    && (if level <= 1 then parent < |l0| else parent < |g0|)
    && ParentOf(l1, g1, level, parent) == ParentOf(l0, g0, level, parent).(sonOff := first, sonNum := num)
    && (forall i :: 0 <= i < |l0| && (level > 1 || i != parent) ==> l1[i] == l0[i])
    && (forall i :: 0 <= i < |g0| && (level <= 1 || i != parent) ==> g1[i] == g0[i])
    && (if level == 0 then
          parent < first && first + num <= |l1| && forall i :: first <= i < first + num ==> l1[i] == ZERO0
        else first == |g0| && forall i :: first <= i < |g1| ==> g1[i] == ZERO1)
  }

  lemma NotedRoot(l0: seq<Le0>, l1: seq<Le0>, g0: seq<Ge1>, g1: seq<Ge1>, parent: nat, first: nat, num: nat)
    requires parent < first && first + num <= |l0| && num < WORD && g1 == g0
    requires l1 == l0[parent := l0[parent].(sonOff := first, sonNum := num % WORD)]
    requires forall i :: first <= i < first + num ==> l0[i] == ZERO0
    ensures Noted(l0, l1, g0, g1, 0, parent, first, num)
  {}

  lemma NotedFirst(l0: seq<Le0>, l1: seq<Le0>, g0: seq<Ge1>, g1: seq<Ge1>, parent: nat, num: nat)
    requires parent < |l0| && num < WORD && |g1| == |g0| + num && g1[..|g0|] == g0
    requires l1 == l0[parent := l0[parent].(sonOff := |g0|, sonNum := num % WORD)]
    requires forall i :: |g0| <= i < |g1| ==> g1[i] == ZERO1
    ensures Noted(l0, l1, g0, g1, 1, parent, |g0|, num)
  {
    assert forall i :: 0 <= i < |g0| ==> g1[i] == g1[..|g0|][i];
  }

  lemma NotedPacked(l0: seq<Le0>, g0: seq<Ge1>, g1: seq<Ge1>, level: nat, parent: nat, num: nat)
    requires level > 1 && parent < |g0| < ID_LIMIT && num < BYTE && |g1| == |g0| + num
    requires g1[..|g0|] == g0[parent := SetSon(g0[parent], |g0|).(sonNum := num % BYTE)]
    requires forall i :: |g0| <= i < |g1| ==> g1[i] == ZERO1
    ensures Noted(l0, l0, g0, g1, level, parent, |g0|, num)
  {
    SonPacked(g0[parent], |g0|);
    assert forall i :: 0 <= i < |g0| ==> g1[i] == g1[..|g0|][i];
  }

  // The first k sons of a noted block are built: the others are blank, and nothing before them changed.
  ghost predicate Progress(l1: seq<Le0>, l: seq<Le0>, g1: seq<Ge1>, g: seq<Ge1>, level: nat, first: nat, num: nat,
                           k: nat) {
    if level == 0 then
      && |l| == |l1| && first + num <= |l| && |g1| <= |g|
      && (forall i :: 0 <= i < first ==> l[i] == l1[i])
      && (forall i :: first + k <= i < first + num ==> l[i] == ZERO0)
      && forall i :: 0 <= i < |g1| ==> g[i] == g1[i]
    else
      && l == l1 && first + num <= |g1| <= |g|
      && (forall i :: 0 <= i < first ==> g[i] == g1[i])
      && forall i :: first + k <= i < first + num ==> g[i] == ZERO1
  }

  lemma ProgressZero(l0: seq<Le0>, l1: seq<Le0>, g0: seq<Ge1>, g1: seq<Ge1>, level: nat, parent: nat, first: nat,
                     num: nat)
    requires Noted(l0, l1, g0, g1, level, parent, first, num)
    ensures Progress(l1, l1, g1, g1, level, first, num, 0)
  {}

  lemma SonAdded(l1: seq<Le0>, l: seq<Le0>, l': seq<Le0>, g1: seq<Ge1>, g: seq<Ge1>, g': seq<Ge1>,
                 es: seq<Entry>, a: nat, b: nat, level: nat, first: nat, num: nat, k: nat, lo: nat, c: nat, d: nat)
    requires a <= b <= |es| && level < MAX_LEMMA_SIZE && k < num == Groups(es, a, b, level)
    requires Progress(l1, l, g1, g, level, first, num, k) && OnlyGrew(l, l', g, g', level, first + k)
    requires c < d <= |es| && c == StartOf(es, a, b, level, k) && d == StartOf(es, a, b, level, k + 1)
    requires lo == if level == 0 then 0 else first + num
    requires forall j: nat :: j < k ==> Done(l, g, first, lo, es, a, b, level, j)
    requires if level == 0 then first + k < |l| else first + k < |g|
    requires NodeIs(g', CellOf(l', g', level, first + k), |g|, |g'|, es, c, d, level)
    ensures Progress(l1, l', g1, g', level, first, num, k + 1)
    ensures forall j: nat :: j < k + 1 ==> Done(l', g', first, lo, es, a, b, level, j)
  {
    hide NodeIs, Done, Groups, StartOf, CellOf, Own, Id;
    AllKept(l, l', g, g', first, k, lo, es, a, b, level);
    SonDone(l', g', first, lo, |g|, es, a, b, level, k, c, d);
  }

  lemma SonDone(l: seq<Le0>, g: seq<Ge1>, first: nat, lo: nat, from: nat, es: seq<Entry>, a: nat, b: nat, level: nat,
                k: nat, c: nat, d: nat)
    requires a <= b <= |es| && level < MAX_LEMMA_SIZE && k < Groups(es, a, b, level)
    requires c < d <= |es| && c == StartOf(es, a, b, level, k) && d == StartOf(es, a, b, level, k + 1)
    requires lo <= from <= |g| && if level == 0 then first + k < |l| else first + k < |g|
    requires NodeIs(g, CellOf(l, g, level, first + k), from, |g|, es, c, d, level)
    ensures Done(l, g, first, lo, es, a, b, level, k)
  {
    Kept(g, g, CellOf(l, g, level, first + k), from, |g|, lo, |g|, es, c, d, level);
  }

  // The block a parent points at.
  ghost predicate Block(l: seq<Le0>, g: seq<Ge1>, v: View, es: seq<Entry>, a: nat, b: nat, level: nat)
    requires a <= b <= |es| && level < MAX_LEMMA_SIZE
  {
    && v.sonNum == Groups(es, a, b, level)
    && if level == 0 then forall i: nat :: i < v.sonNum ==> Done(l, g, v.sonOff, 0, es, a, b, 0, i)
       else SonsAre(g, v.sonOff, v.sonNum, |g|, es, a, b, level)
  }

  ghost predicate ParentKept(l0: seq<Le0>, l: seq<Le0>, g0: seq<Ge1>, g: seq<Ge1>, level: nat, parent: nat)
  {
    && (if level <= 1 then parent < |l0| && parent < |l| else parent < |g0| && parent < |g|)
    && var v := ParentOf(l, g, level, parent);
       v == ParentOf(l0, g0, level, parent).(sonOff := v.sonOff, sonNum := v.sonNum)
  }

  // All that construct_subset does to the node arrays and their lengths.
  ghost predicate Constructed(l0: seq<Le0>, l: seq<Le0>, g0: seq<Ge1>, g: seq<Ge1>, used0: nat, used: nat,
                              es: seq<Entry>, parent: nat, a: nat, b: nat, level: nat)
  {
    && a < b <= |es| && level < MAX_LEMMA_SIZE
    && used == used0 + (if level == 0 then Groups(es, a, b, 0) else 0)
    && |g| == |g0| + (if level == 0 then 0 else Groups(es, a, b, level)) + Below(es, a, b, level)
    && ParentKept(l0, l, g0, g, level, parent)
    && var v := ParentOf(l, g, level, parent);
       && v.sonOff == (if level == 0 then used0 else |g0|) && Block(l, g, v, es, a, b, level)
       && (level > 0 ==> OnlyGrew(l0, l, g0, g, level - 1, parent))
  }

  lemma BlockDone(l0: seq<Le0>, l1: seq<Le0>, l: seq<Le0>, g0: seq<Ge1>, g1: seq<Ge1>, g: seq<Ge1>, used0: nat,
                  used: nat,
                  es: seq<Entry>, a: nat, b: nat, level: nat, parent: nat, first: nat, num: nat, lo: nat)
    requires Noted(l0, l1, g0, g1, level, parent, first, num) && Progress(l1, l, g1, g, level, first, num, num)
    requires a < b <= |es| && level < MAX_LEMMA_SIZE && num == Groups(es, a, b, level)
    requires lo == if level == 0 then 0 else first + num
    requires forall j: nat :: j < num ==> Done(l, g, first, lo, es, a, b, level, j)
    requires first == (if level == 0 then used0 else |g0|) && used == used0 + (if level == 0 then num else 0)
    requires |g| == |g1| + Below(es, a, b, level)
    ensures Constructed(l0, l, g0, g, used0, used, es, parent, a, b, level)
  {
    hide Done, Groups, SonsAre, Below, CellOf;
    if level > 0 {
      DoneAll(l, g, first, num, lo, es, a, b, level);
    }
    assert ParentOf(l, g, level, parent) == ParentOf(l1, g1, level, parent);
  }

  // A chain of changes below one node.
  lemma Grows(l0: seq<Le0>, l1: seq<Le0>, l2: seq<Le0>, g0: seq<Ge1>, g1: seq<Ge1>, g2: seq<Ge1>, level: nat, pos: nat)
    requires OnlyGrew(l0, l1, g0, g1, level, pos) && OnlyGrew(l1, l2, g1, g2, level, pos)
    ensures OnlyGrew(l0, l2, g0, g2, level, pos)
  {}

  lemma ConstructedParts(l0: seq<Le0>, l: seq<Le0>, g0: seq<Ge1>, g: seq<Ge1>, used0: nat, used: nat,
                         es: seq<Entry>, parent: nat, a: nat, b: nat, level: nat)
    requires Constructed(l0, l, g0, g, used0, used, es, parent, a, b, level) && level > 0
    ensures a < b <= |es| && level < MAX_LEMMA_SIZE && used == used0
    ensures |g| == |g0| + Groups(es, a, b, level) + Below(es, a, b, level)
    ensures ParentKept(l0, l, g0, g, level, parent) && OnlyGrew(l0, l, g0, g, level - 1, parent)
    ensures (if level <= 1 then parent < |l| else parent < |g|)
    ensures ParentOf(l, g, level, parent).sonOff == |g0| && Block(l, g, ParentOf(l, g, level, parent), es, a, b, level)
  {
    hide Groups, Below, Block, OnlyGrew;
  }

  lemma SonFacts(es: seq<Entry>, from: nat, to: nat, level: nat)
    requires Ordered(es) && level < MAX_LEMMA_SIZE && from < to <= |es| && Same(es, from, to, level + 1)
    requires FitsUnder(es, from, to, level)
    ensures Own(es, from, to, level) <= HomoCap(level)
    ensures var k := from + Own(es, from, to, level);
            if k == to then Under(es, from, to, level) == 0
            else
              && level + 1 < MAX_LEMMA_SIZE && Cluster(es, k, to, level + 1)
              && Groups(es, k, to, level + 1) <= SonCap(level + 1) && Fits(es, k, to, level + 1)
              && Under(es, from, to, level) == Groups(es, k, to, level + 1) + Below(es, k, to, level + 1)
  {
    OwnFacts(es, from, to, level);
    var k := from + Own(es, from, to, level);
    if k < to {
      assert |es[k].splids| > level + 1 && OkEntry(es[k]);
    }
  }

  lemma SonBlock(l1: seq<Le0>, l: seq<Le0>, g1: seq<Ge1>, g: seq<Ge1>, es: seq<Entry>, from: nat, to: nat, level: nat,
                 pos: nat, lo: nat)
    requires from < to <= |es| && level + 1 < MAX_LEMMA_SIZE && from + Own(es, from, to, level) < to
    requires if level == 0 then pos < |l1| && pos < |l| else pos < |g1| && pos < |g|
    requires CellOf(l1, g1, level, pos) == View(Id(es[from], level), 0, 0, from, Own(es, from, to, level))
    requires ParentKept(l1, l, g1, g, level + 1, pos) && lo <= ParentOf(l, g, level + 1, pos).sonOff
    requires Block(l, g, ParentOf(l, g, level + 1, pos), es, from + Own(es, from, to, level), to, level + 1)
    ensures NodeIs(g, CellOf(l, g, level, pos), lo, |g|, es, from, to, level)
  {
    hide SonsAre, Groups, Own, Id;
  }

  lemma SonAlone(l: seq<Le0>, g: seq<Ge1>, es: seq<Entry>, from: nat, to: nat, level: nat, pos: nat, lo: nat)
    requires from < to <= |es| && level < MAX_LEMMA_SIZE && from + Own(es, from, to, level) == to
    requires if level == 0 then pos < |l| else pos < |g|
    requires CellOf(l, g, level, pos) == View(Id(es[from], level), 0, 0, from, Own(es, from, to, level))
    ensures NodeIs(g, CellOf(l, g, level, pos), lo, |g|, es, from, to, level)
  {}

  lemma GroupOpens(es: seq<Entry>, c: nat, level: nat)
    requires c < |es|
    ensures Run(es, c, c + 1, level) && Leads(es, c, c + 1, level, if Id(es[c], level + 1) == 0 then 1 else 0)
  {}

  lemma GroupGoesOn(es: seq<Entry>, a: nat, b: nat, level: nat, c: nat, i: nat, n: nat)
    requires Ordered(es) && Cluster(es, a, b, level) && a <= c < i < b && Id(es[i], level) == Id(es[c], level)
    requires Run(es, c, i, level) && Leads(es, c, i, level, n)
    ensures Run(es, c, i + 1, level) && Leads(es, c, i + 1, level, if Id(es[i], level + 1) == 0 then n + 1 else n)
  {
    hide Id, Leads;
    RunSame(es, a, b, level, c, i + 1);
    LeadsMore(es, c, i, level, n);
  }

  lemma NoneBelow(es: seq<Entry>, b: nat, level: nat)
    requires b <= |es| && level < MAX_LEMMA_SIZE
    ensures Below(es, b, b, level) == 0
  {}

  lemma GroupCloses(es: seq<Entry>, a: nat, b: nat, level: nat, k: nat, c: nat, i: nat, n: nat)
    requires Ordered(es) && Cluster(es, a, b, level) && a <= c < i <= b
    requires (i < b ==> Id(es[i], level) != Id(es[c], level))
    requires level < MAX_LEMMA_SIZE && k < Groups(es, a, b, level) && c == StartOf(es, a, b, level, k)
    requires Run(es, c, i, level) && Leads(es, c, i, level, n) && Fits(es, c, b, level)
    ensures i == StartOf(es, a, b, level, k + 1) && (k + 1 < Groups(es, a, b, level) <==> i < b)
    ensures Same(es, c, i, level + 1) && n == Own(es, c, i, level)
    ensures FitsUnder(es, c, i, level) && Fits(es, i, b, level)
    ensures Below(es, c, b, level) == Under(es, c, i, level) + Below(es, i, b, level)
    ensures (i == b ==> Below(es, i, b, level) == 0)
  {
    hide Id, Leads, StartOf, Groups, Fits, FitsUnder, Below, Under, Own, GroupEnd, Ordered;
    NoneBelow(es, b, level);
    StartNext(es, a, b, level, k);
    GroupEndIs(es, c, i, b, level);
    StartNext(es, a, b, level, k + 1);
    RunSame(es, a, b, level, c, i);
    OwnIs(es, c, i, level, n);
    BelowFrom(es, a, b, level, k);
  }
}
