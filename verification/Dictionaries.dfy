// What the decoder gets from its two dictionaries, and how the match nodes it keeps hold on to mile
// stones of the system dictionary.

module Dictionaries {
  import opened Limits
  import opened Lattice
  import opened Beam
  import opened Decoder
  import T = Trie
  import C = TrieCover
  import W = TrieWalk
  import D = DictTrie
  import S = SpellingIds

  const MAX_LPI := 1450

  // The system dictionary's lemmas and the user dictionary's answers.
  datatype Dicts = Dicts(es: seq<T.Entry>, num: nat, h: S.Halves, psbs: seq<nat>, user: seq<nat> -> (bool, seq<Lpi>))

  ghost predicate OkDicts(c: Dicts) {
    && T.Ordered(c.es) && W.AllRoots(c.es, c.num) && S.OkHalves(c.h)
    && forall ids :: c.user(ids).1 != [] ==> c.user(ids).0
  }

  // An id that stands for full ids of the table, few enough for a mark.
  ghost predicate OkId(c: Dicts, id: nat)
    requires S.OkHalves(c.h)
  {
    D.OkRange(S.RangeOf(c.h, id), c.num) && S.RangeOf(c.h, id).num < T.BYTE
  }

  ghost predicate OkIds(c: Dicts, ids: seq<nat>)
    requires S.OkHalves(c.h)
  {
    0 < |ids| <= MAX_LEMMA_SIZE && forall i :: 0 <= i < |ids| ==> OkId(c, ids[i])
  }

  // The groups of lemmas that begin with the ids.
  ghost function Layer(c: Dicts, ids: seq<nat>): (gs: seq<C.Group>)
    requires OkDicts(c) && ids != []
    ensures C.AllIn(c.es, gs)
  {
    C.Cover(c.es, D.Ranges(c.h, ids), |ids|)
  }

  function ToLpis(items: seq<D.Item>): (r: seq<Lpi>)
    ensures |r| == |items| && forall i :: 0 <= i < |items| ==> r[i] == Lpi(items[i].id, items[i].psb)
  {
    seq<Lpi>(|items|, i requires 0 <= i < |items| => Lpi(items[i].id, items[i].psb))
  }

  // The groups whose lemmas are answered: of a lone one-letter final only the first.
  ghost function Answered(c: Dicts, ids: seq<nat>): (gs: seq<C.Group>)
    requires OkDicts(c) && ids != []
    ensures C.AllIn(c.es, gs)
  {
    if |ids| == 1 then D.Front(S.IsHalfYunmu(ids[0]), Layer(c, ids)) else Layer(c, ids)
  }

  // The system dictionary's lemmas for the ids.
  ghost function SysLpis(c: Dicts, ids: seq<nat>): seq<Lpi>
    requires OkDicts(c) && ids != []
  {
    ToLpis(C.First(MAX_LPI, D.ToItems(C.Items(c.es, Answered(c, ids), |ids|), |ids|, c.psbs)))
  }

  // The answer of both dictionaries, of those the match so far is alive in. The user dictionary does not
  // go on when the system dictionary leaves it no room.
  ghost function Asked(c: Dicts, ids: seq<nat>, sys: bool, user: bool): Look
    requires OkDicts(c) && ids != []
  {
    var s := sys && Layer(c, ids) != [];
    var mine := if s then SysLpis(c, ids) else [];
    var u := user && |mine| < MAX_LPI && c.user(ids).0;
    var yours := if u then C.First(MAX_LPI - |mine|, c.user(ids).1) else [];
    Look(s, u, mine + yours)
  }

  // Where the system dictionary fills the buffer for a half id, the user dictionary has nothing for it.
  ghost predicate Steady(half: nat -> bool, c: Dicts)
    requires OkDicts(c)
  {
    forall id: nat :: half(id) && OkId(c, id) && |SysLpis(c, [id])| >= MAX_LPI ==> !c.user([id]).0
  }

  // w's parser yields ids of the table, and its look is the answer of the dictionaries.
  ghost predicate Speaks(w: World, c: Dicts) {
    && OkDicts(c) && Steady(w.half, c)
    && (forall s: string :: w.splid(s).0 != 0 ==> OkId(c, w.splid(s).0))
    && forall ids: seq<nat>, a: bool, b: bool :: OkIds(c, ids) ==> w.look(ids, a, b) == Asked(c, ids, a, b)
  }

  // The dictionary holds the lemmas.
  ghost predicate Same(dict: D.DictTrie, c: Dicts)
    reads dict, dict.root, dict.nodes, dict.idBuf, dict.splidIndex, dict.marks, dict.stones
  {
    dict.Valid() && dict.lemmas == c.es && dict.splNum == c.num && dict.psbs == c.psbs
  }

  // How many marks an extension to the ids writes.
  ghost function Weight(c: Dicts, ids: seq<nat>): nat
    requires OkDicts(c) && ids != []
  {
    if |ids| == 1 then 1
    else
      var front, last := ids[..|ids| - 1], ids[|ids| - 1];
      D.Lively(c.es, Layer(c, front), |front|, S.RangeOf(c.h, last))
  }

  lemma RangesFront(c: Dicts, ids: seq<nat>)
    requires OkDicts(c) && |ids| > 1
    ensures var rs, n := D.Ranges(c.h, ids), |ids| - 1;
            && |rs| == |ids| && |D.Ranges(c.h, ids[..n])| == n && D.Ranges(c.h, ids[..n]) == rs[..n]
            && rs[..n] + [S.RangeOf(c.h, ids[n])] == rs
  {
    hide S.RangeOf, T.Ordered, W.AllRoots;
  }

  lemma IdsFacts(c: Dicts, ids: seq<nat>)
    requires OkDicts(c) && OkIds(c, ids)
    ensures 0 < |ids| <= MAX_LEMMA_SIZE && OkId(c, ids[|ids| - 1]) && T.Ordered(c.es) && S.OkHalves(c.h)
    ensures D.OkRange(S.RangeOf(c.h, ids[|ids| - 1]), c.num) && S.RangeOf(c.h, ids[|ids| - 1]).num < T.BYTE
  {
    hide S.RangeOf, T.Ordered, W.AllRoots, D.OkRange;
  }

  lemma OneId(c: Dicts, ids: seq<nat>)
    requires OkDicts(c) && |ids| == 1
    ensures D.Ranges(c.h, ids) == [S.RangeOf(c.h, ids[0])]
    ensures Layer(c, ids) == C.Cover(c.es, [S.RangeOf(c.h, ids[0])], 1)
  {
    assert D.Ranges(c.h, ids) == [S.RangeOf(c.h, ids[0])];
    hide S.RangeOf, T.Ordered, W.AllRoots, C.Cover;
  }

  // A root extension always leads somewhere.
  lemma RootLayer(c: Dicts, ids: seq<nat>)
    requires OkDicts(c) && OkIds(c, ids) && |ids| == 1
    ensures Layer(c, ids) != []
  {
    OneId(c, ids);
    var r := S.RangeOf(c.h, ids[0]);
    D.OneRange(c.es, r);
    var gs := D.RunGroups(c.es, c.num, r);
  }

  // The part of extend_dmi that asks the system dictionary: from the root, or from a mile stone.
  method AskSys(dict: D.DictTrie, from: nat, ids: seq<nat>, cached: bool, h: S.Halves, buf: array<D.Item>,
                ghost c: Dicts)
    returns (handle: nat, num: nat)
    requires Same(dict, c) && OkDicts(c) && OkIds(c, ids) && h == c.h && buf.Length == MAX_LPI
    requires |ids| > 1 && from > 0 ==> dict.HandleMeans(from, D.Ranges(h, ids[..|ids| - 1]))
    requires dict.stonesPos < D.MAX_MILE_STONE
    requires (|ids| == 1 || from > 0) && Layer(c, ids) != [] ==> dict.marksPos + Weight(c, ids) <= D.MAX_PARSING_MARK
    modifies dict`marksPos, dict`stonesPos, dict.marks, dict.stones, buf
    ensures Same(dict, c) && num <= MAX_LPI && (cached && |ids| == 1 ==> num == 0)
    ensures handle > 0 <==> (|ids| == 1 || from > 0) && Layer(c, ids) != []
    ensures handle > 0 ==> handle == old(dict.stonesPos) && dict.HandleMeans(handle, D.Ranges(h, ids))
    ensures dict.stonesPos == old(dict.stonesPos) + (if handle > 0 then 1 else 0)
    ensures dict.marksPos == old(dict.marksPos) + (if handle > 0 then Weight(c, ids) else 0)
    ensures handle > 0 && !(cached && |ids| == 1) ==>
              D.Filled(c.es, c.psbs, buf[..num], MAX_LPI, |ids|, Answered(c, ids))
    ensures forall k: nat, q: seq<S.Range> :: old(dict.HandleMeans(k, q)) ==> dict.HandleMeans(k, q)
  {
    hide *;
    IdsFacts(c, ids);
    SameFacts(dict, c);
    WeightIs(c, ids);
    var splid := ids[|ids| - 1];
    handle, num := 0, 0;
    if |ids| == 1 {
      OneId(c, ids);
      RootLayer(c, ids);
      handle, num := dict.ExtendDict0(splid, S.RangeOf(h, splid), cached, buf, MAX_LPI);
    } else if from > 0 {
      RangesFront(c, ids);
      LayerIs(c, ids);
      LayerIs(c, ids[..|ids| - 1]);
      ghost var rs := D.Ranges(h, ids[..|ids| - 1]);
      dict.HandleFacts(from, rs);
      D.CoverMore(c.es, rs, S.RangeOf(h, splid));
      D.LivelyNone(c.es, C.Cover(c.es, rs, |rs|), |rs|, S.RangeOf(h, splid));
      handle, num := dict.ExtendFrom(from, S.RangeOf(h, splid), buf, MAX_LPI, rs, |ids| - 1);
    }
    IsSame(dict, c);
  }

  lemma IsSame(dict: D.DictTrie, c: Dicts)
    requires dict.Valid() && dict.lemmas == c.es && dict.splNum == c.num && dict.psbs == c.psbs
    ensures Same(dict, c)
  {}

  lemma SameFacts(dict: D.DictTrie, c: Dicts)
    requires Same(dict, c)
    ensures dict.Valid() && dict.lemmas == c.es && dict.splNum == c.num && dict.psbs == c.psbs
    ensures dict.stonesPos >= D.FIRST_HANDLE > 0 && dict.marksPos <= D.MAX_PARSING_MARK
  {
    dict.FirstStone();
    dict.ValidFacts();
    hide D.Filled;
  }

  lemma WeightIs(c: Dicts, ids: seq<nat>)
    requires OkDicts(c) && ids != []
    ensures |ids| == 1 ==> Weight(c, ids) == 1
    ensures |ids| > 1 ==>
              var front, last := ids[..|ids| - 1], ids[|ids| - 1];
              Weight(c, ids) == D.Lively(c.es, Layer(c, front), |front|, S.RangeOf(c.h, last))
    ensures Answered(c, ids) == if |ids| == 1 then D.Front(S.IsHalfYunmu(ids[0]), Layer(c, ids)) else Layer(c, ids)
  {
    hide OkDicts, Layer;
  }

  lemma LayerIs(c: Dicts, ids: seq<nat>)
    requires OkDicts(c) && ids != []
    ensures Layer(c, ids) == C.Cover(c.es, D.Ranges(c.h, ids), |ids|)
  {
    hide T.Ordered, W.AllRoots, C.Cover;
  }

  // Whether the user dictionary goes on: of a cached half id it is asked with the whole buffer.
  ghost function UserOn(c: Dicts, ids: seq<nat>, sys: bool, user: bool, cached: bool): bool
    requires OkDicts(c) && ids != []
  {
    if cached && |ids| == 1 then user && c.user(ids).0 else Asked(c, ids, sys, user).user
  }

  // Asked again, with its lemmas cached, a half id has the same answer exactly when the system dictionary
  // has not filled the buffer, or the user dictionary has nothing for it.
  lemma FullListForgets(c: Dicts, id: nat)
    requires OkDicts(c) && OkId(c, id)
    ensures UserOn(c, [id], true, true, true) == UserOn(c, [id], true, true, false) <==>
              |SysLpis(c, [id])| < MAX_LPI || !c.user([id]).0
  {
    RootLayer(c, [id]);
    hide OkDicts, OkId, Layer, SysLpis;
  }

  // Lemmas of one spelling, and a user dictionary that goes on with half id 2, which stands for it.
  function Many(n: nat): (es: seq<T.Entry>)
    ensures |es| == n && forall i :: 0 <= i < n ==> es[i] == T.Entry([S.FULL_START], i + 1)
  {
    seq<T.Entry>(n, i requires 0 <= i < n => T.Entry([S.FULL_START], i + 1))
  }

  function ManyDicts(n: nat): Dicts {
    Dicts(Many(n), 1, S.Halves(seq<nat>(S.FULL_START, i => S.FULL_START), seq<nat>(S.FULL_START, i => 1)), [],
          (ids: seq<nat>) => (ids == [2], []))
  }

  lemma ManyOk(n: nat)
    requires 0 < n < T.ID_LIMIT
    ensures OkDicts(ManyDicts(n)) && OkId(ManyDicts(n), 2) && S.RangeOf(ManyDicts(n).h, 2) == S.Range(S.FULL_START, 1)
  {
    assert T.LexLe([S.FULL_START], [S.FULL_START]);
    assert T.Ordered(Many(n));
    ManyRoots(n);
    hide T.Ordered, W.AllRoots;
  }

  lemma ManyRoots(n: nat)
    requires 0 < n
    ensures W.AllRoots(Many(n), 1)
  {
    var es := Many(n);
    assert forall i :: 0 <= i < n ==> T.Id(es[i], 0) == S.FULL_START;
    assert T.GroupEnd(es, 0, n, 0) == n && T.Groups(es, n, n, 0) == 0;
    assert T.Groups(es, 0, n, 0) == 1;
    assert T.StartOf(es, 0, n, 0, 0) == 0;
    hide T.Groups, T.StartOf, T.Id, T.GroupEnd;
    assert W.RootId(es, 0) == T.Id(es[0], 0);
  }

  // All of them are found, as many as the buffer holds.
  lemma ManyFound(n: nat)
    requires 0 < n < T.ID_LIMIT
    ensures OkDicts(ManyDicts(n)) && |SysLpis(ManyDicts(n), [2])| == if n <= MAX_LPI then n else MAX_LPI
  {
    ManyOk(n);
    var c := ManyDicts(n);
    var rs := [S.Range(S.FULL_START, 1)];
    OneId(c, [2]);
    C.CoverFinds(c.es, rs);
    assert forall i :: 0 <= i < n ==> C.Match(c.es[i], rs);
    C.SelAll(c.es, 0, n, rs);
    assert !S.IsHalfYunmu(2);
    hide OkDicts, T.Ordered, C.Cover, C.Items, C.Sel, C.Match;
  }

  // With as many lemmas as the buffer holds the user dictionary is forgotten.
  lemma FullListInput()
    ensures OkDicts(ManyDicts(MAX_LPI)) && S.IsHalf(2)
    ensures UserOn(ManyDicts(MAX_LPI), [2], true, true, true) && !UserOn(ManyDicts(MAX_LPI), [2], true, true, false)
  {
    ManyOk(MAX_LPI);
    ManyFound(MAX_LPI);
    hide OkDicts, SysLpis, Layer, OkId;
    FullListForgets(ManyDicts(MAX_LPI), 2);
  }

  // The part of extend_dmi that asks both dictionaries. Of a half id seen before no lemmas are asked.
  method Ask(dict: D.DictTrie, from: nat, userOn: bool, ids: seq<nat>, cached: bool, h: S.Halves,
             user: seq<nat> -> (bool, seq<Lpi>),
             buf: array<D.Item>, ghost c: Dicts)
    returns (handle: nat, goOn: bool, items: seq<Lpi>)
    requires Same(dict, c) && OkDicts(c) && OkIds(c, ids) && h == c.h && user == c.user && buf.Length == MAX_LPI
    requires |ids| > 1 && from > 0 ==> dict.HandleMeans(from, D.Ranges(h, ids[..|ids| - 1]))
    requires dict.stonesPos < D.MAX_MILE_STONE
    requires (|ids| == 1 || from > 0) && Layer(c, ids) != [] ==> dict.marksPos + Weight(c, ids) <= D.MAX_PARSING_MARK
    modifies dict`marksPos, dict`stonesPos, dict.marks, dict.stones, buf
    ensures Same(dict, c) && ids != []
    ensures var a := Asked(c, ids, |ids| == 1 || from > 0, userOn);
            (handle > 0 <==> a.sys) && (!(cached && |ids| == 1) ==> items == a.items)
    ensures goOn == UserOn(c, ids, |ids| == 1 || from > 0, userOn, cached)
    ensures handle > 0 ==> handle == old(dict.stonesPos) && dict.HandleMeans(handle, D.Ranges(h, ids))
    ensures dict.stonesPos == old(dict.stonesPos) + (if handle > 0 then 1 else 0)
    ensures dict.marksPos == old(dict.marksPos) + (if handle > 0 then Weight(c, ids) else 0)
    ensures forall k: nat, q: seq<S.Range> :: old(dict.HandleMeans(k, q)) ==> dict.HandleMeans(k, q)
  {
    hide *;
    IdsFacts(c, ids);
    var num;
    handle, num := AskSys(dict, from, ids, cached, h, buf, c);
    items := [];
    if handle > 0 {
      items := ToLpis(buf[..num]);
    }
    goOn := false;
    ghost var mine := items;
    if userOn && |items| < MAX_LPI {
      var (on, more) := user(ids);
      if on {
        goOn := true;
        items := items + C.First(MAX_LPI - |items|, more);
      }
    }
    AskedIs(c, ids, |ids| == 1 || from > 0, userOn, handle, cached, buf[..num], mine);
  }

  lemma AskedIs(c: Dicts, ids: seq<nat>, sys: bool, userOn: bool, handle: nat, cached: bool, items: seq<D.Item>,
                mine: seq<Lpi>)
    requires OkDicts(c) && ids != [] && (handle > 0 <==> sys && Layer(c, ids) != [])
    requires mine == (if handle > 0 then ToLpis(items) else []) && |mine| <= MAX_LPI
    requires handle > 0 && !(cached && |ids| == 1) ==> D.Filled(c.es, c.psbs, items, MAX_LPI, |ids|, Answered(c, ids))
    requires cached && |ids| == 1 ==> mine == []
    ensures var a, on := Asked(c, ids, sys, userOn), userOn && |mine| < MAX_LPI && c.user(ids).0;
            && (handle > 0 <==> a.sys) && UserOn(c, ids, sys, userOn, cached) == on
            && (!(cached && |ids| == 1) ==>
                  a.items == mine + if on then C.First(MAX_LPI - |mine|, c.user(ids).1) else [])
  {
    if handle > 0 && !(cached && |ids| == 1) {
      D.FilledFacts(c.es, c.psbs, items, MAX_LPI, |ids|, Answered(c, ids));
    }
    hide OkDicts, Layer, Answered, D.Filled, D.ToItems, C.Items, C.First;
  }

  // ---- The match nodes' mile stones ----

  // Match nodes extend earlier ones.
  ghost predicate Linked(dmis: seq<Dmi>) { forall i :: 0 <= i < |dmis| ==> dmis[i].from < i }

  // Node i's handle is that of a mile stone for the groups of its ids, if the system dictionary goes on.
  ghost predicate Backed(dict: D.DictTrie, c: Dicts, handles: seq<nat>, dmis: seq<Dmi>, i: nat)
    requires OkDicts(c) && Linked(dmis) && i < |dmis| <= |handles|
    reads dict, dict.root, dict.nodes, dict.marks, dict.stones
  {
    && OkIds(c, Ids(dmis, i)) && dmis[i].level == |Ids(dmis, i)| && (dmis[i].sys <==> handles[i] > 0)
    && (dmis[i].sys ==> dict.HandleMeans(handles[i], D.Ranges(c.h, Ids(dmis, i))))
  }

  // All of them, in the order of the stack.
  ghost predicate Stacked(dict: D.DictTrie, c: Dicts, handles: seq<nat>, dmis: seq<Dmi>)
    reads dict, dict.root, dict.nodes, dict.marks, dict.stones
  {
    && OkDicts(c) && Linked(dmis) && |dmis| <= |handles|
    && (forall i: nat :: i < |dmis| ==> Backed(dict, c, handles, dmis, i))
    && forall i: nat, j: nat :: i < j < |dmis| && dmis[i].sys && dmis[j].sys ==> handles[i] < handles[j]
  }

  lemma {:induction false} IdsPrefix(dmis: seq<Dmi>, n: nat, i: nat)
    requires Linked(dmis) && i < n <= |dmis|
    ensures Linked(dmis[..n]) && Ids(dmis[..n], i) == Ids(dmis, i)
    decreases i
  {
    if dmis[i].from >= 0 {
      IdsPrefix(dmis, n, dmis[i].from);
    }
  }

  // The ids of one more match node.
  lemma IdsOfNew(dmis: seq<Dmi>, x: Dmi)
    requires Linked(dmis) && x.from < |dmis|
    ensures Linked(dmis + [x])
    ensures Ids(dmis + [x], |dmis|) == if x.from < 0 then [x.splId] else Ids(dmis, x.from) + [x.splId]
  {
    var more := dmis + [x];
    if x.from >= 0 {
      IdsPrefix(more, |dmis|, x.from);
      assert more[..|dmis|] == dmis;
    }
  }

  lemma StackedAt(dict: D.DictTrie, c: Dicts, handles: seq<nat>, dmis: seq<Dmi>, i: nat)
    requires Stacked(dict, c, handles, dmis) && i < |dmis|
    ensures OkDicts(c) && S.OkHalves(c.h) && Linked(dmis) && |dmis| <= |handles|
    ensures OkIds(c, Ids(dmis, i)) && dmis[i].level == |Ids(dmis, i)| && (dmis[i].sys <==> handles[i] > 0)
    ensures dmis[i].sys ==> dict.HandleMeans(handles[i], D.Ranges(c.h, Ids(dmis, i)))
  {
    assert S.OkHalves(c.h);
    hide OkDicts, OkIds, Ids;
    assert Backed(dict, c, handles, dmis, i);
  }

  lemma StackedPrefix(dict: D.DictTrie, c: Dicts, handles: seq<nat>, dmis: seq<Dmi>, n: nat)
    requires Stacked(dict, c, handles, dmis) && n <= |dmis|
    ensures Stacked(dict, c, handles, dmis[..n])
  {
    hide OkDicts, OkIds, Ids;
    forall i: nat | i < n
      ensures Linked(dmis[..n]) && Backed(dict, c, handles, dmis[..n], i)
    {
      IdsPrefix(dmis, n, i);
      assert Backed(dict, c, handles, dmis, i);
    }
  }

  // What the nodes' handles must mean.
  ghost function Meanings(c: Dicts, dmis: seq<Dmi>): (rss: seq<seq<S.Range>>)
    requires S.OkHalves(c.h) && Linked(dmis)
    ensures |rss| == |dmis| && forall i: nat :: i < |dmis| ==> rss[i] == D.Ranges(c.h, Ids(dmis, i))
  {
    seq(|dmis|, i requires 0 <= i < |dmis| => D.Ranges(c.h, Ids(dmis, i)))
  }

  // The stack, but for the mile stones.
  ghost predicate Apt(c: Dicts, handles: seq<nat>, dmis: seq<Dmi>) {
    && OkDicts(c) && Linked(dmis) && |dmis| <= |handles|
    && (forall i: nat :: i < |dmis| ==>
          OkIds(c, Ids(dmis, i)) && dmis[i].level == |Ids(dmis, i)| && (dmis[i].sys <==> handles[i] > 0))
    && forall i: nat, j: nat :: i < j < |dmis| && dmis[i].sys && dmis[j].sys ==> handles[i] < handles[j]
  }

  lemma StackedOpen(dict: D.DictTrie, c: Dicts, handles: seq<nat>, dmis: seq<Dmi>)
    requires Stacked(dict, c, handles, dmis)
    ensures Apt(c, handles, dmis) && OkDicts(c) && Linked(dmis) && |dmis| <= |handles| && S.OkHalves(c.h)
    ensures forall i: nat :: i < |dmis| && dmis[i].sys ==> dict.HandleMeans(handles[i], Meanings(c, dmis)[i])
  {
    assert S.OkHalves(c.h);
    hide OkDicts, OkIds, Ids;
    forall i: nat | i < |dmis|
      ensures OkIds(c, Ids(dmis, i)) && dmis[i].level == |Ids(dmis, i)| && (dmis[i].sys <==> handles[i] > 0)
      ensures dmis[i].sys ==> dict.HandleMeans(handles[i], Meanings(c, dmis)[i])
    {
      assert Backed(dict, c, handles, dmis, i);
    }
  }

  lemma StackedClose(dict: D.DictTrie, c: Dicts, handles: seq<nat>, dmis: seq<Dmi>)
    requires Apt(c, handles, dmis) && S.OkHalves(c.h)
    requires |dmis| <= |handles| && Linked(dmis)
    requires forall i: nat :: i < |dmis| && dmis[i].sys ==> dict.HandleMeans(handles[i], Meanings(c, dmis)[i])
    ensures Stacked(dict, c, handles, dmis)
  {
    hide OkDicts, OkIds, Ids;
  }

  // Every handle in use lies below the stack's top.
  lemma StackedBelow(dict: D.DictTrie, c: Dicts, handles: seq<nat>, dmis: seq<Dmi>)
    requires Stacked(dict, c, handles, dmis)
    ensures |dmis| <= |handles| && forall i: nat :: i < |dmis| && dmis[i].sys ==> 0 < handles[i] < dict.stonesPos
  {
    hide OkDicts, OkIds, Ids;
    forall i: nat | i < |dmis| && dmis[i].sys
      ensures 0 < handles[i] < dict.stonesPos
    {
      StackedAt(dict, c, handles, dmis, i);
      dict.HandleFacts(handles[i], D.Ranges(c.h, Ids(dmis, i)));
    }
  }

  // A new match node with the handle on top of the stack.
  lemma StackedMore(dict: D.DictTrie, c: Dicts, handles: seq<nat>, dmis: seq<Dmi>, x: Dmi, handle: nat)
    requires Stacked(dict, c, handles, dmis) && x.from < |dmis| < |handles| && (x.sys <==> handle > 0)
    requires var ids := if x.from < 0 then [x.splId] else Ids(dmis, x.from) + [x.splId];
             OkIds(c, ids) && x.level == |ids| && (handle > 0 ==> dict.HandleMeans(handle, D.Ranges(c.h, ids)))
    requires handle > 0 ==> forall i: nat :: i < |dmis| && dmis[i].sys ==> handles[i] < handle
    ensures Stacked(dict, c, handles[|dmis| := handle], dmis + [x])
  {
    hide OkDicts, OkIds, Ids;
    var more, hs := dmis + [x], handles[|dmis| := handle];
    IdsOfNew(dmis, x);
    forall i: nat | i < |more|
      ensures Backed(dict, c, hs, more, i)
    {
      if i < |dmis| {
        IdsPrefix(more, |dmis|, i);
        assert more[..|dmis|] == dmis;
        assert Backed(dict, c, handles, dmis, i);
      }
    }
  }

  // Asking, while the match nodes `now` keep their mile stones.
  method AskKeeping(dict: D.DictTrie, from: nat, userOn: bool, ids: seq<nat>, cached: bool, h: S.Halves,
                    user: seq<nat> -> (bool,
                                       seq<Lpi>), buf: array<D.Item>, ghost c: Dicts, ghost handles: seq<nat>,
                                       ghost now: seq<Dmi>)
    returns (handle: nat, goOn: bool, items: seq<Lpi>)
    requires Same(dict, c) && OkDicts(c) && OkIds(c, ids) && h == c.h && user == c.user && buf.Length == MAX_LPI
    requires |ids| > 1 && from > 0 ==> dict.HandleMeans(from, D.Ranges(h, ids[..|ids| - 1]))
    requires dict.stonesPos < D.MAX_MILE_STONE && Stacked(dict, c, handles, now)
    requires (|ids| == 1 || from > 0) && Layer(c, ids) != [] ==> dict.marksPos + Weight(c, ids) <= D.MAX_PARSING_MARK
    modifies dict`marksPos, dict`stonesPos, dict.marks, dict.stones, buf
    ensures Same(dict, c) && Stacked(dict, c, handles, now) && ids != [] && |now| <= |handles|
    ensures var a := Asked(c, ids, |ids| == 1 || from > 0, userOn);
            (handle > 0 <==> a.sys) && (!(cached && |ids| == 1) ==> items == a.items)
    ensures goOn == UserOn(c, ids, |ids| == 1 || from > 0, userOn, cached)
    ensures handle > 0 ==> handle == old(dict.stonesPos) && dict.HandleMeans(handle, D.Ranges(h, ids))
    ensures handle > 0 ==> forall i: nat :: i < |now| && now[i].sys ==> handles[i] < handle
    ensures dict.stonesPos == old(dict.stonesPos) + (if handle > 0 then 1 else 0)
    ensures dict.marksPos == old(dict.marksPos) + (if handle > 0 then Weight(c, ids) else 0)
  {
    hide *;
    StackedOpen(dict, c, handles, now);
    StackedBelow(dict, c, handles, now);
    handle, goOn, items := Ask(dict, from, userOn, ids, cached, h, user, buf, c);
    StackedClose(dict, c, handles, now);
  }

  // ---- Room on the stacks ----

  function Stones(dmis: seq<Dmi>): nat {
    if dmis == [] then 0 else Stones(dmis[..|dmis| - 1]) + if dmis[|dmis| - 1].sys then 1 else 0
  }

  // The marks the nodes' extensions write.
  ghost function Marks(c: Dicts, dmis: seq<Dmi>): nat
    requires OkDicts(c) && Linked(dmis)
  {
    if dmis == [] then 0
    else
      var n := |dmis| - 1;
      Marks(c, dmis[..n]) + if dmis[n].sys then Weight(c, Ids(dmis, n)) else 0
  }

  // From here, where the nodes `now` are there, up to the nodes `all`, no pool and no stack runs out.
  ghost predicate Room(c: Dicts, stonesPos: nat, marksPos: nat, now: seq<Dmi>, all: seq<Dmi>) {
    && OkDicts(c) && Linked(all) && now <= all && |all| < DMI_POOL_SIZE
    && stonesPos + Stones(all) < D.MAX_MILE_STONE + Stones(now)
    && marksPos + Marks(c, all) <= D.MAX_PARSING_MARK + Marks(c, now)
  }

  lemma NothingHeld(c: Dicts)
    requires OkDicts(c)
    ensures Linked([]) && Stones([]) == 0 && Marks(c, []) == 0
  {}

  lemma RoomIs(c: Dicts, stonesPos: nat, marksPos: nat, now: seq<Dmi>, all: seq<Dmi>)
    requires OkDicts(c) && Linked(now)
    ensures Room(c, stonesPos, marksPos, now, all) <==>
              && Linked(all) && now <= all && |all| < DMI_POOL_SIZE
              && stonesPos + Stones(all) < D.MAX_MILE_STONE + Stones(now)
              && marksPos + Marks(c, all) <= D.MAX_PARSING_MARK + Marks(c, now)
  {
    hide OkDicts, Stones, Marks;
  }

  lemma {:induction false} StacksGrow(c: Dicts, now: seq<Dmi>, all: seq<Dmi>)
    requires OkDicts(c) && Linked(all) && now <= all
    ensures Linked(now) && Stones(now) <= Stones(all) && Marks(c, now) <= Marks(c, all)
    decreases |all|
  {
    hide OkDicts, Weight, Ids;
    if now != all {
      StacksGrow(c, now, all[..|all| - 1]);
    }
  }

  // The ids an extension from node `from`, or from the root, asks for.
  function AskIds(dmis: seq<Dmi>, from: int, splId: nat): (ids: seq<nat>)
    requires Linked(dmis) && from < |dmis|
    ensures ids != []
  {
    if from < 0 then [splId] else Ids(dmis, from) + [splId]
  }

  // There is room for asking, and for the marks of the next node.
  lemma RoomNow(c: Dicts, stonesPos: nat, marksPos: nat, now: seq<Dmi>, all: seq<Dmi>)
    requires Room(c, stonesPos, marksPos, now, all)
    ensures OkDicts(c) && Linked(now) && stonesPos < D.MAX_MILE_STONE
  {
    StacksGrow(c, now, all);
  }

  lemma RoomForMarks(c: Dicts, stonesPos: nat, marksPos: nat, now: seq<Dmi>, x: Dmi, all: seq<Dmi>)
    requires Room(c, stonesPos, marksPos, now, all) && now + [x] <= all && x.from < |now|
    ensures Linked(now) && |now| < DMI_POOL_SIZE
    ensures x.sys ==> marksPos + Weight(c, AskIds(now, x.from, x.splId)) <= D.MAX_PARSING_MARK
  {
    OneMore(c, now, x, all);
    hide OkDicts, Weight, Ids, Stones, Marks, AskIds;
  }

  // And then for the rest behind it.
  lemma RoomAfter(c: Dicts, stonesPos: nat, marksPos: nat, now: seq<Dmi>, x: Dmi, all: seq<Dmi>, stonesPos': nat,
                  marksPos': nat)
    requires Room(c, stonesPos, marksPos, now, all) && now + [x] <= all && x.from < |now| && Linked(now)
    requires stonesPos' == stonesPos + if x.sys then 1 else 0
    requires marksPos' <= marksPos + if x.sys then Weight(c, AskIds(now, x.from, x.splId)) else 0
    ensures Room(c, stonesPos', marksPos', now + [x], all)
  {
    OneMore(c, now, x, all);
    hide OkDicts, Weight, Ids, Stones, Marks, AskIds;
  }

  // What lies on the two stacks beside the nodes' mile stones and their marks.
  ghost function Beside(c: Dicts, stonesPos: nat, marksPos: nat, now: seq<Dmi>): (int, int) {
    (stonesPos - Stones(now), marksPos - if OkDicts(c) && Linked(now) then Marks(c, now) else 0)
  }

  lemma BesideIs(c: Dicts, stonesPos: nat, marksPos: nat, now: seq<Dmi>)
    requires OkDicts(c) && Linked(now)
    ensures Beside(c, stonesPos, marksPos, now) == (stonesPos - Stones(now), marksPos - Marks(c, now))
  {
    hide OkDicts, Stones, Marks;
  }

  // A new node's stone and marks are its own.
  lemma BesideAfter(c: Dicts, stonesPos: nat, marksPos: nat, now: seq<Dmi>, x: Dmi, all: seq<Dmi>, stonesPos': nat,
                    marksPos': nat)
    requires Room(c, stonesPos, marksPos, now, all) && now + [x] <= all && x.from < |now| && Linked(now)
    requires stonesPos' == stonesPos + if x.sys then 1 else 0
    requires marksPos' == marksPos + if x.sys then Weight(c, AskIds(now, x.from, x.splId)) else 0
    ensures Beside(c, stonesPos', marksPos', now + [x]) == Beside(c, stonesPos, marksPos, now)
  {
    OneMore(c, now, x, all);
    hide OkDicts, Weight, Ids, Stones, Marks, AskIds;
  }

  // Every place of the stack below `top` is the handle of one of the nodes.
  ghost predicate Packed(handles: seq<nat>, dmis: seq<Dmi>, top: nat)
    requires |dmis| <= |handles|
  {
    forall x: nat :: D.FIRST_HANDLE <= x < top ==> Holds(handles, dmis, x)
  }

  ghost predicate Holds(handles: seq<nat>, dmis: seq<Dmi>, x: nat)
    requires |dmis| <= |handles|
  {
    exists i: nat :: i < |dmis| && dmis[i].sys && handles[i] == x
  }

  // Rising handles below `top`: there are no more of them than places, and as many exactly if all places are taken.
  lemma {:induction false} PackedCounts(handles: seq<nat>, dmis: seq<Dmi>, top: nat)
    requires |dmis| <= |handles| && top >= D.FIRST_HANDLE
    requires forall i: nat :: i < |dmis| && dmis[i].sys ==> D.FIRST_HANDLE <= handles[i] < top
    requires forall i: nat, j: nat :: i < j < |dmis| && dmis[i].sys && dmis[j].sys ==> handles[i] < handles[j]
    ensures D.FIRST_HANDLE + Stones(dmis) <= top
    ensures top == D.FIRST_HANDLE + Stones(dmis) <==> Packed(handles, dmis, top)
    decreases |dmis|
  {
    if dmis == [] {
      if top > D.FIRST_HANDLE {
        assert !Holds(handles, dmis, D.FIRST_HANDLE);
      }
    } else {
      var n := |dmis| - 1;
      var front, top' := dmis[..n], if dmis[n].sys then handles[n] else top;
      PackedCounts(handles, front, top');
      HoldsLast(handles, dmis);
      if dmis[n].sys && handles[n] + 1 < top {
        assert !Holds(handles, dmis, handles[n] + 1);
      }
    }
  }

  lemma HoldsLast(handles: seq<nat>, dmis: seq<Dmi>)
    requires 0 < |dmis| <= |handles|
    ensures var n := |dmis| - 1;
            forall x: nat :: Holds(handles, dmis, x) <==>
                               Holds(handles, dmis[..n], x) || (dmis[n].sys && handles[n] == x)
  {
    var n := |dmis| - 1;
    forall x: nat
      ensures Holds(handles, dmis, x) <==> Holds(handles, dmis[..n], x) || (dmis[n].sys && handles[n] == x)
    {
      if Holds(handles, dmis[..n], x) {
        var i: nat :| i < n && dmis[..n][i].sys && handles[i] == x;
        assert dmis[i] == dmis[..n][i];
      }
      if Holds(handles, dmis, x) && !(dmis[n].sys && handles[n] == x) {
        var i: nat :| i < |dmis| && dmis[i].sys && handles[i] == x;
        assert dmis[..n][i] == dmis[i];
      }
    }
  }

  lemma OneMore(c: Dicts, now: seq<Dmi>, x: Dmi, all: seq<Dmi>)
    requires OkDicts(c) && Linked(all) && now + [x] <= all && x.from < |now|
    ensures Linked(now) && Linked(now + [x]) && Stones(now + [x]) == Stones(now) + (if x.sys then 1 else 0)
    ensures Marks(c, now + [x]) == Marks(c, now) + if x.sys then Weight(c, AskIds(now, x.from, x.splId)) else 0
    ensures Stones(now + [x]) <= Stones(all) && Marks(c, now + [x]) <= Marks(c, all)
  {
    var more := now + [x];
    StacksGrow(c, more, all);
    assert more[..|now|] == now && Linked(now);
    IdsOfNew(now, x);
  }
}
