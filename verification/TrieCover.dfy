// What a lookup has to find: the lemmas whose ids lie in given ranges, and the groups of the sorted
// lemma array that lead to them.

module TrieCover {
  import opened Trie
  import opened SpellingIds

  // The lemma has an id in each range, and no more.
  ghost predicate Match(e: Entry, rs: seq<Range>) {
    |e.splids| == |rs| && forall k :: 0 <= k < |rs| ==> In(e.splids[k], rs[k])
  }

  // The ids of the matching lemmas among a..b, in the array's order.
  ghost function Sel(es: seq<Entry>, a: nat, b: nat, rs: seq<Range>): seq<nat>
    requires a <= b <= |es|
    decreases b - a
  {
    if a == b then [] else (if Match(es[a], rs) then [es[a].id] else []) + Sel(es, a + 1, b, rs)
  }

  lemma {:induction false} SelSplit(es: seq<Entry>, a: nat, b: nat, c: nat, rs: seq<Range>)
    requires a <= b <= c <= |es|
    ensures Sel(es, a, c, rs) == Sel(es, a, b, rs) + Sel(es, b, c, rs)
    decreases b - a
  {
    if a < b {
      SelSplit(es, a + 1, b, c, rs);
    }
  }

  lemma {:induction false} SelNone(es: seq<Entry>, a: nat, b: nat, rs: seq<Range>)
    requires a <= b <= |es| && forall i :: a <= i < b ==> !Match(es[i], rs)
    ensures Sel(es, a, b, rs) == []
    decreases b - a
  {
    if a < b {
      SelNone(es, a + 1, b, rs);
    }
  }

  lemma {:induction false} SelAll(es: seq<Entry>, a: nat, b: nat, rs: seq<Range>)
    requires a <= b <= |es| && forall i :: a <= i < b ==> Match(es[i], rs)
    ensures Sel(es, a, b, rs) == IdsOf(es)[a..b]
    decreases b - a
  {
    if a < b {
      SelAll(es, a + 1, b, rs);
      assert IdsOf(es)[a..b] == [es[a].id] + IdsOf(es)[a + 1..b];
    }
  }

  // An id is selected exactly if a matching lemma has it.
  lemma {:induction false} SelHas(es: seq<Entry>, a: nat, b: nat, rs: seq<Range>, id: nat)
    requires a <= b <= |es|
    ensures id in Sel(es, a, b, rs) <==> exists i :: a <= i < b && Match(es[i], rs) && es[i].id == id
    decreases b - a
  {
    hide Match;
    if a < b {
      SelHas(es, a + 1, b, rs, id);
      var rest := Sel(es, a + 1, b, rs);
      assert Sel(es, a, b, rs) == (if Match(es[a], rs) then [es[a].id] else []) + rest;
    }
  }

  // ---- Groups of lemmas ----

  datatype Group = Group(a: nat, m: nat)

  // A group sharing the first d ids, each in its range.
  ghost predicate GroupIn(es: seq<Entry>, gr: Group, rs: seq<Range>, d: nat) {
    && gr.a < gr.m <= |es| && Same(es, gr.a, gr.m, d) && d <= |rs|
    && forall j :: 0 <= j < d ==> In(es[gr.a].splids[j], rs[j])
  }

  // The groups of a..b from number i on whose id at the level lies in the range.
  ghost function Sub(es: seq<Entry>, a: nat, b: nat, level: nat, r: Range, i: nat): seq<Group>
    requires a <= b <= |es| && i <= Groups(es, a, b, level)
    decreases Groups(es, a, b, level) - i
  {
    if i == Groups(es, a, b, level) then []
    else
      StartNext(es, a, b, level, i);
      (if In(Id(es[StartOf(es, a, b, level, i)], level), r)
       then [Group(StartOf(es, a, b, level, i), StartOf(es, a, b, level, i + 1))] else [])
      + Sub(es, a, b, level, r, i + 1)
  }

  // The groups one id further below a group that shares d ids.
  ghost function Kids(es: seq<Entry>, gr: Group, d: nat, r: Range): seq<Group>
    requires gr.a < gr.m <= |es| && d > 0
  {
    Sub(es, gr.a + Own(es, gr.a, gr.m, d - 1), gr.m, d, r, 0)
  }

  ghost predicate AllIn(es: seq<Entry>, gs: seq<Group>) {
    forall i :: 0 <= i < |gs| ==> gs[i].a < gs[i].m <= |es|
  }

  ghost function AllKids(es: seq<Entry>, gs: seq<Group>, d: nat, r: Range): seq<Group>
    requires AllIn(es, gs) && d > 0
  {
    if gs == [] then [] else Kids(es, gs[0], d, r) + AllKids(es, gs[1..], d, r)
  }

  lemma {:induction false} SubIn(es: seq<Entry>, a: nat, b: nat, level: nat, rs: seq<Range>, i: nat)
    requires Ordered(es) && Cluster(es, a, b, level) && i <= Groups(es, a, b, level) && level < |rs|
    requires forall k, j :: a <= k < b && 0 <= j < level ==> In(es[k].splids[j], rs[j])
    ensures forall q :: 0 <= q < |Sub(es, a, b, level, rs[level], i)| ==>
              GroupIn(es, Sub(es, a, b, level, rs[level], i)[q], rs, level + 1)
    decreases Groups(es, a, b, level) - i
  {
    if i < Groups(es, a, b, level) {
      SubIn(es, a, b, level, rs, i + 1);
      hide Groups, Ordered, Own, StartOf;
      StartNext(es, a, b, level, i);
      var c := StartOf(es, a, b, level, i);
      GroupFacts(es, a, b, level, c, StartOf(es, a, b, level, i + 1));
    }
  }

  // A group's ids are shared by its lemmas.
  lemma SharedIn(es: seq<Entry>, gr: Group, rs: seq<Range>, d: nat)
    requires GroupIn(es, gr, rs, d)
    ensures forall k, j :: gr.a <= k < gr.m && 0 <= j < d ==> In(es[k].splids[j], rs[j])
  {
    forall k, j | gr.a <= k < gr.m && 0 <= j < d
      ensures In(es[k].splids[j], rs[j])
    {
      assert es[k].splids[..d][j] == es[gr.a].splids[..d][j];
    }
  }

  lemma KidsAre(es: seq<Entry>, gr: Group, d: nat, r: Range)
    requires gr.a < gr.m <= |es| && d > 0
    ensures Kids(es, gr, d, r) == Sub(es, gr.a + Own(es, gr.a, gr.m, d - 1), gr.m, d, r, 0)
  {
    hide Own, Sub;
  }

  lemma KidsIn(es: seq<Entry>, gr: Group, d: nat, rs: seq<Range>)
    requires Ordered(es) && d > 0 && d < |rs| && GroupIn(es, gr, rs, d)
    ensures forall q :: 0 <= q < |Kids(es, gr, d, rs[d])| ==> GroupIn(es, Kids(es, gr, d, rs[d])[q], rs, d + 1)
  {
    hide *;
    GroupBounds(es, gr, rs, d);
    SharedIn(es, gr, rs, d);
    OwnCluster(es, gr, d, rs);
    SubIn(es, gr.a + Own(es, gr.a, gr.m, d - 1), gr.m, d, rs, 0);
    KidsAre(es, gr, d, rs[d]);
  }

  lemma OwnCluster(es: seq<Entry>, gr: Group, d: nat, rs: seq<Range>)
    requires Ordered(es) && 0 < d && GroupIn(es, gr, rs, d)
    ensures Cluster(es, gr.a + Own(es, gr.a, gr.m, d - 1), gr.m, d)
  {
    OwnFacts(es, gr.a, gr.m, d - 1);
  }

  lemma {:induction false} AllKidsIn(es: seq<Entry>, gs: seq<Group>, d: nat, rs: seq<Range>)
    requires Ordered(es) && d > 0 && d < |rs| && forall q :: 0 <= q < |gs| ==> GroupIn(es, gs[q], rs, d)
    ensures AllIn(es, gs)
    ensures forall q :: 0 <= q < |AllKids(es, gs, d, rs[d])| ==> GroupIn(es, AllKids(es, gs, d, rs[d])[q], rs, d + 1)
  {
    if gs != [] {
      KidsIn(es, gs[0], d, rs);
      AllKidsIn(es, gs[1..], d, rs);
      hide GroupIn, Kids;
      assert forall q :: 0 <= q < |gs| ==> gs[q].a < gs[q].m <= |es| by {
        forall q | 0 <= q < |gs|
          ensures gs[q].a < gs[q].m <= |es|
        {
          GroupBounds(es, gs[q], rs, d);
        }
      }
    }
  }

  lemma GroupBounds(es: seq<Entry>, gr: Group, rs: seq<Range>, d: nat)
    requires GroupIn(es, gr, rs, d)
    ensures gr.a < gr.m <= |es|
  {}

  // The groups whose first d ids lie in the first d ranges.
  ghost function Cover(es: seq<Entry>, rs: seq<Range>, d: nat): (gs: seq<Group>)
    requires Ordered(es) && 0 < d <= |rs|
    ensures AllIn(es, gs) && forall q :: 0 <= q < |gs| ==> GroupIn(es, gs[q], rs, d)
    decreases d
  {
    if d == 1 then
      AllCluster(es);
      SubIn(es, 0, |es|, 0, rs, 0);
      Sub(es, 0, |es|, 0, rs[0], 0)
    else
      AllKidsIn(es, Cover(es, rs, d - 1), d - 1, rs);
      AllKids(es, Cover(es, rs, d - 1), d - 1, rs[d - 1])
  }

  // ---- The groups lead to exactly the matching lemmas ----

  // The selected ids below the groups.
  ghost function Gather(es: seq<Entry>, gs: seq<Group>, rs: seq<Range>): seq<nat>
    requires AllIn(es, gs)
  {
    if gs == [] then [] else Sel(es, gs[0].a, gs[0].m, rs) + Gather(es, gs[1..], rs)
  }

  lemma GatherOne(es: seq<Entry>, gr: Group, gs: seq<Group>, rs: seq<Range>)
    requires gr.a < gr.m <= |es| && AllIn(es, gs)
    ensures AllIn(es, [gr] + gs) && Gather(es, [gr] + gs, rs) == Sel(es, gr.a, gr.m, rs) + Gather(es, gs, rs)
  {
    assert ([gr] + gs)[1..] == gs;
  }

  lemma AllInParts(es: seq<Entry>, gs: seq<Group>, hs: seq<Group>)
    requires AllIn(es, gs) && AllIn(es, hs)
    ensures AllIn(es, gs + hs) && (gs != [] ==> AllIn(es, gs[1..]) && gs[0].a < gs[0].m <= |es|)
  {}

  lemma FirstOfSum<T>(s: seq<T>, t: seq<T>)
    requires s != []
    ensures s == [s[0]] + s[1..] && s + t == [s[0]] + (s[1..] + t)
  {}

  lemma Regroup<T>(s: seq<T>, t: seq<T>, u: seq<T>)
    ensures s + (t + u) == s + t + u
  {}

  lemma {:induction false} GatherPlus(es: seq<Entry>, gs: seq<Group>, hs: seq<Group>, rs: seq<Range>)
    requires AllIn(es, gs) && AllIn(es, hs)
    ensures AllIn(es, gs + hs) && Gather(es, gs + hs, rs) == Gather(es, gs, rs) + Gather(es, hs, rs)
  {
    AllInParts(es, gs, hs);
    if gs == [] {
      assert gs + hs == hs;
    } else {
      hide *;
      var gr, rest := gs[0], gs[1..];
      FirstOfSum(gs, hs);
      AllInParts(es, rest, hs);
      GatherPlus(es, rest, hs, rs);
      GatherOne(es, gr, rest + hs, rs);
      GatherOne(es, gr, rest, rs);
      Regroup(Sel(es, gr.a, gr.m, rs), Gather(es, rest, rs), Gather(es, hs, rs));
    }
  }

  // Groups outside the level's range hold no match.
  lemma {:induction false} SubGathers(es: seq<Entry>, a: nat, b: nat, level: nat, rs: seq<Range>, i: nat)
    requires Ordered(es) && Cluster(es, a, b, level) && i <= Groups(es, a, b, level) && level < |rs|
    ensures AllIn(es, Sub(es, a, b, level, rs[level], i))
    ensures Gather(es, Sub(es, a, b, level, rs[level], i), rs) == Sel(es, StartOf(es, a, b, level, i), b, rs)
    decreases Groups(es, a, b, level) - i
  {
    hide Groups, StartOf, Match, Ordered, Sel;
    StartNext(es, a, b, level, i);
    if i == Groups(es, a, b, level) {
      SelNone(es, b, b, rs);
    } else {
      var next := i + 1;
      var c, d := StartOf(es, a, b, level, i), StartOf(es, a, b, level, next);
      SubGathers(es, a, b, level, rs, next);
      SelSplit(es, c, d, b, rs);
      if In(Id(es[c], level), rs[level]) {
        GatherOne(es, Group(c, d), Sub(es, a, b, level, rs[level], next), rs);
      } else {
        Outside(es, a, b, level, rs, c, d);
        assert Sub(es, a, b, level, rs[level], i) == Sub(es, a, b, level, rs[level], next);
        assert Sel(es, c, b, rs) == Sel(es, d, b, rs);
      }
    }
  }

  lemma Outside(es: seq<Entry>, a: nat, b: nat, level: nat, rs: seq<Range>, c: nat, d: nat)
    requires Cluster(es, a, b, level) && a <= c < b && d == GroupEnd(es, c, b, level) && level < |rs|
    requires !In(Id(es[c], level), rs[level])
    ensures Sel(es, c, d, rs) == []
  {
    forall i | c <= i < d
      ensures !Match(es[i], rs)
    {
      assert Id(es[i], level) == Id(es[c], level) && |es[i].splids| > level;
    }
    SelNone(es, c, d, rs);
  }

  lemma WrongLength(es: seq<Entry>, a: nat, b: nat, rs: seq<Range>)
    requires a <= b <= |es| && forall i :: a <= i < b ==> |es[i].splids| != |rs|
    ensures Sel(es, a, b, rs) == []
  {
    SelNone(es, a, b, rs);
  }

  // Lemmas that end at a group are selected only by as many ranges as the group has ids.
  lemma OwnShort(es: seq<Entry>, gr: Group, d: nat, rs: seq<Range>)
    requires Ordered(es) && 0 < d < |rs| && GroupIn(es, gr, rs, d)
    ensures Sel(es, gr.a, gr.a + Own(es, gr.a, gr.m, d - 1), rs) == []
    ensures Cluster(es, gr.a + Own(es, gr.a, gr.m, d - 1), gr.m, d)
  {
    OwnFacts(es, gr.a, gr.m, d - 1);
    hide Own, Ordered, Sel, Match, Same;
    WrongLength(es, gr.a, gr.a + Own(es, gr.a, gr.m, d - 1), rs);
  }

  // What ends at a group is too short; everything else is below its sons.
  lemma KidsGather(es: seq<Entry>, gr: Group, d: nat, rs: seq<Range>)
    requires Ordered(es) && 0 < d < |rs| && GroupIn(es, gr, rs, d)
    ensures AllIn(es, Kids(es, gr, d, rs[d])) && Gather(es, Kids(es, gr, d, rs[d]), rs) == Sel(es, gr.a, gr.m, rs)
  {
    hide *;
    GroupBounds(es, gr, rs, d);
    OwnShort(es, gr, d, rs);
    var k := gr.a + Own(es, gr.a, gr.m, d - 1);
    FirstStart(es, k, gr.m, d);
    SubGathers(es, k, gr.m, d, rs, 0);
    SelSplit(es, gr.a, k, gr.m, rs);
    KidsAre(es, gr, d, rs[d]);
  }

  lemma FirstStart(es: seq<Entry>, a: nat, b: nat, level: nat)
    requires a <= b <= |es|
    ensures StartOf(es, a, b, level, 0) == a
  {}

  lemma {:induction false} AllKidsGather(es: seq<Entry>, gs: seq<Group>, d: nat, rs: seq<Range>)
    requires Ordered(es) && 0 < d < |rs| && AllIn(es, gs) && forall q :: 0 <= q < |gs| ==> GroupIn(es, gs[q], rs, d)
    ensures AllIn(es, AllKids(es, gs, d, rs[d])) && Gather(es, AllKids(es, gs, d, rs[d]), rs) == Gather(es, gs, rs)
  {
    hide GroupIn, Kids, Ordered;
    if gs != [] {
      KidsGather(es, gs[0], d, rs);
      AllKidsGather(es, gs[1..], d, rs);
      GatherPlus(es, Kids(es, gs[0], d, rs[d]), AllKids(es, gs[1..], d, rs[d]), rs);
    }
  }

  lemma {:induction false} CoverGathers(es: seq<Entry>, rs: seq<Range>, d: nat)
    requires Ordered(es) && 0 < d <= |rs|
    ensures Gather(es, Cover(es, rs, d), rs) == Sel(es, 0, |es|, rs)
    decreases d
  {
    hide GroupIn, Sub, AllKids, Ordered, Sel, Gather;
    if d == 1 {
      AllCluster(es);
      SubGathers(es, 0, |es|, 0, rs, 0);
    } else {
      CoverGathers(es, rs, d - 1);
      AllKidsGather(es, Cover(es, rs, d - 1), d - 1, rs);
    }
  }

  // The ids of the lemmas that end at a group.
  ghost function OwnIds(es: seq<Entry>, gr: Group, d: nat): seq<nat>
    requires gr.a < gr.m <= |es| && d > 0
  {
    IdsOf(es)[gr.a..gr.a + Own(es, gr.a, gr.m, d - 1)]
  }

  ghost function Items(es: seq<Entry>, gs: seq<Group>, d: nat): seq<nat>
    requires AllIn(es, gs) && d > 0
  {
    if gs == [] then [] else OwnIds(es, gs[0], d) + Items(es, gs[1..], d)
  }

  lemma OwnMatch(es: seq<Entry>, gr: Group, rs: seq<Range>)
    requires Ordered(es) && |rs| > 0 && GroupIn(es, gr, rs, |rs|)
    ensures forall i :: gr.a <= i < gr.a + Own(es, gr.a, gr.m, |rs| - 1) ==> Match(es[i], rs)
    ensures forall i :: gr.a + Own(es, gr.a, gr.m, |rs| - 1) <= i < gr.m ==> |es[i].splids| != |rs|
  {
    OwnFacts(es, gr.a, gr.m, |rs| - 1);
    SharedIn(es, gr, rs, |rs|);
  }

  lemma OwnSelected(es: seq<Entry>, gr: Group, rs: seq<Range>)
    requires Ordered(es) && |rs| > 0 && GroupIn(es, gr, rs, |rs|)
    ensures gr.a < gr.m <= |es| && Sel(es, gr.a, gr.m, rs) == OwnIds(es, gr, |rs|)
  {
    hide Own, Ordered, Sel, Same, In, Match, GroupIn, IdsOf;
    GroupBounds(es, gr, rs, |rs|);
    var k := gr.a + Own(es, gr.a, gr.m, |rs| - 1);
    OwnMatch(es, gr, rs);
    SelSplit(es, gr.a, k, gr.m, rs);
    SelAll(es, gr.a, k, rs);
    WrongLength(es, k, gr.m, rs);
    assert Sel(es, gr.a, gr.m, rs) == Sel(es, gr.a, k, rs);
  }

  lemma {:induction false} ItemsGather(es: seq<Entry>, gs: seq<Group>, rs: seq<Range>)
    requires Ordered(es) && |rs| > 0 && AllIn(es, gs) && forall q :: 0 <= q < |gs| ==> GroupIn(es, gs[q], rs, |rs|)
    ensures Items(es, gs, |rs|) == Gather(es, gs, rs)
  {
    hide GroupIn, Ordered, OwnIds, Sel, Match;
    if gs != [] {
      OwnSelected(es, gs[0], rs);
      ItemsGather(es, gs[1..], rs);
    }
  }

  // Following the ranges down the groups finds exactly the matching lemmas, in the array's order.
  lemma CoverFinds(es: seq<Entry>, rs: seq<Range>)
    requires Ordered(es) && |rs| > 0
    ensures Items(es, Cover(es, rs, |rs|), |rs|) == Sel(es, 0, |es|, rs)
  {
    ItemsGather(es, Cover(es, rs, |rs|), rs);
    CoverGathers(es, rs, |rs|);
  }

  // The first ranges alone decide the cover of their depth.
  lemma {:induction false} CoverPrefix(es: seq<Entry>, rs: seq<Range>, rs': seq<Range>, d: nat)
    requires Ordered(es) && 0 < d <= |rs| && d <= |rs'| && rs[..d] == rs'[..d]
    ensures Cover(es, rs, d) == Cover(es, rs', d)
    decreases d
  {
    hide GroupIn, Sub, AllKids, Ordered;
    assert rs[d - 1] == rs[..d][d - 1] == rs'[..d][d - 1] == rs'[d - 1];
    if d > 1 {
      assert rs[..d - 1] == rs[..d][..d - 1] == rs'[..d - 1];
      CoverPrefix(es, rs, rs', d - 1);
    }
  }

  // ---- Limited buffers ----

  function First<T>(n: nat, s: seq<T>): seq<T> { if |s| <= n then s else s[..n] }

  // The cover when every layer is cut to the cap.
  ghost function Capped(es: seq<Entry>, rs: seq<Range>, d: nat, cap: nat): (gs: seq<Group>)
    requires Ordered(es) && 0 < d <= |rs|
    ensures AllIn(es, gs) && |gs| <= cap
    decreases d
  {
    if d == 1 then
      AllCluster(es);
      SubIn(es, 0, |es|, 0, rs, 0);
      GroupsBounds(es, Sub(es, 0, |es|, 0, rs[0], 0), rs, 1);
      First(cap, Sub(es, 0, |es|, 0, rs[0], 0))
    else
      AllKidsAllIn(es, Capped(es, rs, d - 1, cap), d - 1, rs[d - 1]);
      First(cap, AllKids(es, Capped(es, rs, d - 1, cap), d - 1, rs[d - 1]))
  }

  lemma GroupsBounds(es: seq<Entry>, gs: seq<Group>, rs: seq<Range>, d: nat)
    requires forall q :: 0 <= q < |gs| ==> GroupIn(es, gs[q], rs, d)
    ensures AllIn(es, gs)
  {
    hide GroupIn;
    forall q | 0 <= q < |gs|
      ensures gs[q].a < gs[q].m <= |es|
    {
      GroupBounds(es, gs[q], rs, d);
    }
  }

  lemma {:induction false} SubAllIn(es: seq<Entry>, a: nat, b: nat, level: nat, r: Range, i: nat)
    requires a <= b <= |es| && i <= Groups(es, a, b, level)
    ensures AllIn(es, Sub(es, a, b, level, r, i))
    decreases Groups(es, a, b, level) - i
  {
    if i < Groups(es, a, b, level) {
      SubAllIn(es, a, b, level, r, i + 1);
      StartNext(es, a, b, level, i);
    }
  }

  lemma {:induction false} AllKidsAllIn(es: seq<Entry>, gs: seq<Group>, d: nat, r: Range)
    requires AllIn(es, gs) && d > 0
    ensures AllIn(es, AllKids(es, gs, d, r))
  {
    if gs != [] {
      AllKidsAllIn(es, gs[1..], d, r);
      SubAllIn(es, gs[0].a + Own(es, gs[0].a, gs[0].m, d - 1), gs[0].m, d, r, 0);
    }
  }

  // Caps that no layer reaches change nothing.
  lemma {:induction false} CappedIsCover(es: seq<Entry>, rs: seq<Range>, d: nat, cap: nat)
    requires Ordered(es) && 0 < d <= |rs| && forall k: nat :: 0 < k <= d ==> |Cover(es, rs, k)| <= cap
    ensures Capped(es, rs, d, cap) == Cover(es, rs, d)
    decreases d
  {
    if d > 1 {
      CappedIsCover(es, rs, d - 1, cap);
    }
    hide GroupIn, Sub, AllKids, Ordered, AllIn;
    assert |Cover(es, rs, d)| <= cap;
  }
}
