// The single characters and their spellings, collected from the lemmas when the dictionary is built.

module CharSpellings {
  import opened Limits

  // A character with one of its full spelling ids, and that one's half id.
  datatype Sci = Sci(freq: real, hz: nat, full: nat, half: nat)

  const BLANK := Sci(0.0, 0, 0, 0)

  // A lemma's characters, their full ids, and its frequency.
  datatype Lemma = Lemma(str: seq<nat>, splids: seq<nat>, freq: real)

  ghost predicate OkLemma(l: Lemma) {
    1 <= |l.str| == |l.splids| <= MAX_LEMMA_SIZE && forall k :: 0 <= k < |l.str| ==> l.str[k] > 0
  }

  ghost predicate OkLemmas(ls: seq<Lemma>) { forall i :: 0 <= i < |ls| ==> OkLemma(ls[i]) }

  // cmp_scis_hz_splid: character, half id, full id.
  predicate Less(a: Sci, b: Sci) {
    a.hz < b.hz || (a.hz == b.hz && (a.half < b.half || (a.half == b.half && a.full < b.full)))
  }

  predicate Alike(a: Sci, b: Sci) { a.hz == b.hz && a.half == b.half && a.full == b.full }

  // cmp_scis_hz_splid_freq: and the greater frequency first.
  predicate InOrder(a: Sci, b: Sci) { Less(a, b) || (Alike(a, b) && a.freq >= b.freq) }

  ghost predicate Sorted(s: seq<Sci>) { forall i, j :: 0 <= i < j < |s| ==> InOrder(s[i], s[j]) }

  // qsort by that order.
  ghost predicate Sorts(sort: seq<Sci> -> seq<Sci>) {
    forall s: seq<Sci> :: multiset(sort(s)) == multiset(s) && Sorted(sort(s))
  }

  // The half ids are those of the full ids.
  ghost predicate Halved(s: seq<Sci>,
                         halfOf: nat -> nat) { forall i :: 0 <= i < |s| ==> s[i].half == halfOf(s[i].full) }

  // The item of a character of a lemma; only of a lemma of one character the frequency counts.
  function ItemOf(l: Lemma, k: nat, halfOf: nat -> nat): Sci
    requires k < |l.str| == |l.splids|
  {
    Sci(if |l.str| == 1 then l.freq else 0.000001, l.str[k], l.splids[k], halfOf(l.splids[k]))
  }

  // Some lemma spells the character so.
  ghost predicate Spelled(ls: seq<Lemma>, hz: nat, full: nat) {
    exists i, k :: 0 <= i < |ls| && 0 <= k < |ls[i].str| && k < |ls[i].splids| && ls[i].str[k] == hz
      && ls[i].splids[k] == full
  }

  ghost predicate Strict(s: seq<Sci>) { forall i, j :: 0 <= i < j < |s| ==> Less(s[i], s[j]) }

  ghost predicate HasAlike(r: seq<Sci>, x: Sci) { exists j :: 0 <= j < |r| && Alike(r[j], x) }

  // The items of a list, one for each spelled character.
  ghost predicate Complete(ls: seq<Lemma>, s: seq<Sci>) {
    && Strict(s)
    && (forall i :: 0 < i < |s| ==> s[i].hz > 0 && Spelled(ls, s[i].hz, s[i].full))
    && forall hz: nat, full: nat :: Spelled(ls, hz, full) ==> Listed(s, hz, full)
  }

  ghost predicate Listed(s: seq<Sci>, hz: nat,
                         full: nat) { exists i :: 0 <= i < |s| && s[i].hz == hz && s[i].full == full }

  // Of items alike the first, of the first n.
  function Firsts(s: seq<Sci>, n: nat): (r: seq<Sci>)
    requires n <= |s|
    ensures |r| <= n && (n > 0 ==> r != [])
  {
    if n == 0 then []
    else Firsts(s, n - 1) + if n > 1 && s[n - 1].hz == s[n - 2].hz && s[n - 1].full == s[n - 2].full then []
      else [s[n - 1]]
  }

  lemma {:induction false} FirstsStrict(s: seq<Sci>, n: nat, halfOf: nat -> nat)
    requires Sorted(s) && Halved(s, halfOf) && 0 < n <= |s|
    ensures var r := Firsts(s, n); Strict(r) && r != [] && Alike(r[|r| - 1], s[n - 1])
  {
    if n > 1 {
      FirstsStrict(s, n - 1, halfOf);
      assert InOrder(s[n - 2], s[n - 1]);
      assert s[n - 2].half == halfOf(s[n - 2].full) && s[n - 1].half == halfOf(s[n - 1].full);
      StrictMore(Firsts(s, n - 1), s[n - 2], s[n - 1]);
    } else {
      assert Firsts(s, 0) == [] && Firsts(s, 1) == [s[0]];
    }
  }

  lemma StrictMore(r: seq<Sci>, a: Sci, x: Sci)
    requires Strict(r) && r != [] && Alike(r[|r| - 1], a)
    ensures Less(a, x) ==> Strict(r + [x])
  {
    if Less(a, x) {
      var more := r + [x];
      forall i, j | 0 <= i < j < |more|
        ensures Less(more[i], more[j])
      {
        if j == |r| && i < |r| - 1 {
          assert Less(r[i], r[|r| - 1]);
        }
      }
    }
  }

  lemma {:induction false} FirstsAll(s: seq<Sci>, n: nat, i: nat, halfOf: nat -> nat)
    requires Halved(s, halfOf) && i < n <= |s|
    ensures HasAlike(Firsts(s, n), s[i])
    decreases n
  {
    var q, r := Firsts(s, n - 1), Firsts(s, n);
    if i < n - 1 {
      FirstsAll(s, n - 1, i, halfOf);
      var j :| 0 <= j < |q| && Alike(q[j], s[i]);
      assert r[j] == q[j];
    } else if r != q + [s[n - 1]] {
      FirstsAll(s, n - 1, n - 2, halfOf);
      var j :| 0 <= j < |q| && Alike(q[j], s[n - 2]);
      assert r[j] == q[j];
    } else {
      assert r[|r| - 1] == s[i];
    }
  }

  lemma {:induction false} FirstsIn(s: seq<Sci>, n: nat)
    requires n <= |s|
    ensures forall x :: x in Firsts(s, n) ==> x in s
  {
    if n > 0 {
      FirstsIn(s, n - 1);
    }
  }

  // The blank item, and one for each character of the first n lemmas.
  ghost predicate Gathered(ls: seq<Lemma>, n: nat, s: seq<Sci>, halfOf: nat -> nat)
    requires n <= |ls| && OkLemmas(ls)
  {
    && BLANK in s
    && (forall x :: x in s ==> x.half == halfOf(x.full) && (x == BLANK || (x.hz > 0 && Spelled(ls, x.hz, x.full))))
    && forall i, k :: 0 <= i < n && InLemma(ls, i, k) ==> ItemOf(ls[i], k, halfOf) in s
  }

  ghost predicate InLemma(ls: seq<Lemma>, i: int, k: int) {
    0 <= i < |ls| && 0 <= k < |ls[i].str| == |ls[i].splids|
  }

  lemma SameMembers(a: seq<Sci>, b: seq<Sci>)
    requires multiset(a) == multiset(b)
    ensures |a| == |b| && forall x :: x in a <==> x in b
  {
    assert |multiset(a)| == |multiset(b)|;
    forall x
      ensures x in a <==> x in b
    {
      assert x in a <==> x in multiset(a);
      assert x in b <==> x in multiset(b);
    }
  }

  // What is left after sorting and dropping repeated items is complete.
  lemma BuiltComplete(ls: seq<Lemma>, halfOf: nat -> nat, all: seq<Sci>, s: seq<Sci>)
    requires OkLemmas(ls) && halfOf(0) == 0
    requires Sorted(s) && multiset(s) == multiset(all) && Gathered(ls, |ls|, all, halfOf)
    ensures s != [] && Complete(ls, Firsts(s, |s|)) && Firsts(s, |s|)[0].hz == 0
    ensures Halved(Firsts(s, |s|), halfOf)
  {
    hide *;
    var r := Firsts(s, |s|);
    SameMembers(s, all);
    GatheredHalves(ls, all, s, halfOf);
    FirstsStrict(s, |s|, halfOf);
    FirstsIn(s, |s|);
    forall i: nat | i < |s|
      ensures HasAlike(r, s[i])
    {
      FirstsAll(s, |s|, i, halfOf);
    }
    MembersRight(ls, halfOf, all, r);
    BlankIn(ls, |ls|, all, halfOf);
    BlankFirst(s, r);
    forall hz: nat, full: nat | Spelled(ls, hz, full)
      ensures Listed(r, hz, full)
    {
      SpelledIn(ls, halfOf, all, s, r, hz, full);
    }
    IsComplete(ls, r);
  }

  lemma BlankIn(ls: seq<Lemma>, n: nat, s: seq<Sci>, halfOf: nat -> nat)
    requires n <= |ls| && OkLemmas(ls) && Gathered(ls, n, s, halfOf)
    ensures BLANK in s
  {}

  lemma MembersRight(ls: seq<Lemma>, halfOf: nat -> nat, all: seq<Sci>, r: seq<Sci>)
    requires OkLemmas(ls) && Gathered(ls, |ls|, all, halfOf) && forall x :: x in r ==> x in all
    ensures Halved(r, halfOf)
    ensures forall i :: 0 <= i < |r| ==> r[i] == BLANK || (r[i].hz > 0 && Spelled(ls, r[i].hz, r[i].full))
  {
    hide OkLemmas, Spelled;
    forall i | 0 <= i < |r|
      ensures r[i] in all
    {}
  }

  lemma IsComplete(ls: seq<Lemma>, r: seq<Sci>)
    requires Strict(r) && (forall i :: 0 < i < |r| ==> r[i].hz > 0)
    requires forall i :: 0 <= i < |r| ==> r[i] == BLANK || (r[i].hz > 0 && Spelled(ls, r[i].hz, r[i].full))
    requires forall hz: nat, full: nat :: Spelled(ls, hz, full) ==> Listed(r, hz, full)
    ensures Complete(ls, r)
  {
    hide Spelled, Listed, Strict;
  }

  // A spelled character is listed among the items left.
  lemma SpelledIn(ls: seq<Lemma>, halfOf: nat -> nat, all: seq<Sci>, s: seq<Sci>, r: seq<Sci>, hz: nat, full: nat)
    requires OkLemmas(ls) && Gathered(ls, |ls|, all, halfOf) && (forall x :: x in s <==> x in all)
    requires (forall i: nat :: i < |s| ==> HasAlike(r, s[i])) && Spelled(ls, hz, full)
    ensures Listed(r, hz, full)
  {
    var i, k :| 0 <= i < |ls| && 0 <= k < |ls[i].str| && k < |ls[i].splids| && ls[i].str[k] == hz
      && ls[i].splids[k] == full;
    assert OkLemma(ls[i]) && InLemma(ls, i, k);
    var x := ItemOf(ls[i], k, halfOf);
    assert x in all && x in s;
    var p: nat :| p < |s| && s[p] == x;
    assert HasAlike(r, s[p]);
    var j :| 0 <= j < |r| && Alike(r[j], s[p]);
    assert r[j].hz == hz && r[j].full == full;
  }

  lemma BlankFirst(s: seq<Sci>, r: seq<Sci>)
    requires BLANK in s && (forall i: nat :: i < |s| ==> HasAlike(r, s[i]))
    requires Strict(r) && forall i :: 0 <= i < |r| ==> r[i] == BLANK || r[i].hz > 0
    ensures r != [] && r[0].hz == 0 && forall i :: 0 < i < |r| ==> r[i].hz > 0
  {
    var p: nat :| p < |s| && s[p] == BLANK;
    assert HasAlike(r, s[p]);
    var j :| 0 <= j < |r| && Alike(r[j], s[p]);
    assert j > 0 ==> Less(r[0], r[j]);
  }

  // ---- Building ----

  function Chars(ls: seq<Lemma>, n: nat): nat
    requires n <= |ls|
  {
    if n == 0 then 0 else Chars(ls, n - 1) + |ls[n - 1].str|
  }

  lemma {:induction false} CharsGrow(ls: seq<Lemma>, i: nat, j: nat)
    requires i <= j <= |ls|
    ensures Chars(ls, i) <= Chars(ls, j)
    decreases j
  {
    if i < j {
      CharsGrow(ls, i, j - 1);
    }
  }

  // The first k characters of lemma n are taken in too.
  ghost predicate GatheredTo(ls: seq<Lemma>, n: nat, k: nat, s: seq<Sci>, halfOf: nat -> nat)
    requires n < |ls| && OkLemmas(ls)
  {
    Gathered(ls, n, s, halfOf) && forall q :: 0 <= q < k && InLemma(ls, n, q) ==> ItemOf(ls[n], q, halfOf) in s
  }

  lemma GatherOne(ls: seq<Lemma>, n: nat, k: nat, s: seq<Sci>, halfOf: nat -> nat)
    requires n < |ls| && OkLemmas(ls) && GatheredTo(ls, n, k, s, halfOf) && InLemma(ls, n, k)
    ensures GatheredTo(ls, n, k + 1, s + [ItemOf(ls[n], k, halfOf)], halfOf)
  {
    var x := ItemOf(ls[n], k, halfOf);
    assert OkLemma(ls[n]) && Spelled(ls, x.hz, x.full);
    hide Spelled;
  }

  lemma GatherNext(ls: seq<Lemma>, n: nat, s: seq<Sci>, halfOf: nat -> nat)
    requires n < |ls| && OkLemmas(ls) && GatheredTo(ls, n, |ls[n].str|, s, halfOf)
    ensures Gathered(ls, n + 1, s, halfOf)
  {
    hide Spelled;
  }

  lemma GatherNone(ls: seq<Lemma>, halfOf: nat -> nat)
    requires OkLemmas(ls) && halfOf(0) == 0
    ensures Gathered(ls, 0, [BLANK], halfOf)
  {}

  // The scan that collects the characters, and whether it stays within the array.
  method Collect(scis: array<Sci>, ls: seq<Lemma>, halfOf: nat -> nat) returns (num: nat, fits: bool)
    requires OkLemmas(ls) && halfOf(0) == 0
    modifies scis
    ensures fits <==> Chars(ls, |ls|) < scis.Length
    ensures fits ==> 0 < num <= scis.Length && Gathered(ls, |ls|, scis[..num], halfOf)
  {
    hide Gathered, OkLemmas;
    GatherNone(ls, halfOf);
    num, fits := 0, false;
    if scis.Length == 0 {
      return;
    }
    scis[0] := BLANK;
    num := 1;
    assert scis[..1] == [BLANK];
    for pos: nat := 0 to |ls|
      invariant num == Chars(ls, pos) + 1 <= scis.Length && Gathered(ls, pos, scis[..num], halfOf)
    {
      CharsGrow(ls, pos + 1, |ls|);
      LemmaIs(ls, pos);
      var l := ls[pos];
      ghost var num0 := num;
      StartLemma(ls, pos, scis[..num], halfOf);
      for k: nat := 0 to |l.str|
        invariant num == num0 + k <= scis.Length && GatheredTo(ls, pos, k, scis[..num], halfOf)
      {
        if num == scis.Length {
          return;
        }
        GatherOne(ls, pos, k, scis[..num], halfOf);
        scis[num] := ItemOf(l, k, halfOf);
        num := num + 1;
        assert scis[..num] == scis[..num - 1] + [scis[num - 1]];
      }
      GatherNext(ls, pos, scis[..num], halfOf);
    }
    fits := true;
  }

  // Eight places a lemma are enough for the characters alone, and all taken only if every lemma has eight.
  lemma {:induction false} CharsBound(ls: seq<Lemma>, n: nat)
    requires OkLemmas(ls) && n <= |ls|
    ensures Chars(ls, n) <= n * MAX_LEMMA_SIZE
    ensures Chars(ls, n) == n * MAX_LEMMA_SIZE <==> forall i :: 0 <= i < n ==> |ls[i].str| == MAX_LEMMA_SIZE
  {
    if n > 0 {
      LemmaIs(ls, n - 1);
      CharsBound(ls, n - 1);
    }
  }

  // One place too few: build_scis lets the list through, and writes behind the array.
  ghost predicate Overruns(ls: seq<Lemma>, room: nat) {
    |ls| * MAX_LEMMA_SIZE <= room && Chars(ls, |ls|) >= room
  }

  // That is so exactly if every lemma has eight characters and there are just eight places a lemma.
  lemma OverrunsExactly(ls: seq<Lemma>, room: nat)
    requires OkLemmas(ls)
    ensures Overruns(ls, room) <==>
              room == |ls| * MAX_LEMMA_SIZE && forall i :: 0 <= i < |ls| ==> |ls[i].str| == MAX_LEMMA_SIZE
  {
    CharsBound(ls, |ls|);
  }

  const EIGHT := Lemma([1, 2, 3, 4, 5, 6, 7, 8], [30, 30, 30, 30, 30, 30, 30, 30], 0.0)

  // One lemma of eight characters and eight places.
  lemma EightOverrun()
    ensures OkLemmas([EIGHT]) && Overruns([EIGHT], 8)
  {
    OverrunsExactly([EIGHT], 8);
  }

  lemma LemmaIs(ls: seq<Lemma>, i: nat)
    requires OkLemmas(ls) && i < |ls|
    ensures OkLemma(ls[i])
  {}

  lemma StartLemma(ls: seq<Lemma>, n: nat, s: seq<Sci>, halfOf: nat -> nat)
    requires n < |ls| && OkLemmas(ls) && Gathered(ls, n, s, halfOf)
    ensures GatheredTo(ls, n, 0, s, halfOf)
  {}

  // Repeated items are taken out, in place.
  method DropRepeated(scis: array<Sci>, total: nat, halfOf: nat -> nat) returns (num: nat)
    requires 0 < total <= scis.Length && Halved(scis[..total], halfOf)
    modifies scis
    ensures num <= scis.Length && scis[..num] == Firsts(old(scis[..total]), total)
  {
    ghost var s := scis[..total];
    assert Firsts(s, 0) == [] && Firsts(s, 1) == [s[0]];
    num := 1;
    assert scis[..1] == [s[0]];
    for pos: nat := 1 to total
      invariant 1 <= num <= pos && scis[..num] == Firsts(s, pos) && forall q :: pos - 1 <= q < total ==> scis[q] == s[q]
    {
      FirstsStep(s, pos);
      if scis[pos].hz == scis[pos - 1].hz && scis[pos].full == scis[pos - 1].full {
        continue;
      }
      assert s[pos].half == halfOf(s[pos].full);
      scis[num] := scis[pos].(half := halfOf(scis[pos].full));
      num := num + 1;
      assert scis[..num] == scis[..num - 1] + [scis[num - 1]];
    }
  }

  lemma FirstsStep(s: seq<Sci>, pos: nat)
    requires 0 < pos < |s|
    ensures Firsts(s, pos + 1) ==
              Firsts(s, pos) + if s[pos].hz == s[pos - 1].hz && s[pos].full == s[pos - 1].full then [] else [s[pos]]
  {}

  // bsearch by cmp_scis_hz_splid.
  method FindSci(scis: array<Sci>, num: nat, key: Sci) returns (i: nat)
    requires num <= scis.Length && Strict(scis[..num]) && HasAlike(scis[..num], key)
    ensures i < num && Alike(scis[i], key)
  {
    ghost var s := scis[..num];
    ghost var j :| 0 <= j < |s| && Alike(s[j], key);
    var lo, hi := 0, num;
    i := 0;
    while lo < hi
      invariant lo <= j < hi <= num && scis[..num] == s
      decreases hi - lo
    {
      i := (lo + hi) / 2;
      assert s[i] == scis[i];
      if Alike(scis[i], key) {
        return;
      }
      assert (i < j ==> Less(s[i], s[j])) && (j < i ==> Less(s[j], s[i]));
      if Less(key, scis[i]) {
        hi := i;
      } else {
        lo := i + 1;
      }
    }
  }

  // The items a lemma's first k characters are.
  ghost predicate RowRight(l: Lemma, k: nat, row: seq<nat>, s: seq<Sci>) {
    && k == |row| <= |l.str| == |l.splids|
    && forall q :: 0 <= q < k ==> row[q] < |s| && s[row[q]].hz == l.str[q] && s[row[q]].full == l.splids[q]
  }

  ghost predicate IdsRight(ls: seq<Lemma>, n: nat, ids: seq<seq<nat>>, s: seq<Sci>) {
    n == |ids| <= |ls| && forall i :: 0 <= i < n ==> RowRight(ls[i], |ls[i].str|, ids[i], s)
  }

  // build_scis
  method BuildScis(scis: array<Sci>, ls: seq<Lemma>, halfOf: nat -> nat, sort: seq<Sci> -> seq<Sci>)
    returns (num: nat, ids: seq<seq<nat>>, fits: bool)
    requires OkLemmas(ls) && halfOf(0) == 0 && Sorts(sort)
    modifies scis
    ensures |ls| * MAX_LEMMA_SIZE > scis.Length ==> num == 0 && scis[..] == old(scis[..])
    ensures fits <==> !Overruns(ls, scis.Length)
    ensures |ls| * MAX_LEMMA_SIZE <= scis.Length && fits ==>
              && 0 < num <= scis.Length && Complete(ls, scis[..num]) && scis[0].hz == 0 && Halved(scis[..num], halfOf)
              && IdsRight(ls, |ls|, ids, scis[..num])
  {
    num, ids, fits := 0, [], true;
    if |ls| * MAX_LEMMA_SIZE > scis.Length {
      return;
    }
    num, fits := Collect(scis, ls, halfOf);
    if !fits {
      return;
    }
    ghost var all := scis[..num];
    var s := sort(scis[..num]);
    SortedIs(sort, all);
    SameMembers(s, all);
    GatheredHalves(ls, all, s, halfOf);
    forall k | 0 <= k < num {
      scis[k] := s[k];
    }
    assert scis[..num] == s;
    hide OkLemmas, Complete, Gathered, Sorted, Halved, Sorts;
    num := DropRepeated(scis, num, halfOf);
    BuiltComplete(ls, halfOf, all, s);
    ids := FindAll(scis, num, ls, halfOf);
  }

  lemma SortedIs(sort: seq<Sci> -> seq<Sci>, s: seq<Sci>)
    requires Sorts(sort)
    ensures multiset(sort(s)) == multiset(s) && Sorted(sort(s))
  {}

  lemma GatheredHalves(ls: seq<Lemma>, all: seq<Sci>, s: seq<Sci>, halfOf: nat -> nat)
    requires OkLemmas(ls) && Gathered(ls, |ls|, all, halfOf) && forall x :: x in s <==> x in all
    ensures s != [] && Halved(s, halfOf)
  {
    assert BLANK in s;
    forall i | 0 <= i < |s|
      ensures s[i].half == halfOf(s[i].full)
    {
      assert s[i] in all;
    }
  }

  // The update of the lemmas by the items found.
  method FindAll(scis: array<Sci>, num: nat, ls: seq<Lemma>, halfOf: nat -> nat) returns (ids: seq<seq<nat>>)
    requires OkLemmas(ls) && num <= scis.Length && Complete(ls, scis[..num]) && Halved(scis[..num], halfOf)
    ensures IdsRight(ls, |ls|, ids, scis[..num])
  {
    ids := [];
    ghost var s := scis[..num];
    for i: nat := 0 to |ls|
      invariant IdsRight(ls, i, ids, s)
    {
      var row := FindRow(scis, num, ls, i, halfOf);
      ids := ids + [row];
    }
  }

  method FindRow(scis: array<Sci>, num: nat, ls: seq<Lemma>, i: nat, halfOf: nat -> nat) returns (row: seq<nat>)
    requires OkLemmas(ls) && num <= scis.Length && Complete(ls, scis[..num]) && Halved(scis[..num], halfOf) && i < |ls|
    ensures RowRight(ls[i], |ls[i].str|, row, scis[..num])
  {
    hide OkLemmas, Complete, Halved;
    LemmaIs(ls, i);
    row := [];
    ghost var s := scis[..num];
    for k: nat := 0 to |ls[i].str|
      invariant RowRight(ls[i], k, row, s)
    {
      KeyThere(ls, s, halfOf, i, k);
      var at := FindSci(scis, num, ItemOf(ls[i], k, halfOf));
      assert s[at] == scis[at];
      row := row + [at];
    }
  }

  lemma KeyThere(ls: seq<Lemma>, s: seq<Sci>, halfOf: nat -> nat, i: nat, k: nat)
    requires OkLemmas(ls) && Complete(ls, s) && Halved(s, halfOf) && InLemma(ls, i, k)
    ensures Strict(s) && HasAlike(s, ItemOf(ls[i], k, halfOf))
  {
    assert Spelled(ls, ls[i].str[k], ls[i].splids[k]);
    assert Listed(s, ls[i].str[k], ls[i].splids[k]);
    var j :| 0 <= j < |s| && s[j].hz == ls[i].str[k] && s[j].full == ls[i].splids[k];
    assert Alike(s[j], ItemOf(ls[i], k, halfOf));
  }

  // ---- Looking up ----

  // Whether an item is asked for: by its half id, or if no item of the character has it, by one that goes with it.
  predicate Asked(x: Sci, hz: nat, half: nat, strict: bool, compat: (nat, nat) -> bool) {
    x.hz == hz && (half == 0 || (strict && x.half == half) || (!strict && compat(half, x.full)))
  }

  predicate IsStrict(s: seq<Sci>, hz: nat, half: nat) {
    exists i :: 0 <= i < |s| && s[i].hz == hz && (half == 0 || s[i].half == half)
  }

  // The full ids asked for, of the first n items.
  function Picked(s: seq<Sci>, n: nat, hz: nat, half: nat, strict: bool, compat: (nat, nat) -> bool): (r: seq<nat>)
    requires n <= |s|
    ensures |r| <= n
  {
    if n == 0 then []
    else Picked(s, n - 1, hz, half, strict, compat) + if Asked(s[n - 1], hz, half, strict, compat) then [s[n - 1].full]
      else []
  }

  function SplidsFor(s: seq<Sci>, hz: nat, half: nat, compat: (nat, nat) -> bool): seq<nat> {
    Picked(s, |s|, hz, half, IsStrict(s, hz, half), compat)
  }

  lemma {:induction false} PickedAll(s: seq<Sci>, n: nat, hz: nat, compat: (nat, nat) -> bool)
    requires n <= |s|
    ensures forall full: nat :: full in Picked(s, n, hz, 0, true, compat) <==> Listed(s[..n], hz, full)
  {
    if n > 0 {
      PickedAll(s, n - 1, hz, compat);
      forall full: nat
        ensures full in Picked(s, n, hz, 0, true, compat) <==> Listed(s[..n], hz, full)
      {
        assert Listed(s[..n], hz, full) <==>
                 Listed(s[..n - 1], hz, full) || (s[n - 1].hz == hz && s[n - 1].full == full) by {
          ListedMore(s, n, hz, full);
        }
      }
    }
  }

  lemma ListedMore(s: seq<Sci>, n: nat, hz: nat, full: nat)
    requires 0 < n <= |s|
    ensures Listed(s[..n], hz, full) <==> Listed(s[..n - 1], hz, full) || (s[n - 1].hz == hz && s[n - 1].full == full)
  {
    if Listed(s[..n - 1], hz, full) {
      var i :| 0 <= i < n - 1 && s[..n - 1][i].hz == hz && s[..n - 1][i].full == full;
      assert s[..n][i] == s[i];
    }
    if s[n - 1].hz == hz && s[n - 1].full == full {
      assert s[..n][n - 1] == s[n - 1];
    }
  }

  // Without a half id, all spellings of the character are given.
  lemma AllSplids(s: seq<Sci>, hz: nat, compat: (nat, nat) -> bool)
    ensures forall full: nat :: full in SplidsFor(s, hz, 0, compat) <==> Listed(s, hz, full)
  {
    PickedAll(s, |s|, hz, compat);
    assert s[..|s|] == s;
    if !IsStrict(s, hz, 0) {
      NonePicked(s, |s|, hz, compat);
      forall full: nat
        ensures !Listed(s, hz, full)
      {}
    }
  }

  lemma {:induction false} NonePicked(s: seq<Sci>, n: nat, hz: nat, compat: (nat, nat) -> bool)
    requires n <= |s| && forall i :: 0 <= i < n ==> s[i].hz != hz
    ensures Picked(s, n, hz, 0, false, compat) == []
  {
    if n > 0 {
      NonePicked(s, n - 1, hz, compat);
    }
  }

  lemma {:induction false} PickedGap(s: seq<Sci>, a: nat, b: nat, hz: nat, half: nat, strict: bool,
                                     compat: (nat, nat) -> bool)
    requires a <= b <= |s| && forall i: nat :: a <= i < b ==> s[i].hz != hz
    ensures Picked(s, b, hz, half, strict, compat) == Picked(s, a, hz, half, strict, compat)
    decreases b
  {
    if a < b {
      PickedGap(s, a, b - 1, hz, half, strict, compat);
    }
  }

  lemma SplidsIs(s: seq<Sci>, hz: nat, half: nat, strict: bool, compat: (nat, nat) -> bool)
    requires strict == IsStrict(s, hz, half)
    ensures SplidsFor(s, hz, half, compat) == Picked(s, |s|, hz, half, strict, compat)
  {}

  lemma PickedNone(s: seq<Sci>, hz: nat, half: nat, strict: bool, compat: (nat, nat) -> bool)
    ensures Picked(s, 0, hz, half, strict, compat) == []
  {}

  // One item more.
  lemma PickedNext(s: seq<Sci>, i: nat, hz: nat, half: nat, strict: bool, compat: (nat, nat) -> bool)
    requires i < |s|
    ensures Picked(s, i + 1, hz, half, strict, compat) ==
              Picked(s, i, hz, half, strict, compat) + if Asked(s[i], hz, half, strict, compat) then [s[i].full] else []
    ensures Asked(s[i], hz, half, strict, compat) <==>
              s[i].hz == hz && (half == 0 || (strict && s[i].half == half) || (!strict && compat(half, s[i].full)))
  {}

  // The items by character, as the list keeps them.
  class CharTable {
    const hz: array<nat>
    const full: array<nat>
    const half: array<nat>
    ghost const items: seq<Sci>

    ghost predicate Valid()
      reads hz, full, half
    {
      && hz.Length == full.Length == half.Length == |items| && Strict(items)
      && forall i: nat :: i < |items| ==> hz[i] == items[i].hz && full[i] == items[i].full && half[i] == items[i].half
    }

    // fill_scis
    constructor (scis: seq<Sci>)
      requires Strict(scis)
      ensures Valid() && items == scis && fresh(hz) && fresh(full) && fresh(half)
    {
      hz := new nat[|scis|](i requires 0 <= i < |scis| => scis[i].hz);
      full := new nat[|scis|](i requires 0 <= i < |scis| => scis[i].full);
      half := new nat[|scis|](i requires 0 <= i < |scis| => scis[i].half);
      items := scis;
    }

    // The first item of a character, by bsearch and steps back.
    method FirstOf(c: nat) returns (i: nat)
      requires Valid() && exists k :: 0 <= k < |items| && items[k].hz == c
      ensures i < |items| && items[i].hz == c && forall k: nat :: k < i ==> items[k].hz != c
    {
      ghost var j :| 0 <= j < |items| && items[j].hz == c;
      var lo, hi := 0, hz.Length;
      i := 0;
      while lo < hi
        invariant lo <= j < hi <= |items|
        decreases hi - lo
      {
        i := (lo + hi) / 2;
        if hz[i] == c {
          break;
        }
        assert (i < j ==> Less(items[i], items[j])) && (j < i ==> Less(items[j], items[i]));
        if c < hz[i] {
          hi := i;
        } else {
          lo := i + 1;
        }
      }
      while i > 0 && hz[i - 1] == c
        invariant i < |items| && items[i].hz == c
      {
        i := i - 1;
      }
      assert forall k: nat :: k < i - 1 ==> Less(items[k], items[i - 1]);
      assert i > 0 ==> Less(items[i - 1], items[i]);
    }

    // get_splids_for_hanzi
    method GetSplidsForHanzi(c: nat, halfId: nat, splids: array<nat>, at: nat, max: nat, compat: (nat, nat) -> bool)
      returns (num: nat)
      requires Valid() && splids != hz && splids != full && splids != half && at + max <= splids.Length
      requires (exists k :: 0 <= k < |items| && items[k].hz == c) && |SplidsFor(items, c, halfId, compat)| < max
      modifies splids
      ensures num == |SplidsFor(items, c, halfId, compat)|
      ensures splids[at..at + num] == SplidsFor(items, c, halfId, compat)
      ensures splids[..at] == old(splids[..at])
    {
      var first := FirstOf(c);
      var f, strict := Strictness(first, c, halfId);
      hide *;
      PickedGap(items, 0, first, c, halfId, strict, compat);
      PickedGap(items, f, |items|, c, halfId, strict, compat);
      SplidsIs(items, c, halfId, strict, compat);
      PickedNone(items, c, halfId, strict, compat);
      num := Fill(c, halfId, splids, at, max, compat, first, f, strict);
    }

    // Where the character's items end, and whether one of them has the half id.
    method Strictness(first: nat, c: nat, halfId: nat) returns (f: nat, strict: bool)
      requires Valid() && first < |items| && items[first].hz == c && forall k: nat :: k < first ==> items[k].hz != c
      ensures first <= f <= |items| && (forall k: nat :: first <= k < f ==> items[k].hz == c)
      ensures forall k: nat :: f <= k < |items| ==> items[k].hz != c
      ensures strict == IsStrict(items, c, halfId)
    {
      f, strict := first, false;
      while f < hz.Length && hz[f] == c
        invariant first <= f <= |items| && forall k: nat :: first <= k < f ==> items[k].hz == c
        invariant strict == exists i :: first <= i < f && (halfId == 0 || items[i].half == halfId)
      {
        if 0 == halfId || half[f] == halfId {
          strict := true;
        }
        f := f + 1;
      }
      Behind(first, f, c);
    }

    // The items asked for, of those of the character.
    method Fill(c: nat, halfId: nat, splids: array<nat>, at: nat, max: nat, compat: (nat, nat) -> bool, first: nat,
                ghost end: nat, strict: bool)
      returns (num: nat)
      requires Valid() && splids != hz && splids != full && splids != half && at + max <= splids.Length
      requires first <= end <= |items| && (forall k: nat :: first <= k < end ==> items[k].hz == c)
      requires (end < |items| ==> items[end].hz != c)
      requires Picked(items, first, c, halfId, strict, compat) == []
      requires |Picked(items, end, c, halfId, strict, compat)| < max
      modifies splids
      ensures num == |Picked(items, end, c, halfId, strict, compat)|
      ensures splids[at..at + num] == Picked(items, end, c, halfId, strict, compat)
      ensures splids[..at] == old(splids[..at])
    {
      hide *;
      ItemsHere();
      num := 0;
      var i := first;
      while i < hz.Length && hz[i] == c
        invariant first <= i <= end && splids[..at] == old(splids[..at])
        invariant num == |Picked(items, i, c, halfId, strict, compat)| && num < max
        invariant splids[at..at + num] == Picked(items, i, c, halfId, strict, compat)
      {
        ItemsHere();
        PickedGrow(items, i + 1, end, c, halfId, strict, compat);
        PickedNext(items, i, c, halfId, strict, compat);
        if 0 == halfId || (strict && half[i] == halfId) || (!strict && compat(halfId, full[i])) {
          Put(splids, at, num, full[i]);
          num := num + 1;
        }
        i := i + 1;
        ItemsHere();
      }
    }

    lemma ItemsHere()
      requires Valid()
      ensures hz.Length == full.Length == half.Length == |items|
      ensures forall i: nat :: i < |items| ==>
                hz[i] == items[i].hz && full[i] == items[i].full && half[i] == items[i].half
    {}

    method Put(splids: array<nat>, at: nat, num: nat, x: nat)
      requires at + num < splids.Length && splids != hz && splids != full && splids != half
      modifies splids
      ensures splids[..at] == old(splids[..at]) && splids[at..at + num + 1] == old(splids[at..at + num]) + [x]
    {
      splids[at + num] := x;
    }

    lemma Behind(first: nat, end: nat, c: nat)
      requires Strict(items) && first < |items| && first <= end <= |items| && items[first].hz == c
      requires forall k: nat :: first <= k < end ==> items[k].hz == c
      requires end < |items| ==> items[end].hz != c
      ensures forall k: nat :: end <= k < |items| ==> items[k].hz != c
    {
      forall k: nat | end <= k < |items|
        ensures items[k].hz != c
      {
        assert first < end ==> Less(items[first], items[end]);
        assert end < k ==> Less(items[end], items[k]);
      }
    }
  }

  lemma {:induction false} PickedGrow(s: seq<Sci>, a: nat, b: nat, hz: nat, half: nat, strict: bool,
                                      compat: (nat, nat) -> bool)
    requires a <= b <= |s|
    ensures |Picked(s, a, hz, half, strict, compat)| <= |Picked(s, b, hz, half, strict, compat)|
    decreases b
  {
    if a < b {
      PickedGrow(s, a, b - 1, hz, half, strict, compat);
    }
  }
}
