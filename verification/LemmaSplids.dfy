// From a lemma's id back to its spelling ids: every way to spell its characters is tried until the
// trie has the lemma.

module LemmaSplids {
  import opened Limits
  import opened Trie
  import opened SpellingIds
  import D = DictTrie
  import L = WordList
  import C = CharSpellings

  const MTRX_SIZE := MAX_LEMMA_SIZE * 5

  // How many ways there are to choose one of each.
  function Ways(cs: seq<seq<nat>>): (n: nat)
    ensures (forall k :: 0 <= k < |cs| ==> cs[k] != []) ==> n > 0
  {
    if cs == [] then 1
    else
      PositiveTimes(|cs[0]|, Ways(cs[1..]));
      |cs[0]| * Ways(cs[1..])
  }

  lemma PositiveTimes(a: nat, b: nat)
    ensures a > 0 && b > 0 ==> a * b > 0
    ensures a * b >= 0
  {}

  // Choice t: its digits in the mixed radix of the numbers of candidates, least first.
  function Choice(cs: seq<seq<nat>>, t: nat): (x: seq<nat>)
    requires forall k :: 0 <= k < |cs| ==> cs[k] != []
    ensures |x| == |cs|
  {
    if cs == [] then [] else [cs[0][t % |cs[0]|]] + Choice(cs[1..], t / |cs[0]|)
  }

  ghost predicate Chosen(cs: seq<seq<nat>>, x: seq<nat>) { |x| == |cs| && forall k :: 0 <= k < |cs| ==> x[k] in cs[k] }

  function IndexIn(c: seq<nat>, v: nat): (i: nat)
    requires v in c
    ensures i < |c| && c[i] == v
  {
    if c[0] == v then 0 else 1 + IndexIn(c[1..], v)
  }

  // The number of a choice.
  ghost function Number(cs: seq<seq<nat>>, x: seq<nat>): nat
    requires Chosen(cs, x)
  {
    if cs == [] then 0 else IndexIn(cs[0], x[0]) + |cs[0]| * Number(cs[1..], x[1..])
  }

  lemma DigitBack(i: nat, r: nat, n: nat)
    requires i < r
    ensures (i + r * n) % r == i && (i + r * n) / r == n
  {
    var x := i + r * n;
    var q, m := x / r, x % r;
    assert q * r + m == x && (n - q) * r == m - i && (q - n) * r == i - m;
    if q < n {
      TimesMore(n - q, r);
    } else if n < q {
      TimesMore(q - n, r);
    }
  }

  lemma TimesMore(d: nat, r: nat)
    requires d > 0
    ensures d * r >= r
  {}

  lemma BelowTimes(i: nat, r: nat, n: nat, m: nat)
    requires i < r && n < m
    ensures i + r * n < r * m
  {
    assert r * n + r <= r * m by {
      TimesLe(r, n + 1, m);
    }
  }

  lemma TimesLe(r: nat, a: nat, b: nat)
    requires a <= b
    ensures r * a <= r * b
  {}

  // Every choice has a number, and the number is that of the choice.
  lemma {:induction false} NumberBack(cs: seq<seq<nat>>, x: seq<nat>)
    requires Chosen(cs, x)
    ensures (forall k :: 0 <= k < |cs| ==> cs[k] != []) && Number(cs, x) < Ways(cs) && Choice(cs, Number(cs, x)) == x
  {
    forall k | 0 <= k < |cs|
      ensures cs[k] != []
    {
      assert x[k] in cs[k];
    }
    if cs != [] {
      NumberBack(cs[1..], x[1..]);
      var i, n := IndexIn(cs[0], x[0]), Number(cs[1..], x[1..]);
      DigitBack(i, |cs[0]|, n);
      BelowTimes(i, |cs[0]|, n, Ways(cs[1..]));
    }
  }

  // Every number is that of a choice.
  lemma {:induction false} ChoiceChosen(cs: seq<seq<nat>>, t: nat)
    requires forall k :: 0 <= k < |cs| ==> cs[k] != []
    ensures Chosen(cs, Choice(cs, t))
  {
    if cs != [] {
      ChoiceChosen(cs[1..], t / |cs[0]|);
    }
  }

  ghost predicate NoRepeats(c: seq<nat>) { forall i, j :: 0 <= i < j < |c| ==> c[i] != c[j] }

  // Different numbers are different choices.
  lemma {:induction false} ChoiceBack(cs: seq<seq<nat>>, t: nat)
    requires (forall k :: 0 <= k < |cs| ==> cs[k] != [] && NoRepeats(cs[k])) && t < Ways(cs)
    ensures Chosen(cs, Choice(cs, t)) && Number(cs, Choice(cs, t)) == t
  {
    ChoiceChosen(cs, t);
    if cs != [] {
      var r := |cs[0]|;
      DivBelow(t, r, Ways(cs[1..]));
      ChoiceBack(cs[1..], t / r);
      IndexBack(cs[0], t % r);
      FirstDigit(cs, t);
    }
  }

  lemma {:induction false} IndexBack(c: seq<nat>, i: nat)
    requires NoRepeats(c) && i < |c|
    ensures IndexIn(c, c[i]) == i
  {
    if i > 0 {
      IndexBack(c[1..], i - 1);
    }
  }

  lemma FirstDigit(cs: seq<seq<nat>>, t: nat)
    requires cs != [] && (forall k :: 0 <= k < |cs| ==> cs[k] != []) && Chosen(cs, Choice(cs, t))
    ensures var r := |cs[0]|;
            && t % r < r && Choice(cs, t) == [cs[0][t % r]] + Choice(cs[1..], t / r)
            && t == t % r + r * (t / r) && Chosen(cs[1..], Choice(cs[1..], t / r))
            && Number(cs, Choice(cs, t)) == IndexIn(cs[0], cs[0][t % r]) + r * Number(cs[1..], Choice(cs[1..], t / r))
  {
    hide *;
    var r := |cs[0]|;
    ChoiceStep(cs, t);
    ChoiceChosen(cs[1..], t / r);
    DivMod(t, r);
    var x, y := Choice(cs, t), Choice(cs[1..], t / r);
    assert x[1..] == y && x[0] == cs[0][t % r];
    NumberStep(cs, x);
  }

  lemma ChoiceStep(cs: seq<seq<nat>>, t: nat)
    requires cs != [] && forall k :: 0 <= k < |cs| ==> cs[k] != []
    ensures Choice(cs, t) == [cs[0][t % |cs[0]|]] + Choice(cs[1..], t / |cs[0]|)
  {}

  lemma DivMod(t: nat, r: nat)
    requires r > 0
    ensures t % r < r && t == t % r + r * (t / r)
  {}

  lemma NumberStep(cs: seq<seq<nat>>, x: seq<nat>)
    requires cs != [] && Chosen(cs, x)
    ensures Chosen(cs[1..], x[1..]) && x[0] in cs[0]
    ensures Number(cs, x) == IndexIn(cs[0], x[0]) + |cs[0]| * Number(cs[1..], x[1..])
  {}

  lemma DivBelow(t: nat, r: nat, m: nat)
    requires r > 0 && t < r * m
    ensures t / r < m
  {
    var q := t / r;
    assert q * r <= t;
    if q >= m {
      TimesLe(r, m, q);
    }
  }

  // ---- The loop over the digits ----

  // The product of the first k numbers.
  function Mod(cs: seq<seq<nat>>, k: nat): (m: nat)
    requires k <= |cs| && forall i :: 0 <= i < |cs| ==> cs[i] != []
    ensures m > 0
  {
    if k == 0 then 1
    else
      PositiveTimes(Mod(cs, k - 1), |cs[k - 1]|);
      Mod(cs, k - 1) * |cs[k - 1]|
  }

  lemma {:induction false} ModFront(cs: seq<seq<nat>>, k: nat)
    requires 0 < k <= |cs| && forall i :: 0 <= i < |cs| ==> cs[i] != []
    ensures Mod(cs, k) == |cs[0]| * Mod(cs[1..], k - 1)
  {
    if k > 1 {
      ModFront(cs, k - 1);
      assert cs[1..][k - 2] == cs[k - 1];
      Assoc(|cs[0]|, Mod(cs[1..], k - 2), |cs[k - 1]|);
    } else {
      assert Mod(cs, 1) == Mod(cs, 0) * |cs[0]|;
    }
  }

  lemma Assoc(a: nat, b: nat, c: nat)
    ensures a * b * c == a * (b * c)
  {}

  lemma ModAll(cs: seq<seq<nat>>)
    requires forall i :: 0 <= i < |cs| ==> cs[i] != []
    ensures Mod(cs, |cs|) == Ways(cs)
  {
    if cs != [] {
      ModAll(cs[1..]);
      ModFront(cs, |cs|);
    }
  }

  lemma DivDiv(t: nat, a: nat, b: nat)
    requires a > 0 && b > 0
    ensures a * b > 0 && t / a / b == t / (a * b)
  {
    PositiveTimes(a, b);
    var q, r := t / (a * b), t % (a * b);
    assert t == q * (a * b) + r;
    var y := t / a;
    assert a * y <= t < a * y + a;
    var z := y / b;
    assert b * z <= y < b * z + b;
    Sandwich(t, a, b, y, z);
    Quotient(t, a * b, z);
  }

  lemma Sandwich(t: nat, a: nat, b: nat, y: nat, z: nat)
    requires a * y <= t < a * y + a && b * z <= y < b * z + b
    ensures a * b * z <= t < a * b * z + a * b
  {
    TimesLe(a, b * z, y);
    TimesLe(a, y + 1, b * z + b);
    Assoc(a, b, z);
    assert a * (b * z + b) == a * b * z + a * b;
    assert a * (y + 1) == a * y + a;
  }

  lemma Quotient(t: nat, n: nat, z: nat)
    requires n > 0 && n * z <= t < n * z + n
    ensures t / n == z
  {
    DigitBack(t - n * z, n, z);
  }

  // Digit k of choice t.
  lemma {:induction false} ChoiceAt(cs: seq<seq<nat>>, t: nat, k: nat)
    requires (forall i :: 0 <= i < |cs| ==> cs[i] != []) && k < |cs|
    ensures Choice(cs, t)[k] == cs[k][t / Mod(cs, k) % |cs[k]|]
  {
    if k > 0 {
      ChoiceAt(cs[1..], t / |cs[0]|, k - 1);
      ModFront(cs, k);
      DivDiv(t, |cs[0]|, Mod(cs[1..], k - 1));
    } else {
      assert t / 1 == t;
    }
  }

  // ---- The candidates of a word ----

  // What the caller gives: the ids or half ids he has, if any, and what goes with a half id.
  datatype Given = Given(args: seq<nat>, valid: bool, splNum: nat, compat: (nat, nat) -> bool)

  predicate IsFull(id: nat, splNum: nat) { FULL_START <= id < FULL_START + splNum }

  predicate FullGiven(g: Given, k: nat)
    requires g.valid ==> k < |g.args|
  {
    g.valid && IsFull(g.args[k], g.splNum)
  }

  // The candidates for character k: the id given, or the spellings of the character.
  function Cand(items: seq<C.Sci>, hz: nat, g: Given, k: nat): seq<nat>
    requires g.valid ==> k < |g.args|
  {
    if FullGiven(g, k) then [g.args[k]] else C.SplidsFor(items, hz, if g.valid then g.args[k] else 0, g.compat)
  }

  function Cands(items: seq<C.Sci>, w: seq<nat>, g: Given, n: nat): (cs: seq<seq<nat>>)
    requires n <= |w| && (g.valid ==> |g.args| >= |w|)
    ensures |cs| == n && forall k :: 0 <= k < n ==> cs[k] == Cand(items, w[k], g, k)
  {
    if n == 0 then [] else Cands(items, w, g, n - 1) + [Cand(items, w[n - 1], g, n - 1)]
  }

  function Total(cs: seq<seq<nat>>, k: nat): nat
    requires k <= |cs|
  {
    if k == 0 then 0 else Total(cs, k - 1) + |cs[k - 1]|
  }

  lemma {:induction false} TotalGrows(cs: seq<seq<nat>>, i: nat, j: nat)
    requires i <= j <= |cs|
    ensures Total(cs, i) <= Total(cs, j)
    decreases j
  {
    if i < j {
      TotalGrows(cs, i, j - 1);
    }
  }

  // What the program's tests and buffers ask of the characters: each has its spellings, and they fit.
  ghost predicate Spellable(items: seq<C.Sci>, w: seq<nat>, g: Given) {
    && (g.valid ==> |g.args| >= |w|)
    && (forall k: nat :: k < |w| ==>
         (FullGiven(g, k) || exists i :: 0 <= i < |items| && items[i].hz == w[k]) && Cand(items, w[k], g, k) != [])
    && Total(Cands(items, w, g, |w|), |w|) < MTRX_SIZE && Ways(Cands(items, w, g, |w|)) < WORD
  }

  // The first n rows lie in the matrix, each behind the other.
  ghost predicate Rows(mtrx: seq<nat>, start: seq<nat>, cs: seq<seq<nat>>, n: nat) {
    && n <= |cs| && n < |start| && start[0] == 0
    && forall k: nat :: k < n ==> Row(mtrx, start, cs, k)
  }

  ghost predicate Row(mtrx: seq<nat>, start: seq<nat>, cs: seq<seq<nat>>, k: nat) {
    && k < |cs| && k + 1 < |start| && start[k] == Total(cs, k) && start[k + 1] == Total(cs, k + 1) <= |mtrx|
    && mtrx[start[k]..start[k + 1]] == cs[k]
  }

  // One more row behind the others.
  lemma MoreRows(m0: seq<nat>, s0: seq<nat>, m: seq<nat>, s: seq<nat>, cs: seq<seq<nat>>, k: nat)
    requires Rows(m0, s0, cs, k) && k < |cs| && s0[k] == Total(cs, k) && k + 1 < |s0| == |s| && |m| == |m0|
    requires Total(cs, k + 1) <= |m| && m[..Total(cs, k)] == m0[..Total(cs, k)]
    requires m[Total(cs, k)..Total(cs, k + 1)] == cs[k]
    requires s == s0[k + 1 := Total(cs, k + 1)]
    ensures Rows(m, s, cs, k + 1)
  {
    forall i: nat | i < k + 1
      ensures Row(m, s, cs, i)
    {
      if i < k {
        assert Row(m0, s0, cs, i);
        TotalGrows(cs, i + 1, k);
        var n := Total(cs, k);
        assert m[s[i]..s[i + 1]] == m[..n][s[i]..s[i + 1]] && m0[s[i]..s[i + 1]] == m0[..n][s[i]..s[i + 1]];
      }
    }
  }

  // One row: the id given, or the spellings of the character.
  method PutRow(hz: nat, k: nat, args: array<nat>, chars: C.CharTable, g: Given, mtrx: array<nat>, from: nat)
    returns (num: nat)
    requires chars.Valid() && mtrx != chars.hz && mtrx != chars.full && mtrx != chars.half && mtrx.Length == MTRX_SIZE
    requires mtrx != args
    requires g.valid ==> k < |g.args| && k < args.Length && args[k] == g.args[k]
    requires FullGiven(g, k) || exists i :: 0 <= i < |chars.items| && chars.items[i].hz == hz
    requires from + |Cand(chars.items, hz, g, k)| < MTRX_SIZE
    modifies mtrx
    ensures num == |Cand(chars.items, hz, g, k)| && mtrx[from..from + num] == Cand(chars.items, hz, g, k)
    ensures mtrx[..from] == old(mtrx[..from])
  {
    if g.valid && IsFull(args[k], g.splNum) {
      mtrx[from] := args[k];
      num := 1;
    } else {
      num := chars.GetSplidsForHanzi(hz, if g.valid then args[k] else 0, mtrx, from, MTRX_SIZE - from, g.compat);
    }
  }

  // The arrays the rows go into are the program's own.
  ghost predicate Own(chars: C.CharTable, mtrx: array<nat>, start: array<nat>, str: array<nat>, args: array<nat>) {
    && mtrx.Length == MTRX_SIZE && start.Length == MAX_LEMMA_SIZE + 1 && start != mtrx
    && mtrx != chars.hz && mtrx != chars.full && mtrx != chars.half && mtrx != str && mtrx != args
    && start != chars.hz && start != chars.full && start != chars.half && start != str && start != args
  }

  // Row k behind the others.
  method PutOne(k: nat, str: array<nat>, args: array<nat>, chars: C.CharTable, g: Given, mtrx: array<nat>,
                start: array<nat>, ghost w: seq<nat>)
    returns (num: nat)
    requires chars.Valid() && Own(chars, mtrx, start, str, args) && k < |w| <= MAX_LEMMA_SIZE && k < str.Length
    requires str[k] == w[k]
    requires Spellable(chars.items, w, g) && (g.valid ==> k < |g.args| && k < args.Length && args[k] == g.args[k])
    requires Rows(mtrx[..], start[..], Cands(chars.items, w, g, |w|), k)
    requires start[k] == Total(Cands(chars.items, w, g, |w|), k)
    modifies mtrx, start
    ensures var cs := Cands(chars.items, w, g, |w|);
            Rows(mtrx[..], start[..], cs, k + 1) && start[k + 1] == Total(cs, k + 1) && num == |cs[k]|
  {
    hide *;
    SpellableAt(chars.items, w, g, k);
    ghost var cs := Cands(chars.items, w, g, |w|);
    OwnFacts(chars, mtrx, start, str, args);
    ghost var m0, s0 := mtrx[..], start[..];
    num := PutRow(str[k], k, args, chars, g, mtrx, start[k]);
    ghost var at := start[k];
    start[k + 1] := start[k] + num;
    assert mtrx[..at] == m0[..at] && mtrx[..][at..at + num] == mtrx[at..at + num] && mtrx[..][..at] == mtrx[..at];
    MoreRows(m0, s0, mtrx[..], start[..], cs, k);
  }

  lemma OwnFacts(chars: C.CharTable, mtrx: array<nat>, start: array<nat>, str: array<nat>, args: array<nat>)
    requires Own(chars, mtrx, start, str, args)
    ensures mtrx.Length == MTRX_SIZE == 40 && start.Length == MAX_LEMMA_SIZE + 1 == 9 && start != mtrx
    ensures mtrx != chars.hz && mtrx != chars.full && mtrx != chars.half && mtrx != str && mtrx != args
    ensures start != chars.hz && start != chars.full && start != chars.half && start != str && start != args
  {}

  lemma SpellableAt(items: seq<C.Sci>, w: seq<nat>, g: Given, k: nat)
    requires Spellable(items, w, g) && k < |w|
    ensures g.valid ==> |g.args| >= |w|
    ensures FullGiven(g, k) || exists i :: 0 <= i < |items| && items[i].hz == w[k]
    ensures var cs := Cands(items, w, g, |w|);
            && |cs| == |w| && cs[k] == Cand(items, w[k], g, k) && cs[k] != []
            && Total(cs, k + 1) == Total(cs, k) + |cs[k]| < MTRX_SIZE
  {
    hide *;
    SpellableIs(items, w, g);
    var cs := Cands(items, w, g, |w|);
    TotalGrows(cs, k + 1, |w|);
    TotalNext(cs, k);
  }

  lemma SpellableIs(items: seq<C.Sci>, w: seq<nat>, g: Given)
    requires Spellable(items, w, g)
    ensures g.valid ==> |g.args| >= |w|
    ensures forall k: nat :: k < |w| ==> (FullGiven(g, k) || exists i :: 0 <= i < |items| && items[i].hz == w[k])
    ensures forall k: nat :: k < |w| ==> Cand(items, w[k], g, k) != []
    ensures Total(Cands(items, w, g, |w|), |w|) < MTRX_SIZE && Ways(Cands(items, w, g, |w|)) < WORD
  {
    hide FullGiven, Cand, Cands, Total, Ways;
  }

  lemma TotalNext(cs: seq<seq<nat>>, k: nat)
    requires k < |cs|
    ensures Total(cs, k + 1) == Total(cs, k) + |cs[k]|
  {}

  // The rows of all characters.
  method PutRows(str: array<nat>, args: array<nat>, chars: C.CharTable, g: Given, mtrx: array<nat>, start: array<nat>,
                 len: nat, ghost w: seq<nat>)
    returns (tryNum: nat)
    requires chars.Valid() && Own(chars, mtrx, start, str, args) && len == |w| <= MAX_LEMMA_SIZE && len <= str.Length
    requires str[..len] == w
    requires Spellable(chars.items, w, g)
    requires (g.valid ==> len <= |g.args| && len <= args.Length && args[..len] == g.args[..len])
    modifies mtrx, start
    ensures var cs := Cands(chars.items, w, g, len);
            Rows(mtrx[..], start[..], cs, len) && tryNum == Ways(cs) && |cs| == len && forall k :: 0 <= k < len ==>
              cs[k] != []
  {
    tryNum := 1;
    start[0] := 0;
    SpellableRows(chars.items, w, g);
    ghost var cs := Cands(chars.items, w, g, len);
    NoRows(mtrx[..], start[..], cs);
    hide *;
    OwnFacts(chars, mtrx, start, str, args);
    ModNone(cs);
    for pos: nat := 0 to len
      invariant Rows(mtrx[..], start[..], cs, pos) && start[pos] == Total(cs, pos) && tryNum == Mod(cs, pos)
    {
      assert str[pos] == str[..len][pos] && (g.valid ==> args[pos] == args[..len][pos] == g.args[..len][pos]);
      var num := PutOne(pos, str, args, chars, g, mtrx, start, w);
      ModNext(cs, pos);
      tryNum := tryNum * num;
    }
    ModAll(cs);
  }

  lemma SpellableRows(items: seq<C.Sci>, w: seq<nat>, g: Given)
    requires Spellable(items, w, g)
    ensures g.valid ==> |g.args| >= |w|
    ensures var cs := Cands(items, w, g, |w|); |cs| == |w| && forall k :: 0 <= k < |w| ==> cs[k] != []
  {
    forall k: nat | k < |w|
      ensures Cands(items, w, g, |w|)[k] != []
    {
      SpellableAt(items, w, g, k);
    }
  }

  lemma NoRows(mtrx: seq<nat>, start: seq<nat>, cs: seq<seq<nat>>)
    requires |start| > 0 && start[0] == 0
    ensures Rows(mtrx, start, cs, 0) && Total(cs, 0) == 0
  {}

  lemma ModNone(cs: seq<seq<nat>>)
    requires forall i :: 0 <= i < |cs| ==> cs[i] != []
    ensures Mod(cs, 0) == 1
  {}

  lemma ModNext(cs: seq<seq<nat>>, k: nat)
    requires k < |cs| && forall i :: 0 <= i < |cs| ==> cs[i] != []
    ensures Mod(cs, k + 1) == Mod(cs, k) * |cs[k]|
  {}

  // Choice t into the caller's ids.
  method PutChoice(t: nat, len: nat, mtrx: array<nat>, start: array<nat>, splids: array<nat>, ghost cs: seq<seq<nat>>)
    requires Rows(mtrx[..], start[..], cs, len) && |cs| == len <= splids.Length && splids != mtrx && splids != start
    requires forall k :: 0 <= k < |cs| ==> cs[k] != []
    modifies splids
    ensures splids[..len] == Choice(cs, t)
  {
    var mod := 1;
    for pos: nat := 0 to len
      invariant mod == Mod(cs, pos) && splids[..pos] == Choice(cs, t)[..pos]
    {
      assert Row(mtrx[..], start[..], cs, pos);
      var radix := start[pos + 1] - start[pos];
      ChoiceAt(cs, t, pos);
      assert mtrx[..][start[pos]..start[pos + 1]][t / mod % radix] == mtrx[start[pos] + t / mod % radix];
      splids[pos] := mtrx[start[pos] + t / mod % radix];
      mod := mod * radix;
    }
  }

  // The word get_lemma_str gives for an id.
  function WordOf(ws: seq<seq<nat>>, id: nat): seq<nat> { if 1 <= id < |ws| then ws[id - 1] else [] }

  // The ids tried are full ids of the trie.
  ghost predicate FullCands(cs: seq<seq<nat>>, splNum: nat) { forall k,
                            x :: 0 <= k < |cs| && x in cs[k] ==> IsFull(x, splNum) }

  // The caller's array is not one of the dictionary's.
  ghost predicate Free(splids: array<nat>, dict: D.DictTrie, words: L.WordList, chars: C.CharTable)
    reads dict, words
  {
    && splids != dict.idBuf && splids != dict.splidIndex && splids != words.buf && splids != words.startPos
    && splids != words.startId
    && splids != chars.hz && splids != chars.full && splids != chars.half
  }

  lemma ChoiceFull(cs: seq<seq<nat>>, splNum: nat, x: seq<nat>)
    requires FullCands(cs, splNum) && Chosen(cs, x)
    ensures x != [] ==> FULL_START <= x[0] < FULL_START + splNum
  {
    assert x != [] ==> x[0] in cs[0] && IsFull(x[0], splNum);
  }

  // get_lemma_splids: spelling ids among the candidates that the trie has for the lemma, if there are any.
  method GetLemmaSplids(dict: D.DictTrie, words: L.WordList, chars: C.CharTable, id: nat, splids: array<nat>,
                        splidsMax: nat, g: Given)
    returns (len: nat)
    requires dict.Valid() && words.Valid() && chars.Valid() && splidsMax <= splids.Length
    requires Free(splids, dict, words, chars)
    requires g.splNum == dict.splNum && (g.valid ==> g.args == splids[..splidsMax])
    requires (!g.valid && splidsMax >= |WordOf(words.words, id)|) || splidsMax == |WordOf(words.words, id)|
    requires Spellable(chars.items, WordOf(words.words, id), g)
    requires FullCands(Cands(chars.items, WordOf(words.words, id), g, |WordOf(words.words, id)|), g.splNum)
    modifies splids
    ensures var w := WordOf(words.words, id);
            var cs := Cands(chars.items, w, g, |w|);
            && (len == 0 || (len == |w| <= splids.Length && Chosen(cs, splids[..len])
                 && D.HasLemma(dict.lemmas, splids[..len], id)))
            && (len == 0 ==> forall x :: Chosen(cs, x) ==> !D.HasLemma(dict.lemmas, x, id))
  {
    hide *;
    ghost var w := WordOf(words.words, id);
    ghost var cs := Cands(chars.items, w, g, |w|);
    FreeFacts(splids, dict, words, chars);
    WordIs(words, id);
    var str, mtrx, start := Buffers();
    var n := words.GetLemmaStr(id, str, str.Length);
    IsOwn(chars, mtrx, start, str, splids);
    var tryNum := PutRows(str, splids, chars, g, mtrx, start, n, w);
    len := TryAll(dict, id, n, tryNum, mtrx, start, splids, cs);
    AllTried(dict.lemmas, id, cs);
  }

  // The tries, in order.
  method TryAll(dict: D.DictTrie, id: nat, n: nat, tryNum: nat, mtrx: array<nat>, start: array<nat>,
                splids: array<nat>, ghost cs: seq<seq<nat>>)
    returns (len: nat)
    requires dict.Valid() && splids != dict.idBuf && splids != dict.splidIndex && splids != mtrx && splids != start
    requires Rows(mtrx[..], start[..], cs, n) && |cs| == n <= splids.Length && tryNum == Ways(cs)
    requires (forall k :: 0 <= k < |cs| ==> cs[k] != []) && FullCands(cs, dict.splNum)
    modifies splids
    ensures len == 0 || (len == n && Chosen(cs, splids[..n]) && D.HasLemma(dict.lemmas, splids[..n], id))
    ensures len == 0 ==> forall t: nat :: t < Ways(cs) ==> !D.HasLemma(dict.lemmas, Choice(cs, t), id)
  {
    hide *;
    for t: nat := 0 to tryNum
      invariant forall s: nat :: s < t ==> !D.HasLemma(dict.lemmas, Choice(cs, s), id)
    {
      PutChoice(t, n, mtrx, start, splids, cs);
      ChoiceChosen(cs, t);
      ChoiceFull(cs, dict.splNum, Choice(cs, t));
      var found := dict.TryExtend(splids[..n], id);
      if found {
        NoEmpty(dict, id);
        return n;
      }
    }
    len := 0;
  }

  lemma NoEmpty(dict: D.DictTrie, id: nat)
    requires dict.Valid()
    ensures !D.HasLemma(dict.lemmas, [], id)
  {
    dict.NoEmptyLemma(id);
  }

  // With every number tried, every choice is.
  lemma AllTried(es: seq<Entry>, id: nat, cs: seq<seq<nat>>)
    ensures (forall k :: 0 <= k < |cs| ==> cs[k] != [])
              && (forall t: nat :: t < Ways(cs) ==> !D.HasLemma(es, Choice(cs, t), id)) ==>
              forall x :: Chosen(cs, x) ==> !D.HasLemma(es, x, id)
  {
    forall x | Chosen(cs, x)
      ensures (forall k :: 0 <= k < |cs| ==> cs[k] != []) && Number(cs, x) < Ways(cs) && Choice(cs, Number(cs, x)) == x
    {
      NumberBack(cs, x);
    }
  }

  lemma IsOwn(chars: C.CharTable, mtrx: array<nat>, start: array<nat>, str: array<nat>, args: array<nat>)
    requires mtrx.Length == MTRX_SIZE && start.Length == MAX_LEMMA_SIZE + 1 && start != mtrx
    requires mtrx != chars.hz && mtrx != chars.full && mtrx != chars.half && mtrx != str && mtrx != args
    requires start != chars.hz && start != chars.full && start != chars.half && start != str && start != args
    ensures Own(chars, mtrx, start, str, args)
  {}

  lemma FreeFacts(splids: array<nat>, dict: D.DictTrie, words: L.WordList, chars: C.CharTable)
    requires Free(splids, dict, words, chars)
    ensures splids != dict.idBuf && splids != dict.splidIndex && splids != words.buf && splids != words.startPos
    ensures splids != words.startId
    ensures splids != chars.hz && splids != chars.full && splids != chars.half
  {}

  // The buffers on the stack.
  method Buffers() returns (str: array<nat>, mtrx: array<nat>, start: array<nat>)
    ensures fresh(str) && fresh(mtrx) && fresh(start) && str != mtrx && str != start && start != mtrx
    ensures str.Length == MAX_LEMMA_SIZE + 1 && mtrx.Length == MTRX_SIZE && start.Length == MAX_LEMMA_SIZE + 1
  {
    str, mtrx, start := new nat[MAX_LEMMA_SIZE + 1], new nat[MTRX_SIZE], new nat[MAX_LEMMA_SIZE + 1];
  }

  lemma WordIs(words: L.WordList, id: nat)
    requires words.Valid()
    ensures |WordOf(words.words, id)| <= MAX_LEMMA_SIZE
    ensures WordOf(words.words, id) == if 1 <= id < |words.words| then words.words[id - 1] else []
  {
    words.ValidFacts();
  }

  // The trie, the word list and the characters are those of one lemma array, sorted by its words.
  ghost predicate FromLemmas(ls: seq<C.Lemma>, es: seq<Entry>, ws: seq<seq<nat>>, items: seq<C.Sci>) {
    && C.OkLemmas(ls) && |ws| == |ls| && (forall j :: 0 <= j < |ls| ==> ws[j] == ls[j].str) && C.Complete(ls, items)
    && (forall i :: 0 <= i < |es| ==> 1 <= es[i].id <= |ls| && es[i].splids == ls[es[i].id - 1].splids)
    && forall j :: 0 <= j < |ls| ==> D.HasLemma(es, ls[j].splids, j + 1)
  }

  // Without ids given, a lemma whose word the list gives gets exactly its spelling ids back.
  lemma StoredFound(ls: seq<C.Lemma>, es: seq<Entry>, ws: seq<seq<nat>>, items: seq<C.Sci>, id: nat, g: Given,
                    len: nat, x: seq<nat>)
    requires FromLemmas(ls, es, ws, items) && 1 <= id < |ws| && !g.valid
    requires var w := WordOf(ws, id);
             var cs := Cands(items, w, g, |w|);
             && (len == 0 || (len == |w| && Chosen(cs, x) && D.HasLemma(es, x, id)))
             && (len == 0 ==> forall y :: Chosen(cs, y) ==> !D.HasLemma(es, y, id))
    ensures len == |ls[id - 1].str| > 0 && x == ls[id - 1].splids
  {
    hide *;
    StoredParts(ls, es, ws, items, id);
    OwnChosen(ls, items, id - 1, g);
    OnlyOne(ls, es, ws, items, id, x);
  }

  lemma StoredParts(ls: seq<C.Lemma>, es: seq<Entry>, ws: seq<seq<nat>>, items: seq<C.Sci>, id: nat)
    requires FromLemmas(ls, es, ws, items) && 1 <= id < |ws|
    ensures |ws| == |ls| && WordOf(ws, id) == ls[id - 1].str != [] && C.OkLemmas(ls) && C.Complete(ls, items)
    ensures D.HasLemma(es, ls[id - 1].splids, id)
  {
    assert C.OkLemma(ls[id - 1]);
    hide C.Complete, C.OkLemma, D.HasLemma;
  }

  // The trie has an id with one row of spelling ids only.
  lemma OnlyOne(ls: seq<C.Lemma>, es: seq<Entry>, ws: seq<seq<nat>>, items: seq<C.Sci>, id: nat, x: seq<nat>)
    requires FromLemmas(ls, es, ws, items) && 1 <= id < |ws|
    ensures |ws| == |ls| && (D.HasLemma(es, x, id) ==> x == ls[id - 1].splids)
  {
    hide C.Complete, C.OkLemmas;
  }

  // A lemma's own spelling ids are among the candidates.
  lemma OwnChosen(ls: seq<C.Lemma>, items: seq<C.Sci>, j: nat, g: Given)
    requires C.OkLemmas(ls) && C.Complete(ls, items) && j < |ls| && !g.valid
    ensures Chosen(Cands(items, ls[j].str, g, |ls[j].str|), ls[j].splids)
  {
    var l := ls[j];
    assert C.OkLemma(l);
    forall k: nat | k < |l.str|
      ensures l.splids[k] in Cand(items, l.str[k], g, k)
    {
      SpelledHere(ls, j, k);
      assert C.Listed(items, l.str[k], l.splids[k]);
      C.AllSplids(items, l.str[k], g.compat);
      hide C.SplidsFor, C.Spelled, C.Listed, C.OkLemmas;
    }
    hide C.Complete, C.OkLemmas, Cand;
  }

  lemma SpelledHere(ls: seq<C.Lemma>, j: nat, k: nat)
    requires j < |ls| && k < |ls[j].str| && k < |ls[j].splids|
    ensures C.Spelled(ls, ls[j].str[k], ls[j].splids[k])
  {}
}
