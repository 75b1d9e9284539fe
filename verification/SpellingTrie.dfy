// The trie of spellings: built over a sorted list, with the ranges of full ids of the half ids.

module SpellingTrie {
  import opened SpellingIds
  import opened Spellings

  const LETTERS := 26

  // spelling_idx has 11 bits.
  const ID_SPACE := 0x800

  // A node owns its sons.
  datatype SNode = SNode(id: nat, sons: seq<SNode>, ch: char, score: nat)

  const BLANK := SNode(0, [], '\0', 0)

  // What the list gives the trie: spellings, their scores, and whether the last letter may be a half id.
  datatype Source = Source(sp: seq<string>, scores: seq<nat>, on: bool)

  ghost predicate OkSource(s: Source) {
    && OkList(s.sp) && |s.scores| == |s.sp| && forall i :: 0 <= i < |s.scores| ==> s.scores[i] <= 0xff
  }

  // m is the least score from a up to b.
  ghost predicate Least(m: nat, scores: seq<nat>, a: nat, b: nat)
    requires a <= b <= |scores|
  {
    (forall k :: a <= k < b ==> m <= scores[k]) && exists k :: a <= k < b && scores[k] == m
  }

  // The least score of the spellings that begin with p.
  ghost predicate LeastOf(m: nat, s: Source, p: string)
    requires OkSource(s)
  {
    && (forall i :: 0 <= i < |s.sp| && p <= s.sp[i] ==> m <= s.scores[i])
    && exists i :: 0 <= i < |s.sp| && p <= s.sp[i] && s.scores[i] == m
  }

  // The node of prefix p.
  ghost predicate Stands(n: SNode, s: Source, p: string)
    requires OkSource(s)
    decreases n, 1
  {
    && p != [] && Has(s.sp, p) && n.ch == p[|p| - 1] && NodeId(s.sp, p, s.on, n.id) && LeastOf(n.score, s, p)
    && SonsFor(n, s, p)
  }

  // The sons of the node of prefix p: one for each next character, in order.
  ghost predicate SonsFor(n: SNode, s: Source, p: string)
    requires OkSource(s)
    decreases n, 0
  {
    && (forall k :: 0 <= k < |n.sons| ==> Stands(n.sons[k], s, p + [n.sons[k].ch]))
    && (forall i, j :: 0 <= i < j < |n.sons| ==> n.sons[i].ch < n.sons[j].ch)
    && forall i :: 0 <= i < |s.sp| && p <= s.sp[i] && |p| < |s.sp[i]| ==>
         exists k :: 0 <= k < |n.sons| && n.sons[k].ch == s.sp[i][|p|]
  }

  // How many times the next character changes from item a to item b - 1.
  function Changes(sp: seq<string>, a: nat, b: nat, level: nat): nat
    requires b <= |sp|
    decreases b
  {
    if b <= a + 1 then 0
    else Changes(sp, a, b - 1, level) + if At(sp[b - 1], level) != At(sp[b - 2], level) then 1 else 0
  }

  lemma {:induction false} ChangesGrow(sp: seq<string>, a: nat, b: nat, c: nat, level: nat)
    requires b <= c <= |sp|
    ensures Changes(sp, a, b, level) <= Changes(sp, a, c, level)
    decreases c
  {
    if b < c {
      ChangesGrow(sp, a, b, c - 1, level);
    }
  }

  // What the ranges of the half ids say once the first `to` items of the block of p are in the trie.
  ghost predicate RangesTo(s: Source, p: string, from: nat, to: nat, start: seq<nat>, num: seq<nat>)
    requires from <= to <= |s.sp| && |start| == |num| == FULL_START
  {
    forall h: nat :: 0 < h < FULL_START && p < HalfStr(h) ==>
      if SeenIn(s.sp, |p|, HalfStr(h)[|p|], from, to) then RangeRight(s.sp, s.on, h, start[h], num[h])
      else start[h] == 0 && num[h] == 0
  }

  ghost predicate SeenIn(sp: seq<string>, level: nat, ch: char, from: nat, to: nat)
    requires to <= |sp|
  {
    exists k :: from <= k < to && At(sp[k], level) == ch
  }

  // The other half ids' ranges are as they were.
  ghost predicate OthersKept(p: string, start0: seq<nat>, num0: seq<nat>, start: seq<nat>, num: seq<nat>)
    requires |start0| == |num0| == |start| == |num| == FULL_START
  {
    forall h: nat :: 0 < h < FULL_START && !(p < HalfStr(h)) ==> start[h] == start0[h] && num[h] == num0[h]
  }

  // Items from..to with `a` at most one before are those of the block of p that go on behind it.
  ghost predicate Longer(s: Source, p: string, a: nat, from: nat, to: nat)
    requires OkSource(s)
  {
    && Block(s.sp, a, to, p) && a <= from <= a + 1 && from < to && (from == a + 1 ==> s.sp[a] == p)
    && forall k :: from <= k < to ==> |s.sp[k]| > |p|
  }

  // Son k stands for its character, seen among the items up to c.
  ghost predicate SonIs(n: SNode, s: Source, p: string, from: nat, c: nat)
    requires OkSource(s) && c <= |s.sp|
  {
    Stands(n, s, p + [n.ch]) && SeenIn(s.sp, |p|, n.ch, from, c)
  }

  ghost predicate Among(sons: seq<SNode>, pos: nat, ch: char) {
    exists k: nat :: k < pos && k < |sons| && sons[k].ch == ch
  }

  // The first `pos` sons are done: those of the items up to c.
  ghost predicate SonsTo(sons: seq<SNode>, pos: nat, s: Source, p: string, from: nat, c: nat)
    requires OkSource(s) && c <= |s.sp|
  {
    && pos <= |sons|
    && (forall k: nat :: k < pos ==> SonIs(sons[k], s, p, from, c))
    && (forall i: nat, j: nat :: i < j < pos ==> sons[i].ch < sons[j].ch)
    && forall i: nat :: from <= i < c ==> Among(sons, pos, At(s.sp[i], |p|))
  }

  function Slot(ch: char): (c: nat)
    requires 'A' <= ch <= 'Z'
    ensures c < LETTERS && ch as int == 'A' as int + c
  {
    ch as int - 'A' as int
  }

  ghost predicate FirstIs(level1: seq<nat>, ch: char, v: nat)
    requires |level1| == LETTERS
  {
    'A' <= ch <= 'Z' && level1[Slot(ch)] == v
  }

  ghost predicate FirstAt(k: nat, sons: seq<SNode>, pos: nat, c: nat) {
    k > 0 ==> k <= pos <= |sons| && sons[k - 1].ch as int == 'A' as int + c
  }

  // level1_sons_ after the first `pos` sons of the root.
  ghost predicate FirstTo(level1: seq<nat>, sons: seq<SNode>, pos: nat) {
    && |level1| == LETTERS && pos <= |sons|
    && (forall k: nat :: k < pos ==> FirstIs(level1, sons[k].ch, k + 1))
    && forall c: nat :: c < LETTERS ==> FirstAt(level1[c], sons, pos, c)
  }

  // ---- Steps of the construction ----

  // A group of the block: its first item, its end, and the prefix its node stands for.
  ghost predicate Group(s: Source, p: string, a: nat, from: nat, to: nat, c: nat, i: nat)
    requires OkSource(s)
  {
    && Longer(s, p, a, from, to) && from <= c < i <= to
    && (forall k :: c <= k < i ==> At(s.sp[k], |p|) == At(s.sp[c], |p|))
    && (c > from ==> At(s.sp[c - 1], |p|) != At(s.sp[c], |p|)) && (i < to ==> At(s.sp[i], |p|) != At(s.sp[c], |p|))
  }

  lemma GroupBlock(s: Source, p: string, a: nat, from: nat, to: nat, c: nat, i: nat)
    requires OkSource(s) && Group(s, p, a, from, to, c, i)
    ensures |s.sp[c]| > |p| && At(s.sp[c], |p|) == s.sp[c][|p|] && Letter(s.sp[c][|p|])
    ensures Block(s.sp, c, i, p + [s.sp[c][|p|]]) && p <= s.sp[c]
    ensures i < to ==> At(s.sp[c], |p|) < At(s.sp[i], |p|)
    ensures c > from ==> At(s.sp[c - 1], |p|) < At(s.sp[c], |p|)
  {
    if c > a {
      Rises(s.sp, a, to, p, c - 1, c);
    }
    if i < to {
      Rises(s.sp, a, to, p, c, i);
    }
    if c == from == a + 1 {
      assert At(s.sp[a], |p|) == '\0';
      assert Letter(s.sp[c][|p|]);
    }
    SubBlock(s.sp, a, to, p, c, i);
    assert IsSpelling(s.sp[c]);
  }

  // Earlier groups' characters are smaller.
  lemma Earlier(s: Source, p: string, a: nat, from: nat, to: nat, c: nat, i: nat, k: nat)
    requires OkSource(s) && Group(s, p, a, from, to, c, i) && from <= k < c
    ensures At(s.sp[k], |p|) < At(s.sp[c], |p|)
  {
    GroupBlock(s, p, a, from, to, c, i);
    if k < c - 1 {
      Rises(s.sp, a, to, p, k, c - 1);
    }
  }

  // The items behind the first, if that one ends here, or all of them.
  lemma GroupLonger(s: Source, p: string, c: nat, i: nat)
    requires OkSource(s) && p != [] && c < i && Block(s.sp, c, i, p)
    requires At(s.sp[c], |p|) != '\0' || i - c > 1
    ensures var from := if At(s.sp[c], |p|) == '\0' then c + 1 else c;
            Longer(s, p, c, from, i)
  {
    assert p <= s.sp[c] && IsSpelling(s.sp[c]);
    EndsAt(s.sp[c], |p|);
    forall k | c < k < i
      ensures |s.sp[k]| > |p|
    {
      Rises(s.sp, c, i, p, c, k);
    }
  }

  lemma LeastIs(s: Source, p: string, c: nat, i: nat, m: nat)
    requires OkSource(s) && c <= i && Block(s.sp, c, i, p) && Least(m, s.scores, c, i)
    ensures LeastOf(m, s, p) && Has(s.sp, p)
  {
    var k :| c <= k < i && s.scores[k] == m;
    assert p <= s.sp[k];
  }

  lemma SonsDone(n: SNode, s: Source, p: string, a: nat, from: nat, to: nat)
    requires OkSource(s) && Longer(s, p, a, from, to) && SonsTo(n.sons, |n.sons|, s, p, from, to)
    ensures SonsFor(n, s, p)
  {
    hide Stands, OkSource;
    forall k | 0 <= k < |n.sons|
      ensures Stands(n.sons[k], s, p + [n.sons[k].ch])
    {
      assert SonIs(n.sons[k], s, p, from, to);
    }
    forall i | 0 <= i < |s.sp| && p <= s.sp[i] && |p| < |s.sp[i]|
      ensures exists k :: 0 <= k < |n.sons| && n.sons[k].ch == s.sp[i][|p|]
    {
      assert a <= i < to && i >= from;
      assert Among(n.sons, |n.sons|, At(s.sp[i], |p|));
    }
  }

  lemma NoSons(n: SNode, s: Source, p: string, c: nat)
    requires OkSource(s) && n.sons == [] && Block(s.sp, c, c + 1, p) && s.sp[c] == p
    ensures SonsFor(n, s, p)
  {}

  // A son stays as it is, and its character is smaller than a later group's.
  lemma SonStays(n: SNode, s: Source, p: string, a: nat, from: nat, to: nat, c: nat, i: nat)
    requires OkSource(s) && Group(s, p, a, from, to, c, i) && SonIs(n, s, p, from, c)
    ensures SonIs(n, s, p, from, i) && n.ch < At(s.sp[c], |p|)
  {
    var j :| from <= j < c && At(s.sp[j], |p|) == n.ch;
    Earlier(s, p, a, from, to, c, i, j);
    hide OkSource, Stands, Group;
  }

  lemma NewSon(n: SNode, s: Source, p: string, a: nat, from: nat, to: nat, c: nat, i: nat)
    requires OkSource(s) && Group(s, p, a, from, to, c, i) && n.ch == At(s.sp[c], |p|) && Stands(n, s, p + [n.ch])
    ensures SonIs(n, s, p, from, i)
  {
    hide OkSource, Stands;
  }

  // One more son.
  lemma MoreSons(sons: seq<SNode>, pos: nat, s: Source, p: string, a: nat, from: nat, to: nat, c: nat, i: nat, n: SNode)
    requires OkSource(s) && Group(s, p, a, from, to, c, i) && SonsTo(sons, pos, s, p, from, c) && pos < |sons|
    requires n.ch == At(s.sp[c], |p|) && Stands(n, s, p + [n.ch])
    ensures SonsTo(sons[pos := n], pos + 1, s, p, from, i)
    ensures forall k: nat :: k < pos ==> sons[k].ch < n.ch
  {
    hide *;
    var more := sons[pos := n];
    NewSon(n, s, p, a, from, to, c, i);
    GroupChars(s, p, a, from, to, c, i);
    SonsParts(sons, pos, s, p, from, c);
    forall k: nat | k < pos
      ensures sons[k].ch < n.ch && SonIs(sons[k], s, p, from, i)
    {
      SonStays(sons[k], s, p, a, from, to, c, i);
    }
    forall j: nat | from <= j < i
      ensures Among(more, pos + 1, At(s.sp[j], |p|))
    {
      AmongMore(sons, pos, n, At(s.sp[j], |p|));
    }
    SonsPut(sons, pos, s, p, from, i, n);
  }

  lemma SonsParts(sons: seq<SNode>, pos: nat, s: Source, p: string, from: nat, c: nat)
    requires OkSource(s) && c <= |s.sp| && SonsTo(sons, pos, s, p, from, c)
    ensures pos <= |sons| && (forall k: nat :: k < pos ==> SonIs(sons[k], s, p, from, c))
    ensures forall i: nat, j: nat :: i < j < pos ==> sons[i].ch < sons[j].ch
    ensures forall i: nat :: from <= i < c ==> Among(sons, pos, At(s.sp[i], |p|))
  {
    hide OkSource, SonIs, Among;
  }

  lemma SonsPut(sons: seq<SNode>, pos: nat, s: Source, p: string, from: nat, i: nat, n: SNode)
    requires OkSource(s) && i <= |s.sp| && pos < |sons|
    requires (forall k: nat :: k < pos ==> SonIs(sons[k], s, p, from, i) && sons[k].ch < n.ch)
    requires SonIs(n, s, p, from, i)
    requires forall i: nat, j: nat :: i < j < pos ==> sons[i].ch < sons[j].ch
    requires forall j: nat :: from <= j < i ==> Among(sons[pos := n], pos + 1, At(s.sp[j], |p|))
    ensures SonsTo(sons[pos := n], pos + 1, s, p, from, i)
  {
    hide OkSource, SonIs, Among;
  }

  lemma AmongMore(sons: seq<SNode>, pos: nat, n: SNode, ch: char)
    requires pos < |sons| && (Among(sons, pos, ch) || n.ch == ch)
    ensures Among(sons[pos := n], pos + 1, ch)
  {
    var more := sons[pos := n];
    if n.ch == ch {
      assert more[pos].ch == ch;
    } else {
      var k: nat :| k < pos && k < |sons| && sons[k].ch == ch;
      assert more[k].ch == ch;
    }
  }

  lemma GroupChars(s: Source, p: string, a: nat, from: nat, to: nat, c: nat, i: nat)
    requires OkSource(s) && Group(s, p, a, from, to, c, i)
    ensures i <= |s.sp| && from <= c < i && forall j: nat :: c <= j < i ==> At(s.sp[j], |p|) == At(s.sp[c], |p|)
  {}

  lemma MoreFirst(level1: seq<nat>, sons: seq<SNode>, pos: nat, n: SNode)
    requires FirstTo(level1, sons, pos) && pos < |sons| && 'A' <= n.ch <= 'Z'
    requires forall k: nat :: k < pos ==> sons[k].ch < n.ch
    ensures FirstTo(level1[Slot(n.ch) := pos + 1], sons[pos := n], pos + 1)
  {
    var more, first := sons[pos := n], level1[Slot(n.ch) := pos + 1];
    forall c: nat | c < LETTERS
      ensures FirstAt(first[c], more, pos + 1, c)
    {
      assert FirstAt(level1[c], sons, pos, c);
    }
    forall k: nat | k < pos + 1
      ensures FirstIs(first, more[k].ch, k + 1)
    {
      if k < pos {
        assert FirstIs(level1, sons[k].ch, k + 1) && sons[k].ch < n.ch;
      }
    }
  }

  // The ranges of the half ids in a group's part of the trie are right, the others are as they were.
  ghost predicate GroupRanges(s: Source, q: string, start0: seq<nat>, num0: seq<nat>, start: seq<nat>, num: seq<nat>)
    requires |start0| == |num0| == |start| == |num| == FULL_START
  {
    forall h: nat :: 0 < h < FULL_START ==>
      if q <= HalfStr(h) then RangeRight(s.sp, s.on, h, start[h], num[h])
        else start[h] == start0[h] && num[h] == num0[h]
  }

  lemma NextOf(p: string, t: string, ch: char)
    ensures p + [ch] <= t <==> p < t && t[|p|] == ch
  {
    var q := p + [ch];
    assert q[..|p|] == p;
    if p < t && t[|p|] == ch {
      assert t[..|q|] == t[..|p|] + [t[|p|]];
    }
    if q <= t {
      assert t[..|p|] == t[..|q|][..|p|];
    }
  }

  lemma MoreRanges(s: Source, p: string, a: nat, from: nat, to: nat, c: nat, i: nat,
                   start0: seq<nat>, num0: seq<nat>, start: seq<nat>, num: seq<nat>)
    requires OkSource(s) && Group(s, p, a, from, to, c, i) && |start0| == |num0| == |start| == |num| == FULL_START
    requires RangesTo(s, p, from, c, start0, num0)
    requires GroupRanges(s, p + [At(s.sp[c], |p|)], start0, num0, start, num)
    ensures RangesTo(s, p, from, i, start, num) && OthersKept(p, start0, num0, start, num)
  {
    hide OkSource, RangeRight;
    var ch := At(s.sp[c], |p|);
    forall h: nat | 0 < h < FULL_START
      ensures !(p < HalfStr(h)) ==> start[h] == start0[h] && num[h] == num0[h]
      ensures p < HalfStr(h) ==>
        if SeenIn(s.sp, |p|, HalfStr(h)[|p|], from, i) then RangeRight(s.sp, s.on, h, start[h], num[h])
        else start[h] == 0 && num[h] == 0
    {
      NextOf(p, HalfStr(h), ch);
      if p < HalfStr(h) && HalfStr(h)[|p|] != ch {
        var t := HalfStr(h)[|p|];
        assert SeenIn(s.sp, |p|, t, from, i) <==> SeenIn(s.sp, |p|, t, from, c) by {
          if SeenIn(s.sp, |p|, t, from, i) {
            var k :| from <= k < i && At(s.sp[k], |p|) == t;
            assert k < c;
          }
        }
      } else if p < HalfStr(h) {
        assert SeenIn(s.sp, |p|, ch, from, i);
      }
    }
  }

  // A longer prefix some spelling has shows in the block.
  lemma HasSeen(s: Source, p: string, a: nat, from: nat, to: nat, t: string, i: nat)
    requires OkSource(s) && Longer(s, p, a, from, to) && p < t && i < |s.sp| && t <= s.sp[i]
    ensures SeenIn(s.sp, |p|, t[|p|], from, to)
  {
    assert s.sp[i][..|p|] == s.sp[i][..|t|][..|p|] == t[..|p|];
    assert a <= i < to && At(s.sp[i], |p|) == s.sp[i][..|t|][|p|] == t[|p|];
    assert i >= from;
  }

  // What a whole block's ranges mean.
  lemma RangesDone(s: Source, p: string, a: nat, from: nat, to: nat, start: seq<nat>, num: seq<nat>, h: nat)
    requires OkSource(s) && Longer(s, p, a, from, to) && |start| == |num| == FULL_START
    requires RangesTo(s, p, from, to, start, num) && 0 < h < FULL_START && p < HalfStr(h)
    ensures RangeRight(s.sp, s.on, h, start[h], num[h])
  {
    hide OkSource, Longer, SeenIn, HalfStr, HalfOf, Block;
    if Has(s.sp, HalfStr(h)) {
      var i: nat :| i < |s.sp| && HalfStr(h) <= s.sp[i];
      HasSeen(s, p, a, from, to, HalfStr(h), i);
    }
  }

  // spelling_size_ has room for every spelling, its NUL and its score.
  ghost predicate Sized(sp: seq<string>, size: nat) { forall i :: 0 <= i < |sp| ==> |sp[i]| + 2 <= size }

  lemma LongerSize(s: Source, p: string, a: nat, from: nat, to: nat, size: nat)
    requires OkSource(s) && Longer(s, p, a, from, to) && Sized(s.sp, size)
    ensures |p| + 2 < size && to <= |s.sp| == |s.scores|
  {
    assert |s.sp[from]| > |p|;
  }

  // Whether the node of a group is that of a half id, as the two copies of the code decide it.
  lemma HalfIs(s: Source, p: string, a: nat, from: nat, to: nat, c: nat, i: nat)
    requires OkSource(s) && Group(s, p, a, from, to, c, i)
    ensures At(s.sp[c], |p|) == s.sp[c][|p|]
    ensures var ch := s.sp[c][|p|];
            var h := HalfOf(s.sp, p + [ch], s.on);
            && (|p| == 0 ==> 'A' <= ch <= 'Z' && h == if IsSzm(ch) && (i == to ==> s.on) then LetterId(ch) else 0)
            && (|p| == 1 && ch == 'h' ==> p[0] == At(s.sp[c], 0) && h == PartId(p[0]))
            && (|p| > 1 || (|p| == 1 && ch != 'h') ==> h == 0)
  {
    GroupBlock(s, p, a, from, to, c, i);
    var ch := s.sp[c][|p|];
    assert IsSpelling(s.sp[c]);
    if |p| == 0 {
      assert p == "" && p + [ch] == [ch];
      assert Format(s.sp[c])[0] == FormatAt(s.sp[c], 0);
      assert to == |s.sp| by {
        assert |s.sp| > 0 && p <= s.sp[|s.sp| - 1];
      }
      if i < to {
        GroupBlock(s, p, a, from, to, c, i);
        if i < to - 1 {
          Rises(s.sp, a, to, p, i, to - 1);
        }
      }
    } else if |p| == 1 {
      assert p[0] == s.sp[c][..|p|][0];
    }
  }

  // The items from c up to i share their next character, and c begins a group.
  ghost predicate Open(s: Source, p: string, from: nat, to: nat, c: nat, i: nat) {
    && from <= c < i <= to <= |s.sp| && (forall k :: c <= k < i ==> At(s.sp[k], |p|) == At(s.sp[c], |p|))
    && (c > from ==> At(s.sp[c - 1], |p|) != At(s.sp[c], |p|))
  }

  lemma OpenStart(s: Source, p: string, from: nat, to: nat)
    requires from < to <= |s.sp|
    ensures Open(s, p, from, to, from, from + 1)
  {}

  lemma OpenNext(s: Source, p: string, from: nat, to: nat, c: nat, i: nat)
    requires Open(s, p, from, to, c, i) && i < to
    ensures i < |s.sp| && c < |s.sp|
    ensures Open(s, p, from, to, if At(s.sp[i], |p|) != At(s.sp[c], |p|) then i else c, i + 1)
    ensures At(s.sp[i - 1], |p|) == At(s.sp[c], |p|)
  {}

  lemma OpenGroup(s: Source, p: string, a: nat, from: nat, to: nat, c: nat, i: nat)
    requires OkSource(s) && Longer(s, p, a, from, to) && Open(s, p, from, to, c, i)
    requires i < to ==> At(s.sp[i], |p|) != At(s.sp[c], |p|)
    ensures Group(s, p, a, from, to, c, i) && c < |s.sp|
  {
    hide OkSource, Longer;
  }

  // m is the least score so far, if one is below 255.
  ghost predicate LeastTo(m: nat, scores: seq<nat>, a: nat, c: nat)
    requires c <= |scores|
  {
    && m <= 0xff && (forall k :: a <= k < c ==> m <= scores[k])
    && (m == 0xff || exists k :: a <= k < c && scores[k] == m)
  }

  lemma LeastMore(m: nat, scores: seq<nat>, a: nat, c: nat, i: nat, n: nat)
    requires a <= c < i <= |scores| && LeastTo(m, scores, a, c) && Least(n, scores, c, i)
    ensures LeastTo(if n < m then n else m, scores, a, i)
  {
    if n < m {
      var k :| c <= k < i && scores[k] == n;
    } else if m != 0xff {
      var k :| a <= k < c && scores[k] == m;
    }
  }

  lemma LeastAll(m: nat, s: Source, a: nat, c: nat)
    requires OkSource(s) && a < c <= |s.scores| && LeastTo(m, s.scores, a, c)
    ensures Least(m, s.scores, a, c)
  {
    assert m <= s.scores[a] <= 0xff;
  }

  // The score of a node over that of its sons.
  lemma LeastOwn(m: nat, scores: seq<nat>, c: nat, i: nat)
    requires c + 1 < i <= |scores| && Least(m, scores, c + 1, i)
    ensures Least(if scores[c] < m then scores[c] else m, scores, c, i)
  {
    var k :| c + 1 <= k < i && scores[k] == m;
  }

  lemma KeptTwice(p: string, start0: seq<nat>, num0: seq<nat>, start1: seq<nat>, num1: seq<nat>, start: seq<nat>,
                  num: seq<nat>)
    requires |start0| == |num0| == |start1| == |num1| == |start| == |num| == FULL_START
    requires OthersKept(p, start0, num0, start1, num1) && OthersKept(p, start1, num1, start, num)
    ensures OthersKept(p, start0, num0, start, num)
  {}

  lemma NodeIdIs(s: Source, q: string, c: nat, i: nat, id: nat)
    requires OkSource(s) && q != [] && c < i && Block(s.sp, c, i, q)
    requires var h := HalfOf(s.sp, q, s.on);
             id == if h > 0 then h else if At(s.sp[c], |q|) == '\0' then FULL_START + c else 0
    ensures NodeId(s.sp, q, s.on, id)
  {
    assert q <= s.sp[c] && IsSpelling(s.sp[c]);
    EndsAt(s.sp[c], |q|);
    if q in s.sp {
      var k: nat :| k < |s.sp| && s.sp[k] == q;
      WholeFirst(s.sp, c, i, q, k);
    }
    assert |s.sp[c]| == |q| ==> s.sp[c] == q;
    hide HalfOf;
  }

  // The ranges of longer half ids are right.
  ghost predicate LongerRight(s: Source, q: string, start: seq<nat>, num: seq<nat>)
    requires |start| == |num| == FULL_START
  {
    forall h: nat :: 0 < h < FULL_START && q < HalfStr(h) ==> RangeRight(s.sp, s.on, h, start[h], num[h])
  }

  lemma LeafRight(s: Source, q: string, c: nat, start: seq<nat>, num: seq<nat>)
    requires |start| == |num| == FULL_START && c < |s.sp| && Block(s.sp, c, c + 1, q) && s.sp[c] == q
    requires forall h: nat :: 0 < h < FULL_START && q < HalfStr(h) ==> start[h] == 0 && num[h] == 0
    ensures LongerRight(s, q, start, num)
  {
    hide HalfOf, HalfStr;
    forall h: nat, i: nat | 0 < h < FULL_START && q < HalfStr(h) && i < |s.sp|
      ensures !(HalfStr(h) <= s.sp[i])
    {
      LeafOnly(s.sp, q, c, HalfStr(h), i);
    }
  }

  lemma LeafOnly(sp: seq<string>, q: string, c: nat, t: string, i: nat)
    requires c < |sp| && Block(sp, c, c + 1, q) && sp[c] == q && q < t && i < |sp|
    ensures !(t <= sp[i])
  {
    if |t| <= |sp[i]| {
      assert sp[i][..|t|][..|q|] == sp[i][..|q|];
    }
  }

  lemma NodeRanges(s: Source, q: string, c: nat, i: nat, half: nat,
                   start0: seq<nat>, num0: seq<nat>, start: seq<nat>, num: seq<nat>)
    requires |start0| == |num0| == |start| == |num| == FULL_START && c < i <= |s.sp| && Block(s.sp, c, i, q)
    requires forall h: nat :: 0 < h < FULL_START && q <= HalfStr(h) ==> start0[h] == 0 && num0[h] == 0
    requires OthersKept(q, start0, num0, start, num) && LongerRight(s, q, start, num) && half == HalfOf(s.sp, q, s.on)
    ensures half == 0 ==> GroupRanges(s, q, start0, num0, start, num)
    ensures half > 0 ==> GroupRanges(s, q, start0, num0, start[half := c + FULL_START], num[half := i - c])
  {
    assert Has(s.sp, q) by {
      assert q <= s.sp[c];
    }
    var st, nu := start, num;
    if half > 0 {
      st, nu := start[half := c + FULL_START], num[half := i - c];
    }
    forall h: nat | 0 < h < FULL_START
      ensures if q <= HalfStr(h) then RangeRight(s.sp, s.on, h, st[h], nu[h])
                else st[h] == start0[h] && nu[h] == num0[h]
    {
      if q == HalfStr(h) {
        SameHalf(h, half);
      }
      hide HalfOf, HalfStr, Block;
    }
  }

  lemma SameHalf(h: nat, half: nat)
    requires 0 < h < FULL_START && half < FULL_START
    ensures half > 0 && HalfStr(half) == HalfStr(h) ==> half == h
  {}

  lemma NoneKept(p: string, start: seq<nat>, num: seq<nat>)
    requires |start| == |num| == FULL_START
    ensures OthersKept(p, start, num, start, num)
  {}

  // The group's half ids are not set yet.
  lemma GroupFresh(s: Source, p: string, a: nat, from: nat, to: nat, c: nat, i: nat, start: seq<nat>, num: seq<nat>)
    requires OkSource(s) && Group(s, p, a, from, to, c, i) && |start| == |num| == FULL_START
    requires RangesTo(s, p, from, c, start, num)
    ensures forall h: nat :: 0 < h < FULL_START && p + [At(s.sp[c], |p|)] <= HalfStr(h) ==> start[h] == 0 && num[h] == 0
  {
    var ch := At(s.sp[c], |p|);
    assert !SeenIn(s.sp, |p|, ch, from, c) by {
      if SeenIn(s.sp, |p|, ch, from, c) {
        var k: nat :| from <= k < c && At(s.sp[k], |p|) == ch;
        Earlier(s, p, a, from, to, c, i, k);
      }
    }
    hide OkSource, Group, HalfStr, SeenIn;
    forall h: nat | 0 < h < FULL_START && p + [ch] <= HalfStr(h)
      ensures start[h] == 0 && num[h] == 0
    {
      NextOf(p, HalfStr(h), ch);
    }
  }

  lemma GroupParts(s: Source, p: string, a: nat, from: nat, to: nat, c: nat, i: nat)
    requires OkSource(s) && Group(s, p, a, from, to, c, i)
    ensures from <= c < i <= to <= |s.sp| == |s.scores| && |s.sp[c]| > |p| && Longer(s, p, a, from, to)
    ensures p == [] ==> 'A' <= At(s.sp[c], |p|) <= 'Z'
  {
    assert IsSpelling(s.sp[c]);
    assert p == [] ==> Format(s.sp[c])[0] == FormatAt(s.sp[c], 0);
  }

  lemma GroupSize(s: Source, p: string, a: nat, from: nat, to: nat, c: nat, i: nat, size: nat)
    requires OkSource(s) && Group(s, p, a, from, to, c, i) && Sized(s.sp, size)
    ensures |p| + 2 < size
  {
    LongerSize(s, p, a, from, to, size);
  }

  lemma LongerFrom(s: Source, p: string, a: nat, from: nat, to: nat)
    requires OkSource(s) && Longer(s, p, a, from, to)
    ensures from < to <= |s.sp| && |s.sp| == |s.scores|
  {}

  lemma ChangesStart(sp: seq<string>, a: nat, level: nat)
    requires a < |sp|
    ensures Changes(sp, a, a + 1, level) == 0
  {}

  lemma ChangesStep(sp: seq<string>, a: nat, b: nat, level: nat)
    requires a < b < |sp|
    ensures Changes(sp, a, b + 1, level) == Changes(sp, a, b, level) + if At(sp[b], level) != At(sp[b - 1], level) then
              1 else 0
  {}

  lemma AllRight(s: Source, q: string, a: nat, from: nat, to: nat, start: seq<nat>, num: seq<nat>)
    requires OkSource(s) && Longer(s, q, a, from, to) && |start| == |num| == FULL_START
    requires RangesTo(s, q, from, to, start, num)
    ensures LongerRight(s, q, start, num)
  {
    hide OkSource, Longer, RangesTo, RangeRight, HalfStr;
    forall h: nat | 0 < h < FULL_START && q < HalfStr(h)
      ensures RangeRight(s.sp, s.on, h, start[h], num[h])
    {
      RangesDone(s, q, a, from, to, start, num, h);
    }
  }

  lemma LeastOne(scores: seq<nat>, c: nat)
    requires c < |scores|
    ensures Least(scores[c], scores, c, c + 1)
  {}

  lemma LeafSons(n: SNode, s: Source, q: string, c: nat)
    requires OkSource(s) && n.sons == [] && q != [] && c < |s.sp| && Block(s.sp, c, c + 1, q)
    requires At(s.sp[c], |q|) == '\0'
    ensures SonsFor(n, s, q) && s.sp[c] == q
  {
    assert q <= s.sp[c] && IsSpelling(s.sp[c]);
    EndsAt(s.sp[c], |q|);
    NoSons(n, s, q, c);
  }

  // The sons' predicate looks at the sons only.
  lemma SonsAny(n: SNode, n': SNode, s: Source, p: string)
    requires OkSource(s) && SonsFor(n, s, p) && n.sons == n'.sons
    ensures SonsFor(n', s, p)
  {
    hide OkSource, Stands;
  }

  lemma AnySons(n: SNode, s: Source, q: string)
    requires OkSource(s) && SonsFor(n, s, q)
    ensures forall id: nat, ch: char :: SonsFor(SNode(id, n.sons, ch, n.score), s, q)
  {
    hide *;
    forall id: nat, ch: char
      ensures SonsFor(SNode(id, n.sons, ch, n.score), s, q)
    {
      SonsAny(n, SNode(id, n.sons, ch, n.score), s, q);
    }
  }

  lemma IsStands(n: SNode, s: Source, q: string)
    requires OkSource(s) && q != [] && Has(s.sp, q) && n.ch == q[|q| - 1] && NodeId(s.sp, q, s.on, n.id)
    requires LeastOf(n.score, s, q)
    requires SonsFor(n, s, q)
    ensures Stands(n, s, q)
  {
    hide OkSource, SonsFor;
  }

  // v is the last of the first n ranges that x lies in, if it lies in one.
  ghost predicate Last(start: seq<nat>, num: seq<nat>, n: nat, x: nat, v: nat)
    requires n <= |start| == |num|
  {
    forall h: nat :: h < n && Lies(start, num, x, h) ==> v < n && Lies(start, num, x, v) && h <= v
  }

  ghost predicate Lies(start: seq<nat>, num: seq<nat>, x: nat, h: nat)
    requires |start| == |num|
  {
    h < |start| && start[h] <= x < start[h] + num[h]
  }

  // Ranges of ids of the list's spellings.
  ghost predicate Inside(start: seq<nat>, num: seq<nat>, n: nat) {
    |start| == |num| && forall h :: 0 <= h < |start| && num[h] > 0 ==>
      FULL_START <= start[h] && start[h] + num[h] <= FULL_START + n
  }

  lemma RangesInside(s: Source, start: seq<nat>, num: seq<nat>)
    requires |start| == |num| == FULL_START && start[0] == num[0] == 0 && LongerRight(s, [], start, num)
    ensures Inside(start, num, |s.sp|)
  {
    forall h: nat | 0 < h < FULL_START && num[h] > 0
      ensures FULL_START <= start[h] && start[h] + num[h] <= FULL_START + |s.sp|
    {
      assert [] < HalfStr(h);
      assert RangeRight(s.sp, s.on, h, start[h], num[h]);
    }
  }

  lemma ZeroRight(s: Source, start: seq<nat>, num: seq<nat>)
    requires |start| == |num| == FULL_START && LongerRight(s, [], start, num)
    ensures LongerRight(s, [], start[0 := 0], num[0 := 0])
  {
    hide HalfStr, RangeRight;
  }

  // Whether the last letter is enabled.
  function LastIs(items: seq<string>, enabled: seq<bool>): bool
    requires |enabled| == LETTERS
  {
    var ch := if items == [] then 'A' else At(items[|items| - 1], 0);
    'A' <= ch <= 'Z' && enabled[Slot(ch)]
  }

  lemma WholeList(s: Source)
    requires OkSource(s) && s.sp != []
    ensures Longer(s, [], 0, 0, |s.sp|)
  {
    forall k | 0 <= k < |s.sp|
      ensures |s.sp[k]| > 0
    {
      assert IsSpelling(s.sp[k]);
    }
  }

  lemma LetterStr(ch: char)
    requires 'A' <= ch <= 'Z'
    ensures HalfStr(LetterId(ch)) == [ch]
  {}

  // Of the half ids x begins with, h is one with the longest string.
  ghost predicate MostSpecific(s: Source, x: string, h: nat) {
    forall g: nat :: 0 < g < FULL_START && HalfFor(s, x, g) ==>
      0 < h < FULL_START && HalfFor(s, x, h) && |HalfStr(g)| <= |HalfStr(h)|
  }

  ghost predicate HalfFor(s: Source, x: string, g: nat)
    requires 0 < g < FULL_START
  {
    HalfOf(s.sp, HalfStr(g), s.on) == g && HalfStr(g) <= x
  }

  // A full id lies in a half id's range if its spelling begins with the half id's string.
  lemma LiesIs(s: Source, start: seq<nat>, num: seq<nat>, f: nat, g: nat)
    requires OkSource(s) && |start| == |num| == FULL_START && LongerRight(s, [], start, num) && f < |s.sp|
    requires 0 < g < FULL_START
    ensures Lies(start, num, f + FULL_START, g) <==> HalfFor(s, s.sp[f], g)
  {
    assert [] < HalfStr(g);
    assert RangeRight(s.sp, s.on, g, start[g], num[g]);
    hide OkSource, HalfOf, HalfStr;
  }

  lemma IsSpecific(s: Source, start: seq<nat>, num: seq<nat>, f: nat, v: nat)
    requires OkSource(s) && |start| == |num| == FULL_START && start[0] == num[0] == 0 && LongerRight(s, [], start, num)
    requires f < |s.sp| && Last(start, num, FULL_START, f + FULL_START, v)
    ensures MostSpecific(s, s.sp[f], v)
  {
    forall g: nat | 0 < g < FULL_START && HalfFor(s, s.sp[f], g)
      ensures 0 < v < FULL_START && HalfFor(s, s.sp[f], v) && |HalfStr(g)| <= |HalfStr(v)|
    {
      LiesIs(s, start, num, f, g);
      assert v < FULL_START && Lies(start, num, f + FULL_START, v) && g <= v;
      assert v > 0;
      LiesIs(s, start, num, f, v);
      LaterLonger(s.sp[f], g, v);
    }
  }

  // Zh, Ch and Sh come behind their letters.
  lemma PartBehind(ch: char)
    requires 'A' <= ch <= 'Z'
    ensures PartId(ch) > 0 ==> PartId(ch) == LetterId(ch) + 1
  {}

  lemma LaterLonger(x: string, g: nat, v: nat)
    requires 0 < g <= v < FULL_START && HalfStr(g) <= x && HalfStr(v) <= x
    ensures |HalfStr(g)| <= |HalfStr(v)|
  {
    assert HalfStr(g)[0] == x[0] == HalfStr(v)[0];
    PartBehind(x[0]);
  }

  class SpellingTrie {
    var list: seq<string>
    var scores: seq<nat>
    var size: nat
    var root: SNode
    var level1: seq<nat>
    var h2fStart: seq<nat>
    var h2fNum: seq<nat>
    var f2h: seq<nat>
    var enabled: seq<bool>
    ghost var on: bool

    ghost function Src(): Source
      reads this`list, this`scores, this`on
    {
      Source(list, scores, on)
    }

    // The list is in order, and only letters a spelling may be given by are enabled for it.
    ghost predicate Ready()
      reads this
    {
      && OkSource(Src()) && Sized(list, size) && |level1| == LETTERS && |h2fStart| == |h2fNum| == FULL_START
      && |enabled| == LETTERS && (forall ch: char :: 'A' <= ch <= 'Z' && enabled[Slot(ch)] ==> IsSzm(ch))
      && (list != [] && 'A' <= At(list[|list| - 1], 0) <= 'Z' ==> (on <==> enabled[Slot(At(list[|list| - 1], 0))]))
    }

    // The scan for how many sons a node gets.
    method CountSons(start: nat, end: nat, level: nat) returns (num: nat)
      requires start < end <= |list|
      ensures num == Changes(list, start, end, level) + 1
    {
      num := 0;
      var ch := At(list[start], level);
      for i := start + 1 to end
        invariant num == Changes(list, start, i, level) && ch == At(list[i - 1], level)
      {
        if At(list[i], level) != ch {
          num := num + 1;
          ch := At(list[i], level);
        }
      }
      num := num + 1;
    }

    lemma ReadyFacts()
      requires Ready()
      ensures OkSource(Src()) && Sized(list, size) && |scores| == |list| && |level1| == LETTERS
      ensures |h2fStart| == |h2fNum| == FULL_START && |enabled| == LETTERS
      ensures Src().sp == list && Src().scores == scores && Src().on == on
    {
      hide OkList;
    }

    // Sons, ranges and the least score up to item c.
    ghost predicate Going(sons: seq<SNode>, pos: nat, min: nat, p: string, start: nat, c: nat, first0: seq<nat>)
      reads this
    {
      && OkSource(Src()) && start <= c <= |list| && |h2fStart| == |h2fNum| == FULL_START
      && SonsTo(sons, pos, Src(), p, start, c) && RangesTo(Src(), p, start, c, h2fStart, h2fNum)
      && LeastTo(min, scores, start, c)
      && if p == [] then FirstTo(level1, sons, pos) else level1 == first0
    }

    lemma GoingStart(sons: seq<SNode>, p: string, start: nat)
      requires Ready() && start <= |list|
      requires forall h: nat :: 0 < h < FULL_START && p < HalfStr(h) ==> h2fStart[h] == 0 && h2fNum[h] == 0
      requires p == [] ==> forall c :: 0 <= c < LETTERS ==> level1[c] == 0
      ensures Going(sons, 0, 0xff, p, start, start, level1)
    {
      hide OkList, HalfStr;
    }

    // construct_spellings_subset: the nodes for the items from start up to end, which share their first
    // `level` characters.
    method ConstructSubset(start: nat, end: nat, level: nat, ghost p: string, ghost a: nat)
      returns (sons: seq<SNode>, min: nat)
      requires Ready() && level == |p| && Longer(Src(), p, a, start, end)
      requires forall h: nat :: 0 < h < FULL_START && p < HalfStr(h) ==> h2fStart[h] == 0 && h2fNum[h] == 0
      requires p == [] ==> forall c :: 0 <= c < LETTERS ==> level1[c] == 0
      modifies this`h2fStart, this`h2fNum, this`level1
      ensures Ready() && end <= |list| == |scores| && SonsTo(sons, |sons|, Src(), p, start, end)
      ensures Least(min, scores, start, end)
      ensures RangesTo(Src(), p, start, end, h2fStart, h2fNum)
      ensures OthersKept(p, old(h2fStart), old(h2fNum), h2fStart, h2fNum)
      ensures if p == [] then FirstTo(level1, sons, |sons|) else level1 == old(level1)
      decreases size - level, 2
    {
      hide *;
      ReadyFacts();
      LongerSize(Src(), p, a, start, end, size);
      LongerFrom(Src(), p, a, start, end);
      var num := CountSons(start, end, level);
      sons, min := seq(num, _ => BLANK), 255;
      var pos, c := 0, start;
      ghost var s, start0, num0, first0 := Src(), h2fStart, h2fNum, level1;
      GoingStart(sons, p, start);
      OpenStart(s, p, start, end);
      NoneKept(p, start0, num0);
      ChangesStart(list, start, level);
      for i: nat := start + 1 to end
        invariant |h2fStart| == |h2fNum| == FULL_START && Ready() && Src() == s
        invariant pos == Changes(list, start, i, level) && |sons| == num
        invariant Open(s, p, start, end, c, i) && Going(sons, pos, min, p, start, c, first0)
        invariant OthersKept(p, start0, num0, h2fStart, h2fNum)
      {
        OpenNext(s, p, start, end, c, i);
        ChangesStep(list, start, i, level);
        ChangesGrow(list, start, i + 1, end, level);
        ReadyFacts();
        if At(list[i], level) != At(list[c], level) {
          ghost var st, nu := h2fStart, h2fNum;
          OpenGroup(s, p, a, start, end, c, i);
          sons, min := PutSon(sons, pos, min, c, i, level, false, p, a, start, end, first0);
          ReadyFacts();
          KeptTwice(p, start0, num0, st, nu, h2fStart, h2fNum);
          c := i;
          pos := pos + 1;
        }
      }
      ghost var st, nu := h2fStart, h2fNum;
      OpenGroup(s, p, a, start, end, c, end);
      ReadyFacts();
      sons, min := PutSon(sons, pos, min, c, end, level, true, p, a, start, end, first0);
      ReadyFacts();
      KeptTwice(p, start0, num0, st, nu, h2fStart, h2fNum);
      GoingEnd(sons, min, p, start, end, first0);
    }

    lemma GoingEnd(sons: seq<SNode>, min: nat, p: string, start: nat, end: nat, first0: seq<nat>)
      requires Going(sons, |sons|, min, p, start, end, first0) && start < end && |scores| == |list|
      ensures end <= |list| && |h2fStart| == |h2fNum| == FULL_START && OkSource(Src())
      ensures SonsTo(sons, |sons|, Src(), p, start, end)
      ensures Least(min, scores, start, end) && RangesTo(Src(), p, start, end, h2fStart, h2fNum)
      ensures if p == [] then FirstTo(level1, sons, |sons|) else level1 == first0
    {
      LeastAll(min, Src(), start, end);
      hide OkSource, SonsTo, LeastTo, Least, RangesTo, FirstTo;
    }

    // The node for the items from c up to i, among the sons.
    method PutSon(sons0: seq<SNode>, pos: nat, min0: nat, c: nat, i: nat, level: nat, last: bool,
                  ghost p: string, ghost a: nat, ghost start: nat, ghost end: nat, ghost first0: seq<nat>)
      returns (sons: seq<SNode>, min: nat)
      requires Ready() && level == |p| && Group(Src(), p, a, start, end, c, i) && last == (i == end) && pos < |sons0|
      requires Going(sons0, pos, min0, p, start, c, first0)
      modifies this`h2fStart, this`h2fNum, this`level1
      ensures Ready() && |sons| == |sons0| && Going(sons, pos + 1, min, p, start, i, first0)
      ensures |old(h2fStart)| == |old(h2fNum)| == |h2fStart| == |h2fNum| == FULL_START
      ensures OthersKept(p, old(h2fStart), old(h2fNum), h2fStart, h2fNum)
      decreases size - level, 1
    {
      hide *;
      ReadyFacts();
      ghost var s := Src();
      GoingParts(sons0, pos, min0, p, start, c, first0);
      GroupParts(s, p, a, start, end, c, i);
      GroupFresh(s, p, a, start, end, c, i, h2fStart, h2fNum);
      var node := MakeNode(c, i, level, last, p, a, start, end);
      sons := sons0[pos := node];
      MoreSons(sons0, pos, s, p, a, start, end, c, i, node);
      MoreRanges(s, p, a, start, end, c, i, old(h2fStart), old(h2fNum), h2fStart, h2fNum);
      LeastMore(min0, scores, start, c, i, node.score);
      min := if node.score < min0 then node.score else min0;
      if level == 0 {
        MoreFirst(level1, sons0, pos, node);
        SetFirst(node.ch, pos + 1);
      }
      IsGoing(sons, pos + 1, min, p, start, i, first0);
    }

    lemma GoingParts(sons: seq<SNode>, pos: nat, min: nat, p: string, start: nat, c: nat, first0: seq<nat>)
      requires Going(sons, pos, min, p, start, c, first0) && |scores| == |list|
      ensures OkSource(Src()) && start <= c <= |list| && |h2fStart| == |h2fNum| == FULL_START
      ensures SonsTo(sons, pos, Src(), p, start, c) && RangesTo(Src(), p, start, c, h2fStart, h2fNum)
      ensures LeastTo(min, scores, start, c)
      ensures if p == [] then FirstTo(level1, sons, pos) else level1 == first0
    {
      hide OkSource, SonsTo, LeastTo, RangesTo, FirstTo;
    }

    lemma IsGoing(sons: seq<SNode>, pos: nat, min: nat, p: string, start: nat, c: nat, first0: seq<nat>)
      requires OkSource(Src()) && start <= c <= |list| == |scores| && |h2fStart| == |h2fNum| == FULL_START
      requires SonsTo(sons, pos, Src(), p, start, c) && RangesTo(Src(), p, start, c, h2fStart, h2fNum)
      requires LeastTo(min, scores, start, c)
      requires if p == [] then FirstTo(level1, sons, pos) else level1 == first0
      ensures Going(sons, pos, min, p, start, c, first0)
    {
      hide OkSource, SonsTo, LeastTo, RangesTo, FirstTo;
    }

    method SetFirst(ch: char, v: nat)
      requires Ready() && 'A' <= ch <= 'Z'
      modifies this`level1
      ensures Ready() && |old(level1)| == LETTERS && level1 == old(level1)[Slot(ch) := v]
    {
      hide OkSource;
      level1 := level1[Slot(ch) := v];
    }

    method SetHalf(half: nat, start: nat, num: nat)
      requires Ready() && half < FULL_START
      modifies this`h2fStart, this`h2fNum
      ensures Ready() && |old(h2fStart)| == |old(h2fNum)| == FULL_START
      ensures h2fStart == old(h2fStart)[half := start] && h2fNum == old(h2fNum)[half := num]
    {
      hide OkSource;
      h2fNum := h2fNum[half := num];
      h2fStart := h2fStart[half := start];
    }

    // At the first level the last item of the list ends the last group.
    lemma LastOn(p: string, a: nat, start: nat, end: nat, c: nat)
      requires Ready() && Longer(Src(), p, a, start, end) && c < end <= |list|
      requires forall k :: c <= k < end ==> At(list[k], |p|) == At(list[c], |p|)
      ensures p == [] && 'A' <= At(list[c], 0) <= 'Z' ==>
                |enabled| == LETTERS && (on <==> enabled[Slot(At(list[c], 0))])
      ensures forall ch: char :: 'A' <= ch <= 'Z' && |enabled| == LETTERS && enabled[Slot(ch)] ==> IsSzm(ch)
    {
      if p == [] {
        assert [] <= list[|list| - 1];
        assert end == |list|;
      }
      hide OkSource;
    }

    // The half id of a group's node, or 0. The last group of the first level asks whether its letter is
    // enabled, the others only whether it may be a half id.
    method HalfFor(c: nat, i: nat, level: nat, last: bool, ghost p: string, ghost a: nat, ghost start: nat,
                   ghost end: nat)
      returns (half: nat)
      requires Ready() && level == |p| && Group(Src(), p, a, start, end, c, i) && last == (i == end) && c < |list|
      ensures half == HalfOf(list, p + [At(list[c], level)], on)
    {
      hide *;
      ReadyFacts();
      GroupParts(Src(), p, a, start, end, c, i);
      HalfIs(Src(), p, a, start, end, c, i);
      if last {
        GroupChars(Src(), p, a, start, end, c, i);
        LastOn(p, a, start, end, c);
      }
      var ch := At(list[c], level);
      half := 0;
      if level == 0 && (if last then enabled[Slot(ch)] else IsSzm(ch)) {
        half := LetterId(ch);
      } else if level == 1 && ch == 'h' {
        half := PartId(At(list[c], 0));
      }
    }

    // One node: its spelling's id unless it is a half id's, its sons, its score.
    method MakeNode(c: nat, i: nat, level: nat, last: bool, ghost p: string, ghost a: nat, ghost start: nat,
                    ghost end: nat)
      returns (node: SNode)
      requires Ready() && level == |p| && Group(Src(), p, a, start, end, c, i) && last == (i == end) && c < |list|
      requires forall h: nat :: 0 < h < FULL_START && p + [At(list[c], level)] <= HalfStr(h) ==>
                 h2fStart[h] == 0 && h2fNum[h] == 0
      modifies this`h2fStart, this`h2fNum, this`level1
      ensures Ready() && i <= |list| == |scores| && c < i && node.ch == At(list[c], level)
      ensures (level == 0 ==> 'A' <= node.ch <= 'Z')
      ensures Stands(node, Src(), p + [node.ch]) && Least(node.score, scores, c, i)
      ensures |old(h2fStart)| == |old(h2fNum)| == |h2fStart| == |h2fNum| == FULL_START && level1 == old(level1)
      ensures GroupRanges(Src(), p + [node.ch], old(h2fStart), old(h2fNum), h2fStart, h2fNum)
      decreases size - level, 0
    {
      hide *;
      ReadyFacts();
      ghost var s, start0, num0 := Src(), h2fStart, h2fNum;
      var ch := At(list[c], level);
      ghost var q := p + [ch];
      GroupParts(s, p, a, start, end, c, i);
      GroupSize(s, p, a, start, end, c, i, size);
      GroupBlock(s, p, a, start, end, c, i);
      var id := if At(list[c], level + 1) == '\0' then FULL_START + c else 0;
      var sons, score := MakeSons(c, i, level + 1, q);
      ReadyFacts();
      var half := HalfFor(c, i, level, last, p, a, start, end);
      NodeRanges(s, q, c, i, half, start0, num0, h2fStart, h2fNum);
      if half > 0 {
        id := half;
        SetHalf(half, c + FULL_START, i - c);
      }
      node := SNode(id, sons, ch, score);
      NodeIdIs(s, q, c, i, id);
      LeastIs(s, q, c, i, score);
      IsStands(node, s, q);
    }

    // The sons and the score of the node of a prefix, for its items from c up to i.
    method MakeSons(c: nat, i: nat, level: nat, ghost q: string) returns (sons: seq<SNode>, score: nat)
      requires Ready() && level == |q| > 0 && c < i <= |list| && Block(list, c, i, q) && level < size
      requires forall h: nat :: 0 < h < FULL_START && q <= HalfStr(h) ==> h2fStart[h] == 0 && h2fNum[h] == 0
      modifies this`h2fStart, this`h2fNum, this`level1
      ensures Ready() && |list| == |scores| && Least(score, scores, c, i) && level1 == old(level1)
      ensures forall id: nat, ch: char :: SonsFor(SNode(id, sons, ch, score), Src(), q)
      ensures |old(h2fStart)| == |old(h2fNum)| == |h2fStart| == |h2fNum| == FULL_START
      ensures OthersKept(q, old(h2fStart), old(h2fNum), h2fStart, h2fNum) && LongerRight(Src(), q, h2fStart, h2fNum)
      decreases size - level, 3
    {
      hide *;
      ReadyFacts();
      ghost var s := Src();
      var ends := At(list[c], level) == '\0';
      sons, score := [], scores[c];
      if !ends || i - c > 1 {
        var next := if ends then c + 1 else c;
        GroupLonger(s, q, c, i);
        sons, score := ConstructSubset(next, i, level, q, c);
        if ends {
          LeastOwn(score, scores, c, i);
          score := if scores[c] < score then scores[c] else score;
        }
        ReadyFacts();
        AllRight(s, q, c, next, i, h2fStart, h2fNum);
        SonsDone(SNode(0, sons, ' ', score), s, q, c, next, i);
      } else {
        LeafSons(SNode(0, sons, ' ', score), s, q, c);
        LeafRight(s, q, c, h2fStart, h2fNum);
        NoneKept(q, h2fStart, h2fNum);
        LeastOne(scores, c);
      }
      AnySons(SNode(0, sons, ' ', score), s, q);
    }

    // The trie of the list, with all that hangs on it.
    ghost predicate Built()
      reads this
    {
      && OkSource(Src()) && SonsFor(root, Src(), []) && root.id == 0 && FirstTo(level1, root.sons, |root.sons|)
      && |h2fStart| == |h2fNum| == FULL_START && h2fStart[0] == h2fNum[0] == 0
      && LongerRight(Src(), [], h2fStart, h2fNum)
      && |f2h| == |list| && |enabled| == LETTERS
      && (forall ch: char :: 'A' <= ch <= 'Z' && enabled[Slot(ch)] ==> IsSzm(ch))
      && forall f: nat :: f < |list| ==> Last(h2fStart, h2fNum, FULL_START, f + FULL_START, f2h[f])
    }

    // No trie yet, all letters but I, U and V enabled.
    constructor ()
      ensures |enabled| == LETTERS && forall ch: char :: 'A' <= ch <= 'Z' ==> (enabled[Slot(ch)] <==> IsSzm(ch))
    {
      list, scores, size, root, on := [], [], 0, BLANK, false;
      level1, h2fStart, h2fNum, f2h := [], [], [], [];
      enabled := seq(LETTERS, c => false);
      new;
      SzmEnableShm(true);
      SzmEnableYm(true);
    }

    // szm_enable_shm
    method SzmEnableShm(enable: bool)
      requires |enabled| == LETTERS
      modifies this`enabled
      ensures |enabled| == LETTERS
      ensures forall ch: char :: 'A' <= ch <= 'Z' ==>
                enabled[Slot(ch)] == if IsSzm(ch) && !IsYunmuChar(ch) then enable else old(enabled)[Slot(ch)]
    {
      for c := 0 to LETTERS
        invariant |enabled| == LETTERS
        invariant forall ch: char :: 'A' <= ch <= 'Z' ==>
                    enabled[Slot(ch)] == if Slot(ch) < c && IsSzm(ch) && !IsYunmuChar(ch) then enable
                      else old(enabled)[Slot(ch)]
      {
        var ch := ('A' as int + c) as char;
        if IsSzm(ch) && !IsYunmuChar(ch) {
          enabled := enabled[c := enable];
        }
      }
    }

    // szm_enable_ym
    method SzmEnableYm(enable: bool)
      requires |enabled| == LETTERS
      modifies this`enabled
      ensures |enabled| == LETTERS
      ensures forall ch: char :: 'A' <= ch <= 'Z' ==>
                enabled[Slot(ch)] == if IsYunmuChar(ch) then enable else old(enabled)[Slot(ch)]
    {
      for c := 0 to LETTERS
        invariant |enabled| == LETTERS
        invariant forall ch: char :: 'A' <= ch <= 'Z' ==>
                    enabled[Slot(ch)] == if Slot(ch) < c && IsYunmuChar(ch) then enable else old(enabled)[Slot(ch)]
      {
        var ch := ('A' as int + c) as char;
        if IsYunmuChar(ch) {
          enabled := enabled[c := enable];
        }
      }
    }

    // construct, of a list already sorted.
    method Construct(items: seq<string>, scores: seq<nat>, size: nat) returns (ok: bool)
      requires OkList(items) && |scores| == |items| && Sized(items, size) && FULL_START + |items| <= ID_SPACE
      requires (forall i :: 0 <= i < |scores| ==> scores[i] <= 0xff) && |enabled| == LETTERS
      requires forall ch: char :: 'A' <= ch <= 'Z' && enabled[Slot(ch)] ==> IsSzm(ch)
      modifies this
      ensures ok == (items != []) && list == items && this.scores == scores && enabled == old(enabled)
      ensures ok ==> Built() && on == LastIs(items, enabled)
    {
      hide *;
      Reset(items, scores, size);
      if items == [] {
        return false;
      }
      Begun();
      ReadyFacts();
      WholeList(Src());
      var sons, min := ConstructSubset(0, |items|, 0, [], 0);
      ReadyFacts();
      root := SNode(0, sons, '\0', 0);
      SonsDone(root, Src(), [], 0, 0, |items|);
      AllRight(Src(), [], 0, 0, |items|, h2fStart, h2fNum);
      ZeroRight(Src(), h2fStart, h2fNum);
      ClearHalf();
      RangesInside(Src(), h2fStart, h2fNum);
      BuildF2h();
      ok := true;
      IsBuilt();
    }

    method Reset(items: seq<string>, scores: seq<nat>, size: nat)
      requires |enabled| == LETTERS
      modifies this
      ensures list == items && this.scores == scores && this.size == size && enabled == old(enabled)
      ensures on == LastIs(items, enabled)
      ensures |level1| == LETTERS && |h2fStart| == |h2fNum| == FULL_START
      ensures forall c :: 0 <= c < LETTERS ==> level1[c] == 0
      ensures forall h :: 0 <= h < FULL_START ==> h2fStart[h] == h2fNum[h] == 0
    {
      list, this.scores, this.size, root := items, scores, size, BLANK;
      on := LastIs(items, enabled);
      h2fStart, h2fNum, level1 := seq(FULL_START, _ => 0), seq(FULL_START, _ => 0), seq(LETTERS, _ => 0);
    }

    method ClearHalf()
      requires |h2fStart| == |h2fNum| == FULL_START
      modifies this`h2fStart, this`h2fNum
      ensures h2fStart == old(h2fStart)[0 := 0] && h2fNum == old(h2fNum)[0 := 0]
      ensures |h2fStart| == |h2fNum| == FULL_START && h2fStart[0] == h2fNum[0] == 0
    {
      h2fStart, h2fNum := h2fStart[0 := 0], h2fNum[0 := 0];
    }

    lemma Begun()
      requires OkList(list) && |scores| == |list| && Sized(list, size)
      requires (forall i :: 0 <= i < |scores| ==> scores[i] <= 0xff)
      requires |enabled| == LETTERS && forall ch: char :: 'A' <= ch <= 'Z' && enabled[Slot(ch)] ==> IsSzm(ch)
      requires on == LastIs(list, enabled) && |level1| == LETTERS && |h2fStart| == |h2fNum| == FULL_START
      ensures Ready() && Src().sp == list && OkSource(Src())
    {
      hide OkList;
    }

    lemma IsBuilt()
      requires OkSource(Src()) && SonsFor(root, Src(), []) && root.id == 0 && FirstTo(level1, root.sons, |root.sons|)
      requires |h2fStart| == |h2fNum| == FULL_START && h2fStart[0] == h2fNum[0] == 0
      requires LongerRight(Src(), [], h2fStart, h2fNum)
      requires |f2h| == |list| && |enabled| == LETTERS
      requires forall ch: char :: 'A' <= ch <= 'Z' && enabled[Slot(ch)] ==> IsSzm(ch)
      requires forall f: nat :: f < |list| ==> Last(h2fStart, h2fNum, FULL_START, f + FULL_START, f2h[f])
      ensures Built()
    {
      hide OkSource, SonsFor, FirstTo, LongerRight, Last;
    }

    // build_f2h
    method BuildF2h()
      requires |h2fStart| == |h2fNum| == FULL_START && Inside(h2fStart, h2fNum, |list|)
      modifies this`f2h
      ensures |f2h| == |list|
      ensures forall f: nat :: f < |list| ==> Last(h2fStart, h2fNum, FULL_START, f + FULL_START, f2h[f])
    {
      f2h := seq(|list|, _ => 0);
      for hid: nat := 0 to FULL_START
        invariant |f2h| == |list| && forall f: nat :: f < |list| ==> Last(h2fStart, h2fNum, hid, f + FULL_START, f2h[f])
      {
        ghost var f0 := f2h;
        for fid: nat := h2fStart[hid] to h2fStart[hid] + h2fNum[hid]
          invariant |f2h| == |list|
          invariant forall f: nat :: f < |list| ==>
                      f2h[f] == if h2fStart[hid] <= f + FULL_START < fid then hid else f0[f]
        {
          f2h := f2h[fid - FULL_START := hid];
        }
        forall f: nat | f < |list|
          ensures Last(h2fStart, h2fNum, hid + 1, f + FULL_START, f2h[f])
        {
          assert Last(h2fStart, h2fNum, hid, f + FULL_START, f0[f]);
        }
      }
    }

    lemma BuiltParts()
      requires Built()
      ensures OkSource(Src()) && |h2fStart| == |h2fNum| == FULL_START && h2fStart[0] == h2fNum[0] == 0
      ensures LongerRight(Src(), [], h2fStart, h2fNum) && |f2h| == |list|
      ensures forall f: nat :: f < |list| ==> Last(h2fStart, h2fNum, FULL_START, f + FULL_START, f2h[f])
    {
      hide OkSource, SonsFor, FirstTo, LongerRight, Last;
    }

    // full_to_half, and whether it stays within its table: the test lets the id behind the last one through.
    method FullToHalf(id: nat) returns (half: nat, within: bool)
      requires Built()
      ensures within <==> id != FULL_START + |list|
      ensures FULL_START <= id < FULL_START + |list| ==> MostSpecific(Src(), list[id - FULL_START], half)
      ensures within && !(FULL_START <= id < FULL_START + |list|) ==> half == 0
    {
      hide OkSource, SonsFor, FirstTo, LongerRight, Last, MostSpecific;
      BuiltParts();
      if id < FULL_START || id > |list| + FULL_START {
        return 0, true;
      }
      if id - FULL_START >= |f2h| {
        return 0, false;
      }
      half, within := f2h[id - FULL_START], true;
      IsSpecific(Src(), h2fStart, h2fNum, id - FULL_START, half);
    }

    // half_to_full
    method HalfToFull(half: nat) returns (start: nat, num: nat)
      requires Built()
      ensures 0 < half < FULL_START ==> RangeRight(list, on, half, start, num)
      ensures half == 0 || half >= FULL_START ==> num == 0
    {
      BuiltParts();
      start, num := 0, 0;
      if half >= FULL_START {
        return;
      }
      start, num := h2fStart[half], h2fNum[half];
      assert half > 0 ==> [] < HalfStr(half);
      hide OkSource, RangeRight;
    }

    // The last first letter of the list has its full ids as a half id exactly if it was enabled when the
    // trie was built; the other letters have them anyway.
    lemma LastLetterLost(ch: char)
      requires Built() && IsSzm(ch) && Has(list, [ch])
      ensures |h2fNum| == FULL_START && (h2fNum[LetterId(ch)] > 0 <==> on || ch != At(list[|list| - 1], 0))
    {
      BuiltParts();
      var h := LetterId(ch);
      LetterStr(ch);
      assert [] < HalfStr(h);
      assert RangeRight(list, on, h, h2fStart[h], h2fNum[h]);
      hide OkSource, LongerRight, Last, Built;
    }
  }
}
