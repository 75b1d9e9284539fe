// Spelling strings: their form and order, the strings of half ids, and what a prefix stands for.

module Spellings {
  import opened SpellingIds

  predicate Letter(ch: char) { 'a' <= ch <= 'z' || 'A' <= ch <= 'Z' }

  predicate Letters(s: string) { forall i :: 0 <= i < |s| ==> Letter(s[i]) }

  function Upper(ch: char): (u: char)
    ensures Letter(ch) ==> 'A' <= u <= 'Z'
  {
    if 'a' <= ch <= 'z' then (ch as int - 'a' as int + 'A' as int) as char else ch
  }

  function FormatAt(s: string, k: nat): char
    requires k < |s|
  {
    var u := Upper(s[k]);
    if k == 1 && u == 'H' && Upper(s[0]) in {'C', 'S', 'Z'} then 'h' else u
  }

  // Capitals, but for the h of Zh, Ch and Sh.
  function Format(s: string): (t: string)
    ensures |t| == |s| && forall k: nat :: k < |s| ==> t[k] == FormatAt(s, k)
  {
    seq(|s|, k requires 0 <= k < |s| => FormatAt(s, k))
  }

  predicate IsSpelling(s: string) { s != [] && Letters(s) && Format(s) == s }

  // strcmp(a, b) < 0
  predicate Before(a: string, b: string) {
    b != [] && (a == [] || a[0] < b[0] || (a[0] == b[0] && Before(a[1..], b[1..])))
  }

  // A sorted list of spellings, no two alike.
  ghost predicate OkList(sp: seq<string>) {
    && (forall i :: 0 <= i < |sp| ==> IsSpelling(sp[i]))
    && forall i, j :: 0 <= i < j < |sp| ==> Before(sp[i], sp[j])
  }

  // The character at a place, NUL behind the end.
  function At(s: string, k: nat): char { if k < |s| then s[k] else '\0' }

  lemma EndsAt(s: string, n: nat)
    requires Letters(s)
    ensures At(s, n) == '\0' <==> n >= |s|
  {
    if n < |s| {
      assert Letter(s[n]);
    }
  }

  // The spellings that begin with p are those from a up to b.
  ghost predicate Block(sp: seq<string>, a: nat, b: nat, p: string) {
    a <= b <= |sp| && forall i :: 0 <= i < |sp| ==> (p <= sp[i] <==> a <= i < b)
  }

  ghost predicate Has(sp: seq<string>, p: string) { exists i :: 0 <= i < |sp| && p <= sp[i] }

  lemma {:induction false} BeforeTails(a: string, b: string, n: nat)
    requires n <= |a| && n <= |b| && a[..n] == b[..n]
    ensures Before(a, b) <==> Before(a[n..], b[n..])
  {
    if n > 0 {
      assert a[0] == a[..n][0] == b[..n][0] == b[0];
      assert a[1..][..n - 1] == a[..n][1..] && b[1..][..n - 1] == b[..n][1..];
      BeforeTails(a[1..], b[1..], n - 1);
      assert a[1..][n - 1..] == a[n..] && b[1..][n - 1..] == b[n..];
    } else {
      assert a[0..] == a && b[0..] == b;
    }
  }

  // In a block the next characters rise, and only the first spelling may end.
  lemma Rises(sp: seq<string>, a: nat, b: nat, p: string, i: nat, j: nat)
    requires OkList(sp) && Block(sp, a, b, p) && a <= i < j < b
    ensures |sp[j]| > |p| && p <= sp[i] && p <= sp[j]
    ensures At(sp[i], |p|) <= At(sp[j], |p|)
  {
    assert p <= sp[i] && p <= sp[j];
    BeforeTails(sp[i], sp[j], |p|);
  }

  // The spellings of a block with one next character are a block.
  lemma SubBlock(sp: seq<string>, a: nat, b: nat, p: string, c: nat, d: nat)
    requires OkList(sp) && Block(sp, a, b, p) && a <= c < d <= b && |sp[c]| > |p|
    requires forall k :: c <= k < d ==> At(sp[k], |p|) == At(sp[c], |p|)
    requires c > a ==> At(sp[c - 1], |p|) != At(sp[c], |p|)
    requires d < b ==> At(sp[d], |p|) != At(sp[c], |p|)
    ensures Block(sp, c, d, p + [sp[c][|p|]])
  {
    var q := p + [sp[c][|p|]];
    forall i | 0 <= i < |sp|
      ensures q <= sp[i] <==> c <= i < d
    {
      NextIs(sp, p, c, i);
      if a <= i < c {
        if i < c - 1 {
          Rises(sp, a, b, p, i, c - 1);
        }
        Rises(sp, a, b, p, c - 1, c);
      } else if d <= i < b {
        if d < i {
          Rises(sp, a, b, p, d, i);
        }
        Rises(sp, a, b, p, c, d);
      } else if c < i < d {
        Rises(sp, a, b, p, c, i);
      }
    }
  }

  lemma NextIs(sp: seq<string>, p: string, c: nat, i: nat)
    requires c < |sp| && i < |sp| && |sp[c]| > |p|
    ensures p + [sp[c][|p|]] <= sp[i] <==> p <= sp[i] && |sp[i]| > |p| && sp[i][|p|] == sp[c][|p|]
  {
    var q := p + [sp[c][|p|]];
    assert q[..|p|] == p;
    if p <= sp[i] && |sp[i]| > |p| && sp[i][|p|] == sp[c][|p|] {
      assert sp[i][..|q|] == sp[i][..|p|] + [sp[i][|p|]] == q;
    }
    if q <= sp[i] {
      assert sp[i][..|p|] == sp[i][..|q|][..|p|];
    }
  }

  // A prefix a spelling is equal to begins its block.
  lemma WholeFirst(sp: seq<string>, a: nat, b: nat, p: string, i: nat)
    requires OkList(sp) && Block(sp, a, b, p) && a <= i < b && |sp[i]| == |p|
    ensures i == a && sp[i] == p
  {
    if i > a {
      Rises(sp, a, b, p, a, i);
    }
    assert p <= sp[i];
  }

  // ---- Half ids ----

  // A letter a spelling may be given by: all but I, U and V.
  predicate IsSzm(ch: char) { 'A' <= ch <= 'Z' && ch != 'I' && ch != 'U' && ch != 'V' }

  // Where a letter is among the half ids.
  function LetterId(ch: char): (id: nat)
    requires 'A' <= ch <= 'Z'
    ensures 0 < id < FULL_START && HALF_CHARS[id] == ch
  {
    ch as int - 'A' as int + 1 + (if ch > 'C' then 1 else 0) + (if ch > 'S' then 1 else 0)
  }

  // The id of Ch, Sh or Zh, or 0.
  function PartId(ch: char): (id: nat)
    ensures id < FULL_START
  {
    if ch == 'C' then 4 else if ch == 'S' then 21 else if ch == 'Z' then 29 else 0
  }

  function HalfStr(h: nat): (p: string)
    requires 0 < h < FULL_START
    ensures 1 <= |p| <= 2 && 'A' <= p[0] <= 'Z' && (|p| == 2 ==> p[1] == 'h' && h == PartId(p[0]))
    ensures |p| == 1 ==> h == LetterId(p[0])
  {
    var ch := HALF_CHARS[h];
    if ch > 'Z' then [Upper(ch), 'h'] else [ch]
  }

  // The half id a prefix has in the trie, or 0. With `on` false the last letter of the list has none.
  function HalfOf(sp: seq<string>, p: string, on: bool): (h: nat)
    ensures h < FULL_START && (h > 0 ==> HalfStr(h) == p)
  {
    if |p| == 1 && IsSzm(p[0]) && (on || sp == [] || p[0] != At(sp[|sp| - 1], 0)) then LetterId(p[0])
    else if |p| == 2 && p[1] == 'h' && PartId(p[0]) > 0 then PartId(p[0])
    else 0
  }

  // The id of a node: a half id goes before the id of a spelling.
  ghost predicate NodeId(sp: seq<string>, p: string, on: bool, id: nat) {
    var h := HalfOf(sp, p, on);
    if h > 0 then id == h
    else if p in sp then FULL_START <= id < FULL_START + |sp| && sp[id - FULL_START] == p
    else id == 0
  }

  // The full ids of a half id: those of the spellings that begin with its string.
  ghost predicate RangeRight(sp: seq<string>, on: bool, h: nat, start: nat, num: nat)
    requires 0 < h < FULL_START
  {
    var p := HalfStr(h);
    if Has(sp, p) && HalfOf(sp, p, on) == h then
      num > 0 && start >= FULL_START && Block(sp, start - FULL_START, start - FULL_START + num, p)
    else start == 0 && num == 0
  }
}
