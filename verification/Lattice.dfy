// The rows of the decoding lattice: how candidate edges enter a row of at most
// five nodes kept sorted in a shared pool (MatrixSearch::extend_mtrx_nd), and why
// the row's first node is optimal despite the cuts.

module Lattice {
  const MAX_NODE_A_ROW := 5
  const PRUNING_SCORE := 8000
  const MTRX_ND_POOL_SIZE := 200

  // A lemma offered by a dictionary; a smaller psb is a better score.
  datatype Lpi = Lpi(id: nat, psb: nat)

  // from is the pool index of the node before (0 in the root), dmiFr the match node of
  // the word (-1 in the root), step the row.
  datatype Node = Node(id: nat, score: nat, from: nat, dmiFr: int, step: nat)

  // ---- One node into a row ----

  // Where a score goes: behind all scores not above it, searching from place p down.
  function Place(row: seq<Node>, score: nat, p: nat): (r: nat)
    requires p <= |row|
    ensures r <= p
  {
    if p > 0 && score < row[p - 1].score then Place(row, score, p - 1) else p
  }

  function Cut(row: seq<Node>): (r: seq<Node>)
    ensures |r| <= MAX_NODE_A_ROW
  {
    if |row| > MAX_NODE_A_ROW then row[..MAX_NODE_A_ROW] else row
  }

  function InsertNode(row: seq<Node>, n: Node): (r: seq<Node>)
    ensures |r| <= MAX_NODE_A_ROW
  {
    var p := Place(row, n.score, |row|);
    Cut(row[..p] + [n] + row[p..])
  }

  ghost predicate Sorted(row: seq<Node>) {
    forall i, j :: 0 <= i <= j < |row| ==> row[i].score <= row[j].score
  }

  lemma {:induction false} PlaceSplits(row: seq<Node>, score: nat, p: nat)
    requires Sorted(row) && p <= |row| && forall i :: p <= i < |row| ==> score < row[i].score
    ensures var q := Place(row, score, p);
            (forall i :: 0 <= i < q ==> row[i].score <= score) && (forall i :: q <= i < |row| ==> score < row[i].score)
  {
    if p > 0 && score < row[p - 1].score {
      PlaceSplits(row, score, p - 1);
    }
  }

  // An element of the row after an insertion, before it is cut.
  lemma InsertAt(row: seq<Node>, n: Node, i: nat)
    requires i < |InsertNode(row, n)|
    ensures var p := Place(row, n.score, |row|);
            && i <= |row| && (i > p ==> i >= 1)
            && InsertNode(row, n)[i] == if i < p then row[i] else if i == p then n else row[i - 1]
  {}

  lemma InsertSorted(row: seq<Node>, n: Node)
    requires Sorted(row)
    ensures Sorted(InsertNode(row, n)) && InsertNode(row, n) != []
    ensures InsertNode(row, n)[0].score == if row != [] && row[0].score <= n.score then row[0].score else n.score
    ensures forall x :: x in InsertNode(row, n) ==> x == n || x in row
  {
    var r, p := InsertNode(row, n), Place(row, n.score, |row|);
    assert r != [];
    PlaceSplits(row, n.score, |row|);
    InsertAt(row, n, 0);
    hide InsertNode, Place;
    forall i, j | 0 <= i <= j < |r|
      ensures r[i].score <= r[j].score
    {
      InsertAt(row, n, i);
      InsertAt(row, n, j);
    }
    forall x | x in r
      ensures x == n || x in row
    {
      var i :| 0 <= i < |r| && r[i] == x;
      InsertAt(row, n, i);
    }
  }

  // ---- All lemmas of one source node ----

  ghost predicate SortedLpis(items: seq<Lpi>) {
    forall i, j :: 0 <= i <= j < |items| ==> items[i].psb <= items[j].psb
  }

  function NodeFor(from: nat, base: nat, item: Lpi, dmiFr: nat, step: nat): Node {
    Node(item.id, base + item.psb, from, dmiFr, step)
  }

  // From source step 0 only the first items can matter.
  function Limit(items: seq<Lpi>, srcStep: nat): (l: nat)
    ensures l <= |items| && (|items| > 0 ==> l > 0)
  {
    if srcStep == 0 && |items| > MAX_NODE_A_ROW then MAX_NODE_A_ROW else |items|
  }

  // What is left to do from item pos on.
  function ExtendFrom(row: seq<Node>, from: nat, src: Node, items: seq<Lpi>, dmiFr: nat, step: nat,
                      pos: nat): (r: seq<Node>)
    ensures |row| <= MAX_NODE_A_ROW ==> |r| <= MAX_NODE_A_ROW
    decreases |items| - pos
  {
    if pos >= Limit(items, src.step) then row
    else if pos > 0 && row != [] && src.score + items[pos].psb - PRUNING_SCORE > row[0].score then row
    else ExtendFrom(InsertNode(row, NodeFor(from, src.score, items[pos], dmiFr, step)), from, src, items, dmiFr, step,
      pos + 1)
  }

  ghost predicate From(x: Node, from: nat, src: Node, items: seq<Lpi>, dmiFr: nat, step: nat) {
    exists k :: 0 <= k < |items| && x == NodeFor(from, src.score, items[k], dmiFr, step)
  }

  function Least(row: seq<Node>, score: nat): nat {
    if row != [] && row[0].score <= score then row[0].score else score
  }

  lemma {:induction false} ExtendFromKeeps(row: seq<Node>, from: nat, src: Node, items: seq<Lpi>, dmiFr: nat,
                                           step: nat, pos: nat)
    requires Sorted(row) && SortedLpis(items) && pos > 0
    requires row != [] && |items| > 0 && row[0].score <= src.score + items[0].psb
    ensures var r := ExtendFrom(row, from, src, items, dmiFr, step, pos);
            && Sorted(r) && r != [] && r[0].score == row[0].score
            && forall x :: x in r ==> x in row || From(x, from, src, items, dmiFr, step)
    decreases |items| - pos
  {
    if pos < Limit(items, src.step) && !(src.score + items[pos].psb - PRUNING_SCORE > row[0].score) {
      var n := NodeFor(from, src.score, items[pos], dmiFr, step);
      assert From(n, from, src, items, dmiFr, step);
      InsertSorted(row, n);
      ExtendFromKeeps(InsertNode(row, n), from, src, items, dmiFr, step, pos + 1);
    }
  }

  // Extending a node keeps the row sorted, offers its best lemma, and adds nothing else.
  lemma ExtendNode(row: seq<Node>, from: nat, src: Node, items: seq<Lpi>, dmiFr: nat, step: nat)
    requires Sorted(row) && SortedLpis(items) && |items| > 0
    ensures var r := ExtendFrom(row, from, src, items, dmiFr, step, 0);
            && Sorted(r) && r != [] && r[0].score == Least(row, src.score + items[0].psb)
            && forall x :: x in r ==> x in row || From(x, from, src, items, dmiFr, step)
  {
    var n := NodeFor(from, src.score, items[0], dmiFr, step);
    assert From(n, from, src, items, dmiFr, step);
    InsertSorted(row, n);
    ExtendFromKeeps(InsertNode(row, n), from, src, items, dmiFr, step, 1);
  }

  // MatrixSearch::extend_mtrx_nd: the row stands at pool[pos..pos + num].
  method ExtendMtrxNd(pool: array<Node>, used: nat, pos: nat, num0: nat, from: nat, items: seq<Lpi>, dmiFr: nat,
                      resRow: nat)
    returns (num: nat)
    requires pool.Length == MTRX_ND_POOL_SIZE && used == pos && num0 <= MAX_NODE_A_ROW && from < pos
    requires pos + MAX_NODE_A_ROW < MTRX_ND_POOL_SIZE
    modifies pool
    ensures num <= MAX_NODE_A_ROW && pool[..pos] == old(pool[..pos])
    ensures pool[pos..pos + num] ==
              ExtendFrom(old(pool[pos..pos + num0]), from, old(pool[from]), items, dmiFr, resRow, 0)
  {
    hide InsertNode;
    num := num0;
    var src := pool[from];
    ghost var row0 := pool[pos..pos + num0];
    if used >= MTRX_ND_POOL_SIZE - MAX_NODE_A_ROW {
      return;
    }
    var lpiNum := |items|;
    if 0 == src.step {
      if lpiNum > MAX_NODE_A_ROW {
        lpiNum := MAX_NODE_A_ROW;
      }
    }
    var i := 0;
    while i < lpiNum
      invariant i <= lpiNum == Limit(items, src.step) && num <= MAX_NODE_A_ROW && (i > 0 ==> num > 0)
      invariant pool[..pos] == old(pool[..pos])
      invariant ExtendFrom(pool[pos..pos + num], from, src, items, dmiFr, resRow, i) ==
                ExtendFrom(row0, from, src, items, dmiFr, resRow, 0)
      decreases lpiNum - i
    {
      var score := src.score + items[i].psb;
      assert num > 0 ==> pool[pos..pos + num][0] == pool[pos];
      if i > 0 && score - PRUNING_SCORE > pool[pos].score {
        break;
      }
      num := AddNode(pool, pos, num, NodeFor(from, src.score, items[i], dmiFr, resRow));
      i := i + 1;
    }
  }

  // Nodes of the row from place res on have moved one up, as far as there is room.
  ghost predicate Shifted(s: seq<Node>, row: seq<Node>, pos: nat, res: nat) {
    && res <= |row| <= MAX_NODE_A_ROW && pos + MAX_NODE_A_ROW <= |s|
    && (forall q :: pos <= q < pos + res ==> s[q] == row[q - pos])
    && (forall q :: pos + res < q <= pos + |row| && q < pos + MAX_NODE_A_ROW ==> s[q] == row[q - pos - 1])
  }

  lemma ShiftOne(s: seq<Node>, row: seq<Node>, pos: nat, res: nat)
    requires Shifted(s, row, pos, res) && res > 0
    ensures pos + res - 1 < |s| && s[pos + res - 1] == row[res - 1]
    ensures res < MAX_NODE_A_ROW ==> Shifted(s[pos + res := s[pos + res - 1]], row, pos, res - 1)
    ensures res == MAX_NODE_A_ROW ==> Shifted(s, row, pos, res - 1)
  {}

  lemma InsertLength(row: seq<Node>, n: Node)
    requires |row| <= MAX_NODE_A_ROW
    ensures |InsertNode(row, n)| == if |row| < MAX_NODE_A_ROW then |row| + 1 else |row|
  {}

  // The row after n has been put at place res, if there is room for it there.
  lemma ShiftedInsert(s: seq<Node>, row: seq<Node>, pos: nat, res: nat, n: Node)
    requires Shifted(s, row, pos, res) && res == Place(row, n.score, |row|)
    ensures var num := if |row| < MAX_NODE_A_ROW then |row| + 1 else |row|;
            && (res < MAX_NODE_A_ROW ==> s[pos + res := n][pos..pos + num] == InsertNode(row, n))
            && (res == MAX_NODE_A_ROW ==> s[pos..pos + |row|] == InsertNode(row, n))
  {
    hide *;
    ShiftedSize(s, row, pos, res);
    InsertLength(row, n);
    var r := InsertNode(row, n);
    if res < MAX_NODE_A_ROW {
      var t := s[pos + res := n];
      forall k: nat | k < |r|
        ensures t[pos + k] == r[k]
      {
        ShiftedCell(s, row, pos, res, n, k);
      }
      SameSlice(t, pos, r);
    } else {
      forall k: nat | k < |r|
        ensures s[pos + k] == r[k]
      {
        ShiftedCell(s, row, pos, res, n, k);
      }
      SameSlice(s, pos, r);
    }
  }

  lemma ShiftedCell(s: seq<Node>, row: seq<Node>, pos: nat, res: nat, n: Node, k: nat)
    requires Shifted(s, row, pos, res) && res == Place(row, n.score, |row|)
    requires k < |InsertNode(row, n)| <= MAX_NODE_A_ROW
    ensures pos + k < |s| && InsertNode(row, n)[k] == if k == res then n else s[pos + k]
  {
    hide *;
    ShiftedSize(s, row, pos, res);
    InsertAt(row, n, k);
    ShiftedAt(s, row, pos, res, k);
  }

  lemma ShiftedSize(s: seq<Node>, row: seq<Node>, pos: nat, res: nat)
    requires Shifted(s, row, pos, res)
    ensures res <= |row| <= MAX_NODE_A_ROW && pos + MAX_NODE_A_ROW <= |s|
  {}

  lemma ShiftedAt(s: seq<Node>, row: seq<Node>, pos: nat, res: nat, k: nat)
    requires Shifted(s, row, pos, res) && k <= |row| && k < MAX_NODE_A_ROW
    ensures pos + k < |s| && (k < res ==> s[pos + k] == row[k]) && (k > res ==> s[pos + k] == row[k - 1])
  {}

  lemma SameSlice(t: seq<Node>, pos: nat, r: seq<Node>)
    requires pos + |r| <= |t| && forall k: nat :: k < |r| ==> t[pos + k] == r[k]
    ensures t[pos..pos + |r|] == r
  {
    forall k: nat | k < |r|
      ensures t[pos..pos + |r|][k] == r[k]
    {
      assert t[pos + k] == r[k];
    }
  }

  // The shifting insertion inside extend_mtrx_nd
  method AddNode(pool: array<Node>, pos: nat, num0: nat, n: Node) returns (num: nat)
    requires pos + MAX_NODE_A_ROW <= pool.Length && num0 <= MAX_NODE_A_ROW
    modifies pool
    ensures num <= MAX_NODE_A_ROW && num > 0 && pool[..pos] == old(pool[..pos])
    ensures pool[pos..pos + num] == InsertNode(old(pool[pos..pos + num0]), n)
  {
    ghost var row := pool[pos..pos + num0];
    var res: nat := num0;
    var replace := false;
    hide InsertNode;
    while res > 0 && n.score < pool[pos + res - 1].score
      invariant res <= num0 && Place(row, n.score, res) == Place(row, n.score, num0)
      invariant replace <==> res < num0
      invariant pool[..pos] == old(pool[..pos])
      invariant Shifted(pool[..], row, pos, res)
    {
      ghost var s := pool[..];
      ShiftOne(s, row, pos, res);
      if res < MAX_NODE_A_ROW {
        pool[pos + res] := pool[pos + res - 1];
        assert pool[..] == s[pos + res := s[pos + res - 1]];
      }
      res := res - 1;
      replace := true;
    }
    assert res > 0 ==> pool[pos + res - 1] == row[res - 1];
    num := PutNode(pool, pos, num0, res, replace, n, row);
  }

  // The node goes to its place, if there is one.
  method PutNode(pool: array<Node>, pos: nat, num0: nat, res: nat, replace: bool, n: Node, ghost row: seq<Node>)
    returns (num: nat)
    requires Shifted(pool[..], row, pos, res) && |row| == num0 && res == Place(row, n.score, num0)
    requires pos + MAX_NODE_A_ROW <= pool.Length && res <= num0 <= MAX_NODE_A_ROW && (replace <==> res < num0)
    modifies pool
    ensures num <= MAX_NODE_A_ROW && num > 0 && pool[..pos] == old(pool[..pos])
    ensures pool[pos..pos + num] == InsertNode(row, n)
  {
    hide *;
    RowCap();
    num := num0;
    ghost var s := pool[..];
    ShiftedInsert(s, row, pos, res, n);
    if replace || num0 < MAX_NODE_A_ROW {
      pool[pos + res] := n;
      assert pool[..] == s[pos + res := n];
      if num < MAX_NODE_A_ROW {
        num := num + 1;
      }
    }
    assert pool[pos..pos + num] == pool[..][pos..pos + num];
  }

  lemma RowCap()
    ensures MAX_NODE_A_ROW == 5
  {}
}
