// Comparing strings of one length: the first difference decides.

module Lex {
  function LexCmp(a: seq<int>, b: seq<int>): (c: int)
    requires |a| == |b|
    ensures -1 <= c <= 1
    ensures c == 0 <==> a == b
  {
    if a == [] then 0
    else if a[0] == b[0] then
      assert a == [a[0]] + a[1..] && b == [b[0]] + b[1..];
      LexCmp(a[1..], b[1..])
    else if a[0] > b[0] then 1 else -1
  }

  lemma {:induction false} LexOrder(a: seq<int>, b: seq<int>, c: seq<int>)
    requires |a| == |b| == |c|
    ensures LexCmp(b, a) == -LexCmp(a, b)
    ensures LexCmp(a, b) <= 0 && LexCmp(b, c) <= 0 ==> LexCmp(a, c) <= 0
    ensures LexCmp(a, b) < 0 && LexCmp(b, c) <= 0 ==> LexCmp(a, c) < 0
    ensures LexCmp(a, b) <= 0 && LexCmp(b, c) < 0 ==> LexCmp(a, c) < 0
  {
    if a != [] {
      LexOrder(a[1..], b[1..], c[1..]);
    }
  }

  lemma {:induction false} LexPrefix(a: seq<int>, b: seq<int>, k: nat)
    requires |a| == |b| && k < |a| && a[..k] == b[..k] && a[k] != b[k]
    ensures LexCmp(a, b) == if a[k] > b[k] then 1 else -1
    decreases k
  {
    if k > 0 {
      assert a[0] == a[..k][0] == b[..k][0] == b[0];
      assert a[1..][..k - 1] == a[..k][1..] == b[..k][1..] == b[1..][..k - 1];
      LexPrefix(a[1..], b[1..], k - 1);
    }
  }
}
