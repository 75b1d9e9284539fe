// The open-addressing hash table in which spellings are collected with their
// frequencies while the model is built.

module SpellingTable {
  import opened Primes

  // A slot; an empty string marks it free.
  datatype Raw = Raw(str: string, freq: real)

  const NOT_SUPPORTED := {"HM", "HNG", "NG"}

  // ---- The table size ----

  method Isqrt(v: nat) returns (r: nat)
    ensures r * r <= v < (r + 1) * (r + 1)
  {
    r := 0;
    while (r + 1) * (r + 1) <= v
      invariant r * r <= v
      decreases v - r
    {
      RootBelow(r, v);
      r := r + 1;
    }
  }

  lemma RootBelow(r: nat, v: nat)
    requires (r + 1) * (r + 1) <= v
    ensures r < v
  {
    MulGap(r + 1, 0, r + 1);
  }

  // Whether no divisor from 2 to the square root divides v: the inner loop of get_odd_next.
  method NoDivisor(v: nat) returns (isOdd: bool)
    ensures v >= 2 ==> (isOdd <==> IsPrime(v))
    ensures v < 2 ==> isOdd
  {
    var root := Isqrt(v);
    isOdd := true;
    var d: nat := 2;
    RootSmall(root, v);
    while d < root + 1
      invariant d >= 2 && (v < 2 ==> root + 1 <= 2) && forall e: nat :: 2 <= e < d ==> !Divides(e, v)
      decreases root + 1 - d
    {
      if v % d == 0 {
        ProperDivisor(v, d, root);
        return false;
      }
      d := d + 1;
    }
    if v >= 2 {
      NoSmallDivisor(v, root);
    }
  }

  lemma RootSmall(root: nat, v: nat)
    requires root * root <= v
    ensures v < 2 ==> root <= 1
    ensures v < 4 ==> root <= 1
  {
    if root >= 2 {
      MulGap(root, 1, root);
    }
  }

  lemma ProperDivisor(v: nat, d: nat, root: nat)
    requires 2 <= d <= root && root * root <= v && Divides(d, v)
    ensures v >= 2 && !IsPrime(v)
  {
    MulGap(root, 1, root);
    assert d < v;
  }

  lemma NoSmallDivisor(v: nat, root: nat)
    requires v >= 2 && v < (root + 1) * (root + 1) && forall e: nat :: 2 <= e < root + 1 ==> !Divides(e, v)
    ensures IsPrime(v)
  {
    forall d: nat | 2 <= d < v
      ensures !Divides(d, v)
    {
      if Divides(d, v) {
        var e := SmallDivisor(v, d);
        SquareBelow(e, root, v);
      }
    }
  }

  lemma SquareBelow(e: nat, root: nat, v: nat)
    requires e * e <= v < (root + 1) * (root + 1)
    ensures e < root + 1
  {
    if e > root {
      Squares(root + 1, e);
    }
  }

  lemma Squares(a: nat, b: nat)
    requires a <= b
    ensures a * a <= b * b
  {
    if a < b {
      MulGap(a, a, b);
      MulGap(b, a, b);
    }
  }

  // get_odd_next: the least prime from value on; 0 and 1 are returned themselves.
  method GetOddNext(value: nat) returns (v: nat)
    ensures v >= value && (value < 2 ==> v == value)
    ensures value >= 2 ==> IsPrime(v) && forall u: nat :: value <= u < v ==> !IsPrime(u)
  {
    ghost var p := PrimeFrom(value);
    v := value;
    while true
      invariant value <= v && (value >= 2 ==> v <= p) && (value < 2 ==> v == value)
      invariant value >= 2 ==> forall u: nat :: value <= u < v ==> !IsPrime(u)
      decreases p - v
    {
      var isOdd := NoDivisor(v);
      if isOdd {
        return;
      }
      v := v + 1;
    }
  }

  // ---- The table as a value ----

  function Sum(s: string): nat {
    if s == "" then 0 else Sum(s[..|s| - 1]) + s[|s| - 1] as int
  }

  function Hash(s: string, m: nat): (h: nat)
    requires m > 0
    ensures h < m
  {
    Sum(s) % m
  }

  // Slot i is probe j of its string, and the probes before are taken.
  ghost predicate Found(rs: seq<Raw>, i: nat, j: nat) {
    && i < |rs| && j < |rs| && Probe(Hash(rs[i].str, |rs|), j, |rs|) == i
    && forall k: nat :: k < j ==> rs[Probe(Hash(rs[i].str, |rs|), k, |rs|)].str != ""
  }

  ghost predicate Findable(rs: seq<Raw>, i: nat) { exists j: nat :: Found(rs, i, j) }

  ghost predicate OkTable(rs: seq<Raw>) {
    && (|rs| == 1 || IsPrime(|rs|))
    && (forall i, j :: 0 <= i < j < |rs| && rs[i].str != "" ==> rs[i].str != rs[j].str)
    && (forall i: nat :: i < |rs| && rs[i].str != "" ==> Findable(rs, i))
  }

  ghost predicate Holds(rs: seq<Raw>, s: string, i: nat) {
    i < |rs| && s != "" && rs[i].str == s
  }

  ghost function Spellings(rs: seq<Raw>): set<string> {
    set i | 0 <= i < |rs| && rs[i].str != "" :: rs[i].str
  }

  ghost function SlotOf(rs: seq<Raw>, s: string): (i: nat)
    requires s in Spellings(rs)
    ensures Holds(rs, s, i)
  {
    var i: nat :| i < |rs| && rs[i].str == s && s != "";
    i
  }

  // The frequencies a table stands for.
  ghost function Contents(rs: seq<Raw>): map<string, real> {
    map s | s in Spellings(rs) :: rs[SlotOf(rs, s)].freq
  }

  lemma ContentsAt(rs: seq<Raw>, s: string, i: nat)
    requires OkTable(rs) && Holds(rs, s, i)
    ensures s in Contents(rs) && Contents(rs)[s] == rs[i].freq
  {
    hide Findable, IsPrime;
    assert s in Spellings(rs);
  }

  // A map comprehension through SlotOf, told apart by its values.
  lemma ContentsIs(rs: seq<Raw>, want: map<string, real>)
    requires OkTable(rs) && Spellings(rs) == want.Keys
    requires forall i: nat :: i < |rs| && rs[i].str != "" && rs[i].str in want ==> want[rs[i].str] == rs[i].freq
    ensures Contents(rs) == want
  {
    forall t | t in Spellings(rs)
      ensures Contents(rs)[t] == want[t]
    {
      var i := SlotOf(rs, t);
      ContentsAt(rs, t, i);
      assert rs[i].str == t;
    }
    hide OkTable, Holds, SlotOf, Spellings;
  }

  // Adding to a taken slot.
  lemma HoldsHere(rs: seq<Raw>, s: string, i: nat)
    requires i < |rs| && rs[i].str == s && s != ""
    ensures Holds(rs, s, i)
  {}

  lemma AddFreq(rs: seq<Raw>, s: string, i: nat, freq: real)
    requires OkTable(rs) && Holds(rs, s, i)
    ensures OkTable(rs[i := Raw(s, rs[i].freq + freq)])
    ensures s in Contents(rs)
    ensures Contents(rs[i := Raw(s, rs[i].freq + freq)]) == Contents(rs)[s := Contents(rs)[s] + freq]
    ensures Spellings(rs[i := Raw(s, rs[i].freq + freq)]) == Spellings(rs)
  {
    var rs' := rs[i := Raw(s, rs[i].freq + freq)];
    SameStrings(rs, rs');
    ContentsAt(rs, s, i);
    var want := Contents(rs)[s := Contents(rs)[s] + freq];
    forall k: nat | k < |rs| && rs'[k].str != "" && rs'[k].str in want
      ensures want[rs'[k].str] == rs'[k].freq
    {
      ContentsAt(rs, rs[k].str, k);
      if rs[k].str == s {
        OneSlot(rs, i, k);
      }
    }
    hide OkTable, Holds, SlotOf;
    ContentsIs(rs', want);
  }

  lemma OneSlot(rs: seq<Raw>, i: nat, k: nat)
    requires OkTable(rs) && i < |rs| && k < |rs| && rs[i].str == rs[k].str && rs[i].str != ""
    ensures i == k
  {
    hide Findable, IsPrime;
  }

  lemma SameStrings(rs: seq<Raw>, rs': seq<Raw>)
    requires OkTable(rs) && |rs'| == |rs| && forall i :: 0 <= i < |rs| ==> rs'[i].str == rs[i].str
    ensures OkTable(rs') && Spellings(rs') == Spellings(rs)
  {
    forall i: nat | i < |rs'| && rs'[i].str != ""
      ensures Findable(rs', i)
    {
      var j: nat :| Found(rs, i, j);
      assert Found(rs', i, j);
    }
    hide Findable, IsPrime;
    assert Spellings(rs') == Spellings(rs);
  }

  // Taking a free slot at the end of the string's probes.
  lemma TakeSlot(rs: seq<Raw>, s: string, j: nat, p: nat, freq: real)
    requires OkTable(rs) && Passed(rs, s, j) && j < |rs| && s != "" && s !in Spellings(rs)
    requires p == Slot(rs, s, j) && rs[p].str == ""
    ensures var rs' := rs[p := Raw(s, freq)];
            OkTable(rs') && Contents(rs') == Contents(rs)[s := freq] && Spellings(rs') == Spellings(rs) + {s}
  {
    hide *;
    var rs' := rs[p := Raw(s, freq)];
    TakenFindable(rs, rs', s, j, p, freq);
    TakenOk(rs, rs', s, p, freq);
    TakenContents(rs, rs', s, p, freq);
  }

  lemma TakenFindable(rs: seq<Raw>, rs': seq<Raw>, s: string, j: nat, p: nat, freq: real)
    requires OkTable(rs) && Passed(rs, s, j) && j < |rs| && s != "" && p == Slot(rs, s, j) && rs[p].str == ""
    requires rs' == rs[p := Raw(s, freq)]
    ensures forall i: nat :: i < |rs'| && rs'[i].str != "" ==> Findable(rs', i)
  {
    hide IsPrime, Probe, Hash, Divides;
    forall i: nat | i < |rs'| && rs'[i].str != ""
      ensures Findable(rs', i)
    {
      if i == p {
        assert Found(rs', p, j);
      } else {
        var k: nat :| Found(rs, i, k);
        assert Found(rs', i, k);
      }
    }
  }

  lemma TakenOk(rs: seq<Raw>, rs': seq<Raw>, s: string, p: nat, freq: real)
    requires OkTable(rs) && p < |rs| && s != "" && s !in Spellings(rs) && rs[p].str == ""
    requires rs' == rs[p := Raw(s, freq)]
    requires forall i: nat :: i < |rs'| && rs'[i].str != "" ==> Findable(rs', i)
    ensures OkTable(rs') && Spellings(rs') == Spellings(rs) + {s}
  {
    hide Findable, IsPrime;
    assert forall i :: 0 <= i < |rs| && rs[i].str != "" ==> rs[i].str in Spellings(rs);
    forall t | t in Spellings(rs) + {s}
      ensures t in Spellings(rs')
    {
      if t == s {
        assert rs'[p].str == s;
      } else {
        var i := SlotOf(rs, t);
        assert rs'[i].str == t;
      }
    }
    assert Spellings(rs') <= Spellings(rs) + {s};
  }

  lemma TakenContents(rs: seq<Raw>, rs': seq<Raw>, s: string, p: nat, freq: real)
    requires OkTable(rs) && p < |rs| && s != "" && s !in Spellings(rs) && rs[p].str == ""
    requires rs' == rs[p := Raw(s, freq)]
    requires OkTable(rs') && Spellings(rs') == Spellings(rs) + {s}
    ensures Contents(rs') == Contents(rs)[s := freq]
  {
    var want := Contents(rs)[s := freq];
    forall k: nat | k < |rs'| && rs'[k].str != "" && rs'[k].str in want
      ensures want[rs'[k].str] == rs'[k].freq
    {
      if k != p {
        ContentsAt(rs, rs[k].str, k);
        assert rs[k].str in Spellings(rs);
      }
    }
    hide OkTable, Holds, SlotOf, Spellings;
    ContentsIs(rs', want);
  }

  // The string's first n probes all hit slots of other strings.
  ghost predicate Passed(rs: seq<Raw>, s: string, n: nat) {
    |rs| > 0 && forall k: nat :: k < n ==>
      rs[Probe(Hash(s, |rs|), k, |rs|)].str != "" && rs[Probe(Hash(s, |rs|), k, |rs|)].str != s
  }

  ghost predicate Full(rs: seq<Raw>) { forall i :: 0 <= i < |rs| ==> rs[i].str != "" }

  function Slot(rs: seq<Raw>, s: string, j: nat): (p: nat)
    requires |rs| > 0
    ensures p < |rs|
  {
    Probe(Hash(s, |rs|), j, |rs|)
  }

  lemma PassOne(rs: seq<Raw>, s: string, j: nat)
    requires Passed(rs, s, j) && rs[Slot(rs, s, j)].str != "" && rs[Slot(rs, s, j)].str != s
    ensures Passed(rs, s, j + 1)
  {
    hide Probe, Hash;
  }

  // A spelling in the table is met before a free slot and before the probes come back.
  lemma MetInTime(rs: seq<Raw>, s: string, j: nat)
    requires OkTable(rs) && Passed(rs, s, j) && j <= |rs| && s in Spellings(rs)
    ensures j < |rs| && rs[Slot(rs, s, j)].str != "" && (j > 0 ==> Slot(rs, s, j) != Slot(rs, s, 0))
  {
    var m, h := |rs|, Hash(s, |rs|);
    var i := SlotOf(rs, s);
    var q: nat :| Found(rs, i, q);
    assert q >= j;
    if m != 1 && j > 0 {
      if m == 3 || m == 41 {
        ProbesStuck(h, q, m);
        ProbesStuck(h, 0, m);
      } else {
        ProbesDiffer(h, 0, j, m);
      }
    }
  }

  lemma NotIn(rs: seq<Raw>, s: string, j: nat)
    requires OkTable(rs) && Passed(rs, s, j) && s != ""
    requires (j < |rs| && rs[Slot(rs, s, j)].str == "") || (0 < j <= |rs| && Slot(rs, s, j) == Slot(rs, s, 0))
    ensures s !in Spellings(rs) && s !in Contents(rs)
  {
    hide OkTable, Slot, Passed, Spellings;
    if s in Spellings(rs) {
      MetInTime(rs, s, j);
    }
  }

  lemma IsIn(rs: seq<Raw>, s: string, i: nat)
    requires OkTable(rs) && i < |rs| && rs[i].str == s && s != ""
    ensures s in Contents(rs)
  {
    ContentsAt(rs, s, i);
  }

  // The probes come back to the first slot after one round.
  lemma RoundEnds(rs: seq<Raw>, s: string)
    requires |rs| > 0
    ensures Slot(rs, s, |rs|) == Slot(rs, s, 0) == Hash(s, |rs|)
  {
    var h := Hash(s, |rs|);
    hide Hash;
    ProbesReturn(h, |rs|);
  }

  lemma NextSlot(rs: seq<Raw>, s: string, j: nat)
    requires |rs| > 0
    ensures (Slot(rs, s, j) + STEP) % |rs| == Slot(rs, s, j + 1)
  {
    ProbeNext(Hash(s, |rs|), j, |rs|);
  }

  // Probes that came back have seen every slot the string can get.
  lemma SeenAll(rs: seq<Raw>, s: string, n: nat)
    requires OkTable(rs) && 0 < n <= |rs| && Passed(rs, s, n) && Slot(rs, s, n) == Slot(rs, s, 0)
    ensures Passed(rs, s, |rs|)
    ensures |rs| != 3 && |rs| != 41 ==> Full(rs)
  {
    var m, h := |rs|, Hash(s, |rs|);
    if m == 3 || m == 41 {
      forall k: nat | k < m
        ensures Probe(h, k, m) == Probe(h, 0, m)
      {
        ProbesStuck(h, k, m);
        ProbesStuck(h, 0, m);
      }
    } else if m != 1 {
      if n < m {
        ProbesDiffer(h, 0, n, m);
      }
      forall i | 0 <= i < m
        ensures rs[i].str != ""
      {
        var j := ProbesAll(h, m, i);
      }
    }
  }

  // In a table of three slots a spelling is turned away while two slots are free.
  lemma ThreeSlotsTurnAway()
    ensures var rs := [Raw("", 0.0), Raw("a", 1.0), Raw("", 0.0)];
            OkTable(rs) && "d" !in Contents(rs) && forall j: nat :: j < 3 ==> rs[Probe(Hash("d", 3), j, 3)].str == "a"
  {
    var rs := [Raw("", 0.0), Raw("a", 1.0), Raw("", 0.0)];
    assert Sum("a") == 97 && Sum("d") == 100 by {
      assert "a"[..0] == "" && "d"[..0] == "";
    }
    assert IsPrime(3);
    assert Found(rs, 1, 0);
    forall j: nat | j < 3
      ensures rs[Probe(Hash("d", 3), j, 3)].str == "a"
    {
      ProbesStuck(1, j, 3);
    }
  }

  // ---- The table as an object ----

  class SpellingTable {
    var slots: array<Raw>
    var kept: nat
    var num: nat
    var total: real
    var frozen: bool

    ghost predicate Valid()
      reads this, slots
    {
      !frozen ==>
        && OkTable(slots[..]) && num == |Spellings(slots[..])|
        && forall i :: 0 <= i < slots.Length && slots[i].str == "" ==> slots[i].freq == 0.0
    }

    ghost function Frequencies(): map<string, real>
      reads this, slots
      requires Valid() && !frozen
    {
      Contents(slots[..])
    }

    constructor ()
      ensures Valid() && frozen && fresh(slots)
    {
      slots := new Raw[0];
      kept, num, total, frozen := 0, 0, 0.0, true;
    }

    method InitTable(pureSize: nat, maxNum: nat, needScore: bool) returns (ok: bool)
      requires Valid()
      modifies this
      ensures Valid() && ok == (pureSize != 0 && maxNum != 0)
      ensures !ok ==> unchanged(this)
      ensures ok ==> !frozen && fresh(slots) && Frequencies() == map[] && num == 0 && total == 0.0
      ensures ok ==> kept == pureSize + (if needScore then 1 else 0)
      ensures ok ==> slots.Length >= maxNum && (maxNum == 1 ==> slots.Length == 1)
      ensures ok && maxNum > 1 ==> IsPrime(slots.Length) && forall u: nat :: maxNum <= u < slots.Length ==> !IsPrime(u)
    {
      if pureSize == 0 || maxNum == 0 {
        return false;
      }
      kept := pureSize;
      if needScore {
        kept := kept + 1;
      }
      var size := GetOddNext(maxNum);
      num, total, frozen := 0, 0.0, false;
      slots := new Raw[size](i => Raw("", 0.0));
      ok := true;
      assert Spellings(slots[..]) == {};
    }

    // put_spelling: the spelling's frequency grows; the spelling is turned away only if every slot
    // its probes can reach is taken by others.
    method PutSpelling(s: string, freq: real) returns (ok: bool)
      requires Valid() && 0 < |s| <= kept
      modifies this, slots
      ensures Valid() && frozen == old(frozen) && slots == old(slots) && kept == old(kept)
      ensures frozen || s in NOT_SUPPORTED ==>
                !ok && total == old(total) && num == old(num) && slots[..] == old(slots[..])
      ensures !frozen && s !in NOT_SUPPORTED ==> total == old(total) + freq
      ensures ok ==> !frozen && s !in NOT_SUPPORTED
      ensures ok ==>
                Frequencies() ==
                old(Frequencies())[s := (if s in old(Frequencies()) then old(Frequencies())[s] else 0.0) + freq]
      ensures !frozen && !ok && s !in NOT_SUPPORTED ==>
                && slots[..] == old(slots[..]) && s !in Frequencies()
                && Passed(slots[..], s, slots.Length) && (slots.Length != 3 && slots.Length != 41 ==> Full(slots[..]))
    {
      hide OkTable, Spellings, Contents, Passed, Full;
      if frozen {
        return false;
      }
      if s in NOT_SUPPORTED {
        return false;
      }
      total := total + freq;
      ok := Place(s, freq);
    }

    method Place(s: string, freq: real) returns (ok: bool)
      requires Valid() && !frozen && s != ""
      modifies this`num, slots
      ensures Valid() && !frozen && (!ok ==> slots[..] == old(slots[..]) && num == old(num))
      ensures ok ==>
                Frequencies() ==
                old(Frequencies())[s := (if s in old(Frequencies()) then old(Frequencies())[s] else 0.0) + freq]
      ensures !ok ==>
                && s !in Frequencies()
                && Passed(slots[..], s, slots.Length) && (slots.Length != 3 && slots.Length != 41 ==> Full(slots[..]))
    {
      hide *;
      Opened(s);
      var m := slots.Length;
      var first := Hash(s, m);
      ghost var rs := slots[..];
      RoundEnds(rs, s);
      if slots[first].str == s {
        AddTo(first, s, freq);
        return true;
      }
      var pos := first;
      ghost var j: nat := 0;
      while true
        invariant j < m && pos == Slot(rs, s, j) && slots[..] == rs && num == old(num) && Passed(rs, s, j)
        invariant Valid() && Frequencies() == Contents(rs)
        decreases m - j
      {
        if slots[pos].str == s {
          AddTo(pos, s, freq);
          return true;
        }
        if slots[pos].str == "" {
          NotIn(rs, s, j);
          Take(pos, j, s, freq);
          return true;
        }
        NextSlot(rs, s, j);
        PassOne(rs, s, j);
        pos := (pos + STEP) % m;
        ghost var next := j + 1;
        j := next;
        if first == pos {
          SeenAll(rs, s, j);
          NotIn(rs, s, j);
          return false;
        }
      }
    }

    lemma Opened(s: string)
      requires Valid() && !frozen
      ensures OkTable(slots[..]) && slots.Length > 0 && Frequencies() == Contents(slots[..]) && Passed(slots[..], s, 0)
    {}

    method AddTo(i: nat, s: string, freq: real)
      requires Valid() && !frozen && i < slots.Length && slots[i].str == s && s != ""
      modifies slots
      ensures Valid() && s in old(Frequencies())
      ensures Frequencies() == old(Frequencies())[s := old(Frequencies())[s] + freq]
    {
      hide *;
      ghost var rs := slots[..];
      TableFacts();
      HoldsHere(rs, s, i);
      AddFreq(rs, s, i, freq);
      slots[i] := Raw(s, slots[i].freq + freq);
      assert slots[..] == rs[i := Raw(s, rs[i].freq + freq)];
      IsTable();
    }

    lemma TableFacts()
      requires Valid() && !frozen
      ensures OkTable(slots[..]) && num == |Spellings(slots[..])| && Frequencies() == Contents(slots[..])
      ensures forall i :: 0 <= i < slots.Length && slots[i].str == "" ==> slots[i].freq == 0.0
    {
      hide OkTable, Contents, Spellings;
    }

    lemma IsTable()
      requires OkTable(slots[..]) && num == |Spellings(slots[..])| && !frozen
      requires forall i :: 0 <= i < slots.Length && slots[i].str == "" ==> slots[i].freq == 0.0
      ensures Valid() && Frequencies() == Contents(slots[..])
    {
      hide OkTable, Contents, Spellings;
    }

    method Take(i: nat, ghost j: nat, s: string, freq: real)
      requires Valid() && !frozen && i < slots.Length && slots[i].str == "" && s != "" && s !in Spellings(slots[..])
      requires j < slots.Length && Passed(slots[..], s, j) && i == Slot(slots[..], s, j)
      modifies this`num, slots
      ensures Valid() && s !in old(Frequencies()) && Frequencies() == old(Frequencies())[s := 0.0 + freq]
    {
      hide OkTable, Spellings, Contents, Passed, Slot;
      ghost var rs := slots[..];
      NotIn(rs, s, j);
      TakeSlot(rs, s, j, i, 0.0 + freq);
      slots[i] := Raw(s, slots[i].freq + freq);
      num := num + 1;
      assert slots[..] == rs[i := Raw(s, 0.0 + freq)];
    }

    // contain: true exactly for the spellings put.
    method Contain(s: string) returns (yes: bool)
      requires Valid() && 0 < |s| <= kept
      ensures yes <==> !frozen && s in Frequencies()
    {
      hide *;
      if frozen {
        return false;
      }
      Opened(s);
      var m := slots.Length;
      var first := Hash(s, m);
      ghost var rs := slots[..];
      RoundEnds(rs, s);
      if slots[first].str == "" {
        NotIn(rs, s, 0);
        return false;
      }
      if slots[first].str == s {
        IsIn(rs, s, first);
        return true;
      }
      var pos := first;
      ghost var j: nat := 0;
      while true
        invariant j < m && pos == Slot(rs, s, j) && Passed(rs, s, j) && rs[pos].str != "" && rs[pos].str != s
        decreases m - j
      {
        NextSlot(rs, s, j);
        PassOne(rs, s, j);
        pos := (pos + STEP) % m;
        ghost var next := j + 1;
        j := next;
        if first == pos {
          NotIn(rs, s, j);
          return false;
        }
        if slots[pos].str == "" {
          NotIn(rs, s, j);
          return false;
        }
        if slots[pos].str == s {
          IsIn(rs, s, pos);
          return true;
        }
      }
    }
  }
}
