// Deleting one syllable from the fixed words (MatrixSearch::merge_fixed_lmas): the
// words are merged into a composing phrase without the deleted character.

module Phrase {
  const LEMMA_ID_COMPOSING := 0xff_ffff

  // ---- What deleting means ----

  function Without(s: seq<nat>, i: nat): (r: seq<nat>)
    requires i < |s|
    ensures |r| == |s| - 1
  {
    s[..i] + s[i + 1..]
  }

  // Spelling starts without syllable i: those behind it move up by its length.
  function StartWithout(starts: seq<nat>, i: nat, k: nat): int
    requires i + 1 < |starts| && k + 1 < |starts|
  {
    var here: int, next: int, first: int, second: int := starts[k], starts[k + 1], starts[i], starts[i + 1];
    if k < i then here else next - (second - first)
  }

  ghost predicate Increasing(s: seq<nat>) {
    forall i, j :: 0 <= i < j < |s| ==> s[i] < s[j]
  }

  function Lower(b: nat, del: nat): nat { if b > del then b - 1 else b }

  function LowerAll(s: seq<nat>, del: nat): (r: seq<nat>)
    ensures |r| == |s|
  {
    seq<nat>(|s|, k requires 0 <= k < |s| => Lower(s[k], del))
  }

  // Bounds of words that tile [0..n).
  ghost predicate Bounds(s: seq<nat>, n: nat) {
    && |s| > 0 && s[0] == 0 && s[|s| - 1] == n
    && forall i, j :: 0 <= i < j < |s| ==> s[i] < s[j]
  }

  // The word that holds character del; it has index k.
  lemma {:induction false} WordOf(s: seq<nat>, n: nat, del: nat) returns (k: nat)
    requires Bounds(s, n) && del < n
    ensures k + 1 < |s| && s[k] <= del < s[k + 1]
  {
    k := 0;
    while s[k + 1] <= del
      invariant k + 1 < |s| && s[k] <= del
      decreases |s| - k
    {
      k := k + 1;
    }
  }

  // The bounds after a deletion: lowered, and without the word if it had one character.
  function BoundsWithout(s: seq<nat>, del: nat, k: nat): seq<nat>
    requires k + 1 < |s|
  {
    if s[k + 1] == s[k] + 1 then Without(LowerAll(s, del), k) else LowerAll(s, del)
  }

  // The old bound that new bound i comes from.
  function OldIndex(s: seq<nat>, k: nat, i: nat): nat
    requires k + 1 < |s|
  {
    if s[k + 1] == s[k] + 1 && i >= k then i + 1 else i
  }

  lemma NewBound(s: seq<nat>, del: nat, k: nat, i: nat)
    requires k + 1 < |s| && i < |BoundsWithout(s, del, k)|
    ensures OldIndex(s, k, i) < |s| && BoundsWithout(s, del, k)[i] == Lower(s[OldIndex(s, k, i)], del)
    ensures s[k + 1] == s[k] + 1 ==> OldIndex(s, k, i) != k
  {}

  lemma Lowered(s: seq<nat>, n: nat, del: nat, k: nat, a: nat, b: nat)
    requires Bounds(s, n) && k + 1 < |s| && s[k] <= del < s[k + 1] && a < b < |s| && (s[k + 1] == s[k] + 1 ==> a != k)
    ensures Lower(s[a], del) < Lower(s[b], del)
  {
    if s[a] == del {
      assert a == k;
    }
  }

  // The new bounds tile the shorter phrase.
  lemma BoundsTile(s: seq<nat>, n: nat, del: nat, k: nat)
    requires Bounds(s, n) && k + 1 < |s| && s[k] <= del < s[k + 1] && n > 1
    ensures Bounds(BoundsWithout(s, del, k), n - 1)
  {
    var r := BoundsWithout(s, del, k);
    assert |s| == 2 ==> s[k + 1] - s[k] == n;
    assert |r| > 1;
    NewBound(s, del, k, 0);
    NewBound(s, del, k, |r| - 1);
    assert s[0] < s[1];
    hide BoundsWithout;
    forall i, j | 0 <= i < j < |r|
      ensures r[i] < r[j]
    {
      NewBound(s, del, k, i);
      NewBound(s, del, k, j);
      Lowered(s, n, del, k, OldIndex(s, k, i), OldIndex(s, k, j));
    }
  }

  // They are exactly the old bounds, lowered.
  lemma BoundsKept(s: seq<nat>, n: nat, del: nat, k: nat, b: nat)
    requires Bounds(s, n) && k + 1 < |s| && s[k] <= del < s[k + 1]
    ensures b in BoundsWithout(s, del, k) <==> exists i: nat :: i < |s| && b == Lower(s[i], del)
  {
    hide *;
    var r := BoundsWithout(s, del, k);
    if b in r {
      var i: nat :| i < |r| && r[i] == b;
      NewBound(s, del, k, i);
      assert b == Lower(s[OldIndex(s, k, i)], del);
    }
    if i: nat :| i < |s| && b == Lower(s[i], del) {
      KeptBound(s, n, del, k, i);
    }
  }

  lemma KeptBound(s: seq<nat>, n: nat, del: nat, k: nat, i: nat)
    requires Bounds(s, n) && k + 1 < |s| && s[k] <= del < s[k + 1] && i < |s|
    ensures Lower(s[i], del) in BoundsWithout(s, del, k)
  {
    var one := s[k + 1] == s[k] + 1;
    var j: nat := if one && i > k then i - 1 else i;
    SizeWithout(s, del, k);
    hide BoundsWithout, Bounds, LowerAll;
    NewBound(s, del, k, j);
    assert BoundsWithout(s, del, k)[j] == Lower(s[i], del);
  }

  lemma SizeWithout(s: seq<nat>, del: nat, k: nat)
    requires k + 1 < |s|
    ensures |BoundsWithout(s, del, k)| == if s[k + 1] == s[k] + 1 then |s| - 1 else |s|
  {}

  // The spelling starts stay increasing, and the syllables left keep their lengths.
  lemma StartsKept(starts: seq<nat>, i: nat, k: nat)
    requires Increasing(starts) && i + 1 < |starts| && k + 2 < |starts|
    ensures 0 <= StartWithout(starts, i, k) < StartWithout(starts, i, k + 1)
    ensures var j := if k < i then k else k + 1;
            StartWithout(starts, i, k + 1) - StartWithout(starts, i, k) == starts[j + 1] - starts[j]
  {
    assert k >= i ==> starts[i + 1] <= starts[k + 1];
  }

  // ---- The fixed words ----

  function Concat(words: seq<seq<nat>>): seq<nat> {
    if words == [] then [] else Concat(words[..|words| - 1]) + words[|words| - 1]
  }

  // spl*: the spellings of the whole sentence; lma*: its fixed words, counted in
  // spellings; the rest is the composing phrase.
  class FixedWords {
    var splStart: seq<nat>
    var splId: seq<nat>
    var splNum: nat
    var lmaStart: seq<nat>
    var lmaId: seq<nat>
    var fixedLmas: nat
    var phraseIds: seq<nat>
    var phraseStart: seq<nat>
    var chnStr: seq<nat>
    var sublmaStart: seq<nat>
    var sublmaNum: nat
    var length: nat

    ghost predicate Valid()
      reads this
    {
      && splNum == |splId| && |splStart| == splNum + 1 && Increasing(splStart)
      && |lmaId| == fixedLmas && |lmaStart| == fixedLmas + 1 && |sublmaStart| == sublmaNum + 1
      && Bounds(lmaStart, lmaStart[fixedLmas]) && lmaStart[fixedLmas] <= splNum
    }

    // The first loop: syllable del is taken out of the sentence.
    method DropSyllable(del: nat)
      requires splNum == |splId| && |splStart| == splNum + 1 && Increasing(splStart) && del < splNum
      modifies `splStart, `splId, `splNum
      ensures splNum == old(splNum) - 1 == |splId| && |splStart| == splNum + 1
      ensures splId == Without(old(splId), del)
      ensures forall k: nat :: k <= splNum ==> splStart[k] == StartWithout(old(splStart), del, k)
    {
      hide *;
      splNum := splNum - 1;
      var next: int, here: int := splStart[del + 1], splStart[del];
      var delLen := next - here;
      ghost var starts, ids := splStart, splId;
      NothingMoved(starts, ids, del);
      var pos: nat := del;
      while true
        invariant del <= pos <= splNum && |starts| == splNum + 2 && |ids| == splNum + 1
        invariant StartsMoved(starts, splStart, del, pos) && IdsMoved(ids, splId, del, pos)
        decreases splNum - pos
      {
        StartsStep(starts, splStart, del, pos);
        splStart := splStart[pos := splStart[pos + 1] - delLen];
        if pos == splNum {
          break;
        }
        IdsStep(ids, splId, del, pos);
        splId := splId[pos := splId[pos + 1]];
        pos := pos + 1;
      }
      AllMoved(starts, splStart, ids, splId, del, splNum);
      splStart, splId := splStart[..splNum + 1], splId[..splNum];
    }

    // All fixed words, none of them a composing phrase yet, become one phrase.
    method MergeWords(del: nat, strOf: nat -> seq<nat>) returns (phraseLen: nat)
      requires |lmaStart| == fixedLmas + 1 && |lmaId| == fixedLmas && lmaStart[0] == 0
      requires forall k :: 0 <= k < fixedLmas ==> lmaStart[k] + |strOf(lmaId[k])| == lmaStart[k + 1]
      modifies `chnStr, `sublmaStart, `sublmaNum, `length
      ensures phraseLen == length == |chnStr| == lmaStart[fixedLmas] && chnStr == Concat(Words(strOf, lmaId))
      ensures sublmaNum == fixedLmas && sublmaStart == LowerAll(lmaStart, del)
    {
      phraseLen, sublmaNum := 0, 0;
      chnStr, sublmaStart := [], [];
      var pos: nat := 0;
      NoWords(strOf, lmaId, lmaStart, del);
      hide *;
      while true
        invariant pos <= fixedLmas && sublmaStart == LowerAll(lmaStart[..pos], del) && sublmaNum == 0
        invariant chnStr == Concat(Words(strOf, lmaId[..pos])) && phraseLen == |chnStr| == lmaStart[pos]
        decreases fixedLmas - pos
      {
        LowerNext(lmaStart, del, pos);
        sublmaStart := sublmaStart + [Lower(lmaStart[pos], del)];
        if pos == fixedLmas {
          break;
        }
        WordsNext(strOf, lmaId, pos);
        var word := strOf(lmaId[pos]);
        chnStr := chnStr + word;
        phraseLen := phraseLen + |word|;
        pos := pos + 1;
      }
      assert lmaStart[..fixedLmas + 1] == lmaStart && lmaId[..fixedLmas] == lmaId;
      length := phraseLen;
      sublmaNum := sublmaNum + fixedLmas;
    }

    static lemma NoWords(strOf: nat -> seq<nat>, ids: seq<nat>, starts: seq<nat>, del: nat)
      ensures LowerAll(starts[..0], del) == [] && Concat(Words(strOf, ids[..0])) == []
    {}

    static lemma LowerNext(s: seq<nat>, del: nat, pos: nat)
      requires pos < |s|
      ensures LowerAll(s[..pos + 1], del) == LowerAll(s[..pos], del) + [Lower(s[pos], del)]
    {
      hide Lower;
    }

    // The only fixed word is a composing phrase: its bounds are lowered.
    method LowerBounds(del: nat)
      requires |sublmaStart| == sublmaNum + 1
      modifies `sublmaStart
      ensures sublmaStart == LowerAll(old(sublmaStart), del)
    {
      ghost var was := sublmaStart;
      var pos: nat := 0;
      while pos <= sublmaNum
        invariant pos <= sublmaNum + 1 && |sublmaStart| == |was|
        invariant forall i: nat :: i < |was| ==> sublmaStart[i] == if i < pos then Lower(was[i], del) else was[i]
      {
        if sublmaStart[pos] > del {
          sublmaStart := sublmaStart[pos := sublmaStart[pos] - 1];
        }
        pos := pos + 1;
      }
    }

    // Character del is taken out of the phrase.
    method DropChar(del: nat, last: nat)
      requires del <= last && |chnStr| == last + 1 == length
      modifies `chnStr, `length
      ensures length == |chnStr| == last && chnStr == Without(old(chnStr), del)
    {
      ghost var was := chnStr;
      for pos := 0 to last - del
        invariant length == last + 1 && |chnStr| == |was|
        invariant chnStr == was[..del] + was[del + 1..del + 1 + pos] + was[del + pos..]
      {
        CharStep(was, del, pos);
        chnStr := chnStr[del + pos := chnStr[del + pos + 1]];
      }
      chnStr := chnStr[..last];
      length := length - 1;
    }

    // A sub lemma without characters is taken out.
    method DropEmptyWord(ghost s: seq<nat>, ghost n: nat, del: nat, ghost k: nat)
      requires |sublmaStart| == sublmaNum + 1 && sublmaStart == LowerAll(s, del)
      requires Bounds(s, n) && k + 1 < |s| && s[k] <= del < s[k + 1]
      modifies `sublmaStart, `sublmaNum
      ensures |sublmaStart| == sublmaNum + 1 && sublmaStart == BoundsWithout(s, del, k)
    {
      ghost var t := sublmaStart;
      EqualOnly(s, n, del, k);
      hide *;
      var delASub := false;
      var pos: nat := 1;
      ghost var done: nat := 0;
      SquashStart(t, k);
      while pos <= sublmaNum
        invariant 1 <= pos <= sublmaNum + 1 && sublmaNum + 1 == |t| && k + 1 < |t|
        invariant (delASub <==> t[k] == t[k + 1] && k + 1 < pos) && done == (if delASub then pos else 0)
        invariant Squashed(t, sublmaStart, k, done)
      {
        SquashFacts(t, sublmaStart, k, done, pos);
        if sublmaStart[pos - 1] == sublmaStart[pos] {
          delASub := true;
        }
        if delASub {
          SquashStep(t, sublmaStart, k, pos);
          sublmaStart := sublmaStart[pos - 1 := sublmaStart[pos]];
          done := pos + 1;
        }
        pos := pos + 1;
      }
      SquashEnd(t, sublmaStart, k);
      if delASub {
        sublmaStart := sublmaStart[..sublmaNum];
        sublmaNum := sublmaNum - 1;
      }
    }

    // The phrase before the deletion: its characters and the bounds of its words.
    ghost function Chars(strOf: nat -> seq<nat>): seq<nat>
      reads this
    {
      if |lmaId| > 0 && lmaId[0] == LEMMA_ID_COMPOSING then chnStr else Concat(Words(strOf, lmaId))
    }

    ghost function WordBounds(): seq<nat>
      reads this
    {
      if |lmaId| > 0 && lmaId[0] == LEMMA_ID_COMPOSING then sublmaStart else lmaStart
    }

    // Either no composing phrase yet, or nothing but one.
    ghost predicate Mergeable(strOf: nat -> seq<nat>)
      reads this
    {
      && Valid() && fixedLmas > 0
      && if lmaId[0] == LEMMA_ID_COMPOSING
         then fixedLmas == 1 && Bounds(sublmaStart, length) && |chnStr| == length == lmaStart[1]
         else forall k :: 0 <= k < fixedLmas ==> lmaStart[k] + |strOf(lmaId[k])| == lmaStart[k + 1]
    }

    // MatrixSearch::merge_fixed_lmas
    method MergeFixedLmas(del: nat, strOf: nat -> seq<nat>) returns (ghost k: nat)
      requires Mergeable(strOf) && del < lmaStart[fixedLmas]
      modifies this
      ensures k + 1 < |old(WordBounds())| && old(WordBounds())[k] <= del < old(WordBounds())[k + 1]
      ensures splNum == old(splNum) - 1 == |splId| == |phraseIds| && |splStart| == splNum + 1 && phraseStart == splStart
      ensures splId == Without(old(splId), del) == phraseIds
      ensures forall q: nat :: q <= splNum ==> splStart[q] == StartWithout(old(splStart), del, q)
      ensures old(lmaStart[fixedLmas]) == 1 ==> fixedLmas == 0
      ensures old(lmaStart[fixedLmas]) > 1 ==>
                && fixedLmas == old(fixedLmas) && del < |old(Chars(strOf))| == length + 1
                && length == |chnStr| && chnStr == Without(old(Chars(strOf)), del)
                && |sublmaStart| == sublmaNum + 1 && sublmaStart == BoundsWithout(old(WordBounds()), del, k)
                && Bounds(sublmaStart, length)
    {
      ghost var bounds, chars, n := WordBounds(), Chars(strOf), lmaStart[fixedLmas];
      MergeFacts(strOf, del);
      k := WordOf(bounds, n, del);
      hide *;
      DropSyllable(del);
      phraseIds, phraseStart := splId, splStart;
      var phraseLen := Gather(del, strOf, bounds, chars, n);
      if 1 == phraseLen {
        fixedLmas := 0;
        return;
      }
      Shorten(del, bounds, n, k);
    }

    // The characters and lowered bounds of the phrase.
    method Gather(del: nat, strOf: nat -> seq<nat>, ghost bounds: seq<nat>, ghost chars: seq<nat>, ghost n: nat)
      returns (phraseLen: nat)
      requires |lmaId| == fixedLmas > 0 && |lmaStart| == fixedLmas + 1 && |sublmaStart| == sublmaNum + 1
      requires lmaStart[0] == 0 && n == lmaStart[fixedLmas]
      requires lmaId[0] == LEMMA_ID_COMPOSING ==>
                 fixedLmas == 1 && bounds == sublmaStart && chars == chnStr && |chnStr| == length == lmaStart[1]
      requires lmaId[0] != LEMMA_ID_COMPOSING ==>
                 && bounds == lmaStart && chars == Concat(Words(strOf, lmaId))
                 && forall k :: 0 <= k < fixedLmas ==> lmaStart[k] + |strOf(lmaId[k])| == lmaStart[k + 1]
      modifies `chnStr, `sublmaStart, `sublmaNum, `length
      ensures phraseLen == length == |chnStr| == n && chnStr == chars && |sublmaStart| == sublmaNum + 1
      ensures sublmaStart == LowerAll(bounds, del)
    {
      hide *;
      if fixedLmas > 1 || LEMMA_ID_COMPOSING != lmaId[0] {
        phraseLen := MergeWords(del, strOf);
      } else {
        LowerBounds(del);
        phraseLen := length;
      }
    }

    // The character and a word left empty are taken out.
    method Shorten(del: nat, ghost bounds: seq<nat>, ghost n: nat, ghost k: nat)
      requires length == |chnStr| == n > 1 && |sublmaStart| == sublmaNum + 1 && sublmaStart == LowerAll(bounds, del)
      requires Bounds(bounds, n) && k + 1 < |bounds| && bounds[k] <= del < bounds[k + 1] && del < n
      modifies `chnStr, `length, `sublmaStart, `sublmaNum
      ensures length == |chnStr| == n - 1 && chnStr == Without(old(chnStr), del)
      ensures |sublmaStart| == sublmaNum + 1 && sublmaStart == BoundsWithout(bounds, del, k)
      ensures Bounds(sublmaStart, length)
    {
      hide *;
      BoundsTile(bounds, n, del, k);
      DropChar(del, length - 1);
      DropEmptyWord(bounds, n, del, k);
    }

    lemma MergeFacts(strOf: nat -> seq<nat>, del: nat)
      requires Mergeable(strOf) && del < lmaStart[fixedLmas]
      ensures splNum == |splId| && |splStart| == splNum + 1 && Increasing(splStart) && del < splNum && fixedLmas > 0
      ensures |lmaId| == fixedLmas && |lmaStart| == fixedLmas + 1 && |sublmaStart| == sublmaNum + 1 && lmaStart[0] == 0
      ensures Bounds(WordBounds(), lmaStart[fixedLmas])
      ensures lmaId[0] == LEMMA_ID_COMPOSING ==>
                && fixedLmas == 1 && WordBounds() == sublmaStart && Chars(strOf) == chnStr
                && |chnStr| == length == lmaStart[1]
      ensures lmaId[0] != LEMMA_ID_COMPOSING ==> WordBounds() == lmaStart && Chars(strOf) == Concat(Words(strOf, lmaId))
      ensures lmaId[0] != LEMMA_ID_COMPOSING ==>
                forall k :: 0 <= k < fixedLmas ==> lmaStart[k] + |strOf(lmaId[k])| == lmaStart[k + 1]
    {}
  }

  // Entries from k on, as far as the entry before pos, have been moved down.
  function SquashCell(t: seq<nat>, k: nat, pos: nat, i: nat): nat
    requires i < |t|
  {
    if k <= i && i + 1 < pos && i + 1 < |t| then t[i + 1] else t[i]
  }

  ghost predicate Squashed(t: seq<nat>, s: seq<nat>, k: nat, pos: nat) {
    |s| == |t| && forall i: nat :: i < |s| ==> s[i] == SquashCell(t, k, pos, i)
  }

  lemma SquashStart(t: seq<nat>, k: nat)
    ensures Squashed(t, t, k, 0)
  {}

  lemma SquashFacts(t: seq<nat>, s: seq<nat>, k: nat, done: nat, pos: nat)
    requires Squashed(t, s, k, done) && 1 <= pos < |t| && done <= pos
    ensures |s| == |t| && s[pos - 1] == t[pos - 1] && s[pos] == t[pos]
  {
    var before := pos - 1;
    assert s[before] == SquashCell(t, k, done, before);
  }

  lemma SquashStep(t: seq<nat>, s: seq<nat>, k: nat, pos: nat)
    requires 1 <= pos < |t| && k + 1 <= pos && (Squashed(t, s, k, pos) || (Squashed(t, s, k, 0) && pos == k + 1))
    ensures |s| == |t| && Squashed(t, s[pos - 1 := s[pos]], k, pos + 1)
  {
    assert s[pos] == if Squashed(t, s, k, pos) then SquashCell(t, k, pos, pos) else SquashCell(t, k, 0, pos);
  }

  lemma SquashEnd(t: seq<nat>, s: seq<nat>, k: nat)
    requires k + 1 < |t|
    ensures Squashed(t, s, k, 0) ==> s == t
    ensures Squashed(t, s, k, |t|) ==> |s| == |t| && s[..|t| - 1] == Without(t, k)
  {
    if Squashed(t, s, k, |t|) {
      var x, y := s[..|t| - 1], Without(t, k);
      forall i: nat | i + 1 < |t|
        ensures x[i] == y[i]
      {
        assert s[i] == SquashCell(t, k, |t|, i);
      }
    }
  }

  // Only the bounds of a one-character word around del become equal.
  lemma EqualOnly(s: seq<nat>, n: nat, del: nat, k: nat)
    requires Bounds(s, n) && k + 1 < |s| && s[k] <= del < s[k + 1]
    ensures forall i: nat, j: nat :: i < j < |s| && LowerAll(s, del)[i] == LowerAll(s, del)[j] ==> i == k && j == k + 1
    ensures LowerAll(s, del)[k] == LowerAll(s, del)[k + 1] <==> s[k + 1] == s[k] + 1
    ensures BoundsWithout(s, del, k) == if LowerAll(s, del)[k] == LowerAll(s, del)[k + 1] then
              Without(LowerAll(s, del), k) else LowerAll(s, del)
    ensures k + 1 < |LowerAll(s, del)|
  {
    var t := LowerAll(s, del);
    forall i: nat, j: nat | i < j < |s| && !(i == k && j == k + 1)
      ensures t[i] != t[j]
    {
      LowerMonotone(s, n, del, i, j);
      if i != k {
        LowerDiffers(s, n, del, k, i, j);
      } else {
        LowerMonotone(s, n, del, k, k + 1);
        LowerDiffers(s, n, del, k, k + 1, j);
      }
    }
  }

  lemma LowerMonotone(s: seq<nat>, n: nat, del: nat, a: nat, b: nat)
    requires Bounds(s, n) && a < b < |s|
    ensures Lower(s[a], del) <= Lower(s[b], del)
  {}

  lemma LowerDiffers(s: seq<nat>, n: nat, del: nat, k: nat, a: nat, b: nat)
    requires Bounds(s, n) && k + 1 < |s| && s[k] <= del < s[k + 1] && a < b < |s| && a != k
    ensures Lower(s[a], del) < Lower(s[b], del)
  {
    assert a < k ==> s[a] < s[k];
    assert a > k + 1 ==> s[k + 1] < s[a];
  }

  function Words(strOf: nat -> seq<nat>, ids: seq<nat>): (r: seq<seq<nat>>)
    ensures |r| == |ids|
  {
    seq<seq<nat>>(|ids|, k requires 0 <= k < |ids| => strOf(ids[k]))
  }

  lemma WordsNext(strOf: nat -> seq<nat>, ids: seq<nat>, k: nat)
    requires k < |ids|
    ensures Concat(Words(strOf, ids[..k + 1])) == Concat(Words(strOf, ids[..k])) + strOf(ids[k])
  {
    var w := Words(strOf, ids[..k + 1]);
    assert w[..|w| - 1] == Words(strOf, ids[..k]);
  }

  lemma CharStep(was: seq<nat>, del: nat, pos: nat)
    requires del + pos + 1 < |was|
    ensures var s := was[..del] + was[del + 1..del + 1 + pos] + was[del + pos..];
            s[del + pos := s[del + pos + 1]] == was[..del] + was[del + 1..del + 1 + (pos + 1)] + was[del + (pos + 1)..]
  {}

  // Starts and ids from del to pos have been moved up by one.
  function StartCell(starts: seq<nat>, del: nat, pos: nat, k: nat): int
    requires k < |starts| && del + 1 < |starts|
  {
    if del <= k < pos && k + 1 < |starts| then StartWithout(starts, del, k) else starts[k]
  }

  function IdCell(ids: seq<nat>, del: nat, pos: nat, k: nat): nat
    requires k < |ids|
  {
    if del <= k < pos && k + 1 < |ids| then ids[k + 1] else ids[k]
  }

  ghost predicate StartsMoved(starts: seq<nat>, s: seq<nat>, del: nat, pos: nat) {
    && |s| == |starts| && del + 1 < |starts|
    && forall k: nat :: k < |s| ==> s[k] == StartCell(starts, del, pos, k)
  }

  ghost predicate IdsMoved(ids: seq<nat>, s: seq<nat>, del: nat, pos: nat) {
    |s| == |ids| && forall k: nat :: k < |s| ==> s[k] == IdCell(ids, del, pos, k)
  }

  lemma NothingMoved(starts: seq<nat>, ids: seq<nat>, del: nat)
    requires del + 1 < |starts|
    ensures StartsMoved(starts, starts, del, del) && IdsMoved(ids, ids, del, del)
  {}

  lemma StartsStep(starts: seq<nat>, s: seq<nat>, del: nat, pos: nat)
    requires StartsMoved(starts, s, del, pos) && Increasing(starts) && del <= pos && pos + 1 < |starts|
    ensures |s| == |starts| && s[pos + 1] - (starts[del + 1] - starts[del]) >= 0
    ensures StartsMoved(starts, s[pos := s[pos + 1] - (starts[del + 1] - starts[del])], del, pos + 1)
  {
    assert starts[del + 1] <= starts[pos + 1];
    var next := pos + 1;
    assert s[next] == StartCell(starts, del, pos, next) == starts[next];
  }

  lemma IdsStep(ids: seq<nat>, s: seq<nat>, del: nat, pos: nat)
    requires IdsMoved(ids, s, del, pos) && del <= pos && pos + 1 < |ids|
    ensures |s| == |ids| && IdsMoved(ids, s[pos := s[pos + 1]], del, pos + 1)
  {
    var next := pos + 1;
    assert s[next] == IdCell(ids, del, pos, next) == ids[next];
  }

  lemma AllMoved(starts: seq<nat>, s: seq<nat>, ids: seq<nat>, t: seq<nat>, del: nat, n: nat)
    requires StartsMoved(starts, s, del, n + 1) && IdsMoved(ids, t, del, n) && |starts| == n + 2 && |ids| == n + 1
    requires del <= n
    ensures |s| == n + 2 && |t| == n + 1 && t[..n] == Without(ids, del)
    ensures forall k: nat :: k <= n ==> s[..n + 1][k] == StartWithout(starts, del, k)
  {
    var x, y := t[..n], Without(ids, del);
    forall k: nat | k < n
      ensures x[k] == y[k]
    {
      assert t[k] == IdCell(ids, del, n, k);
    }
    var z := s[..n + 1];
    forall k: nat | k <= n
      ensures z[k] == StartWithout(starts, del, k)
    {
      assert s[k] == StartCell(starts, del, n + 1, k);
    }
  }
}
