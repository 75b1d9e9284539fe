// Segmenting a typed string into spelling ids: the parser walks the trie as far as it can, takes the id
// where it stops, and starts again.

module SpellingParser {
  import opened Limits
  import opened SpellingIds
  import opened Spellings
  import opened ST = SpellingTrie

  // What parsing depends on: the spellings, and what the half ids are good for.
  datatype Conf = Conf(sp: seq<string>, on: bool, enabled: seq<bool>, start: seq<nat>)

  ghost predicate OkConf(c: Conf) { OkList(c.sp) && |c.enabled| == LETTERS && |c.start| == FULL_START }

  // if_valid_id_update: the id to take for a node's id, 0 for none. A vowel that is not enabled as a
  // first letter stands for itself.
  function ValidId(enabled: seq<bool>, start: seq<nat>, id: nat): nat
    requires |enabled| == LETTERS && |start| == FULL_START
  {
    if id == 0 || id >= FULL_START then id
    else
      var ch := HALF_CHARS[id];
      if ch > 'Z' then id
      else if 'A' <= ch && enabled[Slot(ch)] then id
      else if IsYunmuChar(ch) then start[id]
      else 0
  }

  ghost function IndexOf(sp: seq<string>, p: string): (i: nat)
    requires p in sp
    ensures i < |sp| && sp[i] == p
  {
    var i: nat :| i < |sp| && sp[i] == p;
    i
  }

  // The id of the node of a prefix.
  ghost function RawId(c: Conf, p: string): nat {
    if p == [] || !Has(c.sp, p) then 0
    else if HalfOf(c.sp, p, c.on) > 0 then HalfOf(c.sp, p, c.on)
    else if p in c.sp then FULL_START + IndexOf(c.sp, p)
    else 0
  }

  ghost function EndId(c: Conf, p: string): nat
    requires OkConf(c)
  {
    ValidId(c.enabled, c.start, RawId(c, p))
  }

  lemma BeforeItself(s: string)
    ensures !Before(s, s)
  {
    if s != [] {
      BeforeItself(s[1..]);
    }
  }

  lemma NodeIdOnce(c: Conf, p: string, id: nat)
    requires OkConf(c) && p != [] && Has(c.sp, p) && NodeId(c.sp, p, c.on, id)
    ensures id == RawId(c, p)
  {
    if p in c.sp && HalfOf(c.sp, p, c.on) == 0 {
      var i := IndexOf(c.sp, p);
      BeforeItself(p);
    }
  }

  // The longest stretch of letters from `from`, k of them known, that leads through the trie.
  ghost function Munch(c: Conf, s: string, from: nat, k: nat): (n: nat)
    requires from + k <= |s|
    ensures k <= n && from + n <= |s|
    decreases |s| - from - k
  {
    if from + k < |s| && Letter(s[from + k]) && Has(c.sp, Format(s[from..from + k + 1])) then Munch(c, s, from, k + 1)
      else k
  }

  function Skip(s: string, i: nat): (j: nat)
    requires i <= |s|
    ensures i <= j <= |s| && (forall k :: i <= k < j ==> !Letter(s[k])) && (j < |s| ==> Letter(s[j]))
    decreases |s| - i
  {
    if i < |s| && !Letter(s[i]) then Skip(s, i + 1) else i
  }

  // The ids, where the next spelling after each starts, and whether the end may be the start of more.
  datatype Parsed = Parsed(ids: seq<nat>, ends: seq<nat>, pre: bool)

  function More(id: nat, end: nat, r: Parsed): Parsed { Parsed([id] + r.ids, [end] + r.ends, r.pre) }

  // Where the next spelling starts behind one that ends before the text does.
  function Next(s: string, end: nat): (j: nat)
    requires end < |s|
    ensures end <= j <= |s|
  {
    if Letter(s[end]) then end else Skip(s, end + 1)
  }

  lemma NoId(c: Conf, s: string, from: nat)
    requires OkConf(c) && from <= |s|
    ensures EndId(c, Format(s[from..from])) == 0
  {
    assert s[from..from] == [] && Format([]) == [];
    hide OkConf, Format;
  }

  // Maximal munch: the longest stretch must have an id, or parsing ends; splitters behind it are skipped.
  ghost function Parse(c: Conf, s: string, from: nat, max: nat): (r: Parsed)
    requires OkConf(c) && from <= |s| && max > 0
    ensures |r.ids| == |r.ends| <= max
    decreases |s| - from
  {
    var end := from + Munch(c, s, from, 0);
    var id := EndId(c, Format(s[from..end]));
    if from == |s| then Parsed([], [], false)
    else if id == 0 then Parsed([], [], end == |s|)
    else if end == |s| then Parsed([id], [end], true)
    else if max == 1 then Parsed([id], [if Letter(s[end]) then end else end + 1], false)
    else
      NoId(c, s, from);
      More(id, Next(s, end), Parse(c, s, Next(s, end), max - 1))
  }

  // Ids end at rising places.
  lemma {:induction false} EndsRise(c: Conf, s: string, from: nat, max: nat)
    requires OkConf(c) && from <= |s| && max > 0
    ensures var r := Parse(c, s, from, max);
            && (forall i :: 0 <= i < |r.ends| ==> from < r.ends[i] <= |s| && r.ids[i] != 0)
            && forall i, j :: 0 <= i < j < |r.ends| ==> r.ends[i] < r.ends[j]
    decreases |s| - from
  {
    hide *;
    ParseCases(c, s, from, max);
    var end := from + Munch(c, s, from, 0);
    if from < |s| && EndId(c, Format(s[from..end])) != 0 && end < |s| && max > 1 {
      EndsRise(c, s, Next(s, end), max - 1);
    }
  }

  // One step of parsing.
  lemma ParseCases(c: Conf, s: string, from: nat, max: nat)
    requires OkConf(c) && from <= |s| && max > 0
    ensures var end := from + Munch(c, s, from, 0);
            var id, r := EndId(c, Format(s[from..end])), Parse(c, s, from, max);
            && from <= end <= |s| && (id != 0 ==> end > from)
            && (from == |s| ==> r == Parsed([], [], false))
            && (from < |s| && id == 0 ==> r == Parsed([], [], end == |s|))
            && (from < |s| && id != 0 && end == |s| ==> r == Parsed([id], [end], true))
            && (id != 0 && end < |s| && max == 1 ==>
                 r == Parsed([id], [if Letter(s[end]) then end else end + 1], false))
            && (id != 0 && end < |s| && max > 1 ==>
                  && from < Next(s, end) <= |s| && var q := Parse(c, s, Next(s, end), max - 1);
                     r.ids == [id] + q.ids && r.ends == [Next(s, end)] + q.ends && r.pre == q.pre)
  {
    hide *;
    NoId(c, s, from);
    ParseIs(c, s, from, max);
  }

  lemma ParseIs(c: Conf, s: string, from: nat, max: nat)
    requires OkConf(c) && from <= |s| && max > 0
    ensures var end := from + Munch(c, s, from, 0);
            var id := EndId(c, Format(s[from..end]));
            Parse(c, s, from, max) ==
              if from == |s| then Parsed([], [], false)
              else if id == 0 then Parsed([], [], end == |s|)
              else if end == |s| then Parsed([id], [end], true)
              else if max == 1 then Parsed([id], [if Letter(s[end]) then end else end + 1], false)
              else if Next(s, end) <= from then Parse(c, s, from, max)
              else
                var q := Parse(c, s, Next(s, end), max - 1);
                Parsed([id] + q.ids, [Next(s, end)] + q.ends, q.pre)
  {
    hide OkConf, EndId, Munch, Format, Letter, Next;
  }

  // ---- The parser on its way ----

  // So far `ids` were taken, to end at `ends`, and s[from..pos] leads through the trie; behind a
  // splitter the last end still moves on.
  datatype Way = Way(ids: seq<nat>, ends: seq<nat>, splitter: bool, from: nat, pos: nat)

  function SetLast(ends: seq<nat>, end: nat): seq<nat> { if ends == [] then ends else ends[|ends| - 1 := end] }

  // What is left leads to the result.
  ghost predicate OnWay(c: Conf, s: string, max: nat, w: Way) {
    && w.from <= w.pos <= |s| && |w.ids| == |w.ends| < max
    && (if w.splitter then w.ids != [] && w.from == w.pos == w.ends[|w.ends| - 1]
         else w.from < |s| && Letter(s[w.from]))
    && Munch(c, s, w.from, 0) == Munch(c, s, w.from, w.pos - w.from)
    && (w.from < w.pos ==> Has(c.sp, Format(s[w.from..w.pos])))
  }

  ghost predicate Ahead(c: Conf, s: string, max: nat, w: Way, r: Parsed)
    requires OkConf(c) && OnWay(c, s, max, w)
  {
    var next := if w.splitter then Skip(s, w.pos) else w.from;
    var q := Parse(c, s, next, max - |w.ids|);
    && r.ids == w.ids + q.ids && r.pre == q.pre
    && r.ends == (if w.splitter then SetLast(w.ends, next) else w.ends) + q.ends
  }

  ghost predicate Coming(c: Conf, s: string, max: nat, w: Way, r: Parsed) {
    OkConf(c) && OnWay(c, s, max, w) && Ahead(c, s, max, w, r)
  }

  lemma WayParts(c: Conf, s: string, max: nat, w: Way, r: Parsed)
    requires Coming(c, s, max, w, r)
    ensures OkConf(c) && w.from <= w.pos <= |s| && |w.ids| == |w.ends| < max
    ensures if w.splitter then w.ids != [] && w.from == w.pos == w.ends[|w.ends| - 1]
              else w.from < |s| && Letter(s[w.from])
    ensures Munch(c, s, w.from, 0) == Munch(c, s, w.from, w.pos - w.from)
    ensures (w.from < w.pos ==> Has(c.sp, Format(s[w.from..w.pos])))
    ensures var next := if w.splitter then Skip(s, w.pos) else w.from;
            var q := Parse(c, s, next, max - |w.ids|);
            && r.ids == w.ids + q.ids && r.pre == q.pre
            && r.ends == (if w.splitter then SetLast(w.ends, next) else w.ends) + q.ends
  {
    hide OkConf, Munch, Skip, Parse, SetLast;
  }

  lemma IsComing(c: Conf, s: string, max: nat, w: Way, r: Parsed)
    requires OkConf(c) && w.from <= w.pos <= |s| && |w.ids| == |w.ends| < max
    requires if w.splitter then w.ids != [] && w.from == w.pos == w.ends[|w.ends| - 1]
               else w.from < |s| && Letter(s[w.from])
    requires Munch(c, s, w.from, 0) == Munch(c, s, w.from, w.pos - w.from)
    requires (w.from < w.pos ==> Has(c.sp, Format(s[w.from..w.pos])))
    requires var next := if w.splitter then Skip(s, w.pos) else w.from;
             var q := Parse(c, s, next, max - |w.ids|);
             && r.ids == w.ids + q.ids && r.pre == q.pre
             && r.ends == (if w.splitter then SetLast(w.ends, next) else w.ends) + q.ends
    ensures Coming(c, s, max, w, r)
  {
    hide OkConf, Munch, Skip, Parse, SetLast;
  }

  // The walk cannot go on at the next character, or the text ends.
  ghost predicate Stuck(c: Conf, s: string, w: Way)
    requires w.from <= w.pos <= |s|
  {
    w.pos < |s| && Letter(s[w.pos]) ==> !Has(c.sp, Format(s[w.from..w.pos + 1]))
  }

  lemma MunchStuck(c: Conf, s: string, w: Way)
    requires w.from <= w.pos <= |s| && Stuck(c, s, w)
    ensures Munch(c, s, w.from, w.pos - w.from) == w.pos - w.from
  {}

  lemma MunchOn(c: Conf, s: string, from: nat, pos: nat)
    requires from <= pos < |s| && Letter(s[pos]) && Has(c.sp, Format(s[from..pos + 1]))
    ensures Munch(c, s, from, pos - from) == Munch(c, s, from, pos + 1 - from)
  {}

  lemma SkipStep(s: string, i: nat)
    requires i <= |s|
    ensures i < |s| && !Letter(s[i]) ==> Skip(s, i) == Skip(s, i + 1)
    ensures i == |s| || Letter(s[i]) ==> Skip(s, i) == i
  {}

  function Taken(w: Way, id: nat, end: nat,
                 splitter: bool): Way { Way(w.ids + [id], w.ends + [end], splitter, end, end) }

  // An id is taken at a splitter or at a letter the walk does not go on with.
  lemma Take(c: Conf, s: string, max: nat, w: Way, r: Parsed)
    requires Coming(c, s, max, w, r) && w.from <= w.pos < |s| && Stuck(c, s, w) && OkConf(c)
    requires EndId(c, Format(s[w.from..w.pos])) != 0
    ensures !w.splitter && w.from < w.pos
    ensures var id, end := EndId(c, Format(s[w.from..w.pos])), if Letter(s[w.pos]) then w.pos else w.pos + 1;
            if |w.ids| + 1 < max then Coming(c, s, max, Taken(w, id, end, !Letter(s[w.pos])), r)
            else r == Parsed(w.ids + [id], w.ends + [end], false)
  {
    hide *;
    WayParts(c, s, max, w, r);
    MunchStuck(c, s, w);
    NoId(c, s, w.from);
    ParseCases(c, s, w.from, max - |w.ids|);
    if |w.ids| + 1 < max {
      var letter := Letter(s[w.pos]);
      var id, end := EndId(c, Format(s[w.from..w.pos])), if letter then w.pos else w.pos + 1;
      var w', next := Taken(w, id, end, !letter), Next(s, w.pos);
      TakenIs(w, id, end, !letter, next);
      NextIs(s, w.pos);
      MunchNone(c, s, end);
      IsComing(c, s, max, w', r);
    }
  }

  lemma TakenIs(w: Way, id: nat, end: nat, splitter: bool, next: nat)
    ensures Taken(w, id, end, splitter) == Way(w.ids + [id], w.ends + [end], splitter, end, end)
    ensures SetLast(w.ends + [end], next) == w.ends + [next]
  {}

  lemma NextIs(s: string, end: nat)
    requires end < |s|
    ensures Next(s, end) == if Letter(s[end]) then end else Skip(s, end + 1)
  {}

  lemma MunchNone(c: Conf, s: string, from: nat)
    requires from <= |s|
    ensures Munch(c, s, from, 0) == Munch(c, s, from, from - from)
  {}

  // Another splitter behind one.
  lemma SkipOne(c: Conf, s: string, max: nat, w: Way, r: Parsed)
    requires Coming(c, s, max, w, r) && w.splitter && w.pos < |s| && !Letter(s[w.pos])
    ensures Coming(c, s, max, Way(w.ids, SetLast(w.ends, w.pos + 1), true, w.pos + 1, w.pos + 1), r)
  {
    hide *;
    WayParts(c, s, max, w, r);
    SkipStep(s, w.pos);
    LastTwice(w.ends, w.pos + 1, Skip(s, w.pos));
    MunchNone(c, s, w.pos + 1);
    IsComing(c, s, max, Way(w.ids, SetLast(w.ends, w.pos + 1), true, w.pos + 1, w.pos + 1), r);
  }

  lemma LastTwice(ends: seq<nat>, a: nat, b: nat)
    requires ends != []
    ensures SetLast(SetLast(ends, a), b) == SetLast(ends, b) && |SetLast(ends, a)| == |ends|
    ensures SetLast(ends, a)[|ends| - 1] == a
  {}

  lemma SetLastIs(ends: seq<nat>, end: nat)
    requires ends != []
    ensures SetLast(ends, end) == ends[..|ends| - 1] + [end]
  {}

  lemma LastSame(ends: seq<nat>)
    requires ends != []
    ensures SetLast(ends, ends[|ends| - 1]) == ends
  {}

  // A letter ends the splitters.
  lemma LetterComes(c: Conf, s: string, max: nat, w: Way, r: Parsed)
    requires Coming(c, s, max, w, r) && w.pos < |s| && Letter(s[w.pos])
    ensures Coming(c, s, max, w.(splitter := false), r)
  {
    hide *;
    WayParts(c, s, max, w, r);
    SkipStep(s, w.pos);
    if w.splitter {
      LastSame(w.ends);
    }
    IsComing(c, s, max, w.(splitter := false), r);
  }

  // One letter further.
  lemma StepOn(c: Conf, s: string, max: nat, w: Way, r: Parsed)
    requires Coming(c, s, max, w, r) && !w.splitter && w.from <= w.pos < |s| && Letter(s[w.pos])
    requires Has(c.sp, Format(s[w.from..w.pos + 1]))
    ensures Coming(c, s, max, w.(pos := w.pos + 1), r)
  {
    hide *;
    WayParts(c, s, max, w, r);
    MunchOn(c, s, w.from, w.pos);
    IsComing(c, s, max, w.(pos := w.pos + 1), r);
  }

  // No id where the walk stops: parsing ends.
  lemma Stop(c: Conf, s: string, max: nat, w: Way, r: Parsed)
    requires Coming(c, s, max, w, r) && !w.splitter && w.from <= w.pos < |s| && Stuck(c, s, w) && OkConf(c)
    requires EndId(c, Format(s[w.from..w.pos])) == 0
    ensures r == Parsed(w.ids, w.ends, false)
  {
    hide *;
    WayParts(c, s, max, w, r);
    MunchStuck(c, s, w);
    ParseCases(c, s, w.from, max - |w.ids|);
  }

  // The end of the text.
  lemma End(c: Conf, s: string, max: nat, w: Way, r: Parsed)
    requires Coming(c, s, max, w, r) && w.from <= w.pos == |s| && OkConf(c)
    ensures var id := EndId(c, Format(s[w.from..w.pos]));
            r == if id != 0 then Parsed(w.ids + [id], w.ends + [w.pos], !w.splitter)
              else Parsed(w.ids, w.ends, !w.splitter)
  {
    hide *;
    WayParts(c, s, max, w, r);
    StuckEnd(c, s, w);
    MunchStuck(c, s, w);
    NoId(c, s, w.from);
    SkipStep(s, w.pos);
    if w.splitter {
      LastSame(w.ends);
    }
    ParseCases(c, s, w.from, max - |w.ids|);
  }

  lemma StuckEnd(c: Conf, s: string, w: Way)
    requires w.from <= w.pos == |s|
    ensures Stuck(c, s, w)
  {}

  lemma Start(c: Conf, s: string, max: nat)
    requires OkConf(c) && s != [] && Letter(s[0]) && max > 0
    ensures Coming(c, s, max, Way([], [], false, 0, 0), Parse(c, s, 0, max))
  {
    hide OkConf, Munch, Parse;
    MunchNone(c, s, 0);
  }

  // ---- The walk through the trie ----

  predicate SameLetter(a: char, b: char) { a == b || a as int - b as int == 'a' as int - 'A' as int
    || b as int - a as int == 'a' as int - 'A' as int }

  // The node of a prefix: the root of none.
  ghost predicate NodeOf(root: SNode, s: Source, p: string, n: SNode)
    requires OkSource(s)
  {
    if p == [] then n == root else Stands(n, s, p)
  }

  // A formatted string grown by a letter.
  lemma FormatMore(s: string, from: nat, pos: nat)
    requires from <= pos < |s| && Letters(s[from..pos + 1])
    ensures Format(s[from..pos + 1]) == Format(s[from..pos]) + [FormatAt(s[from..pos + 1], pos - from)]
    ensures Letter(FormatAt(s[from..pos + 1], pos - from)) && SameLetter(FormatAt(s[from..pos + 1], pos - from), s[pos])
  {
    var a, b := s[from..pos], s[from..pos + 1];
    assert b == a + [s[pos]] && Letter(b[pos - from]);
  }

  // A spelling's next character is the formatted one if the letter is the same.
  lemma NextFormatted(t: string, p: string, ch: char, f: char)
    requires IsSpelling(t) && p < t && Letter(ch) && SameLetter(t[|p|], ch)
    requires f == (var u := Upper(ch); if |p| == 1 && u == 'H' && p[0] in {'C', 'S', 'Z'} then 'h' else u)
    ensures t[|p|] == f
  {
    var n := |p|;
    assert Letter(t[n]) && t[n] == Format(t)[n] == FormatAt(t, n) && Upper(t[n]) == Upper(ch);
    assert t[0] == Format(t)[0] == FormatAt(t, 0) == Upper(t[0]);
    if n == 1 {
      assert p[0] == t[..n][0];
    }
  }

  // The formatted character depends on the letter and the formatted letters before it.
  lemma FormatNext(s: string, from: nat, pos: nat)
    requires from <= pos < |s| && Letters(s[from..pos + 1])
    ensures var p, u := Format(s[from..pos]), Upper(s[pos]);
            FormatAt(s[from..pos + 1], pos - from) == if |p| == 1 && u == 'H' && p[0] in {'C', 'S', 'Z'} then 'h' else u
  {
    var a, b := s[from..pos], s[from..pos + 1];
    assert b == a + [s[pos]];
    if pos > from {
      assert Format(a)[0] == FormatAt(a, 0) == Upper(a[0]) == Upper(b[0]);
    }
  }

  // The sons of a node that match a letter: that of the formatted character, if the list goes on so.
  lemma SonFor(n: SNode, s: Source, str: string, from: nat, pos: nat)
    requires OkSource(s) && from <= pos < |str| && Letters(str[from..pos + 1]) && SonsFor(n, s, Format(str[from..pos]))
    ensures var p, q := Format(str[from..pos]), Format(str[from..pos + 1]);
            && (forall k :: 0 <= k < |n.sons| && SameLetter(n.sons[k].ch, str[pos]) ==>
                 Stands(n.sons[k], s, q) && Has(s.sp, q))
            && (Has(s.sp, q) ==> exists k :: 0 <= k < |n.sons| && SameLetter(n.sons[k].ch, str[pos]))
  {
    var p, q := Format(str[from..pos]), Format(str[from..pos + 1]);
    FormatMore(str, from, pos);
    FormatNext(str, from, pos);
    var f := FormatAt(str[from..pos + 1], pos - from);
    assert str[from..pos + 1][pos - from] == str[pos];
    var u := Upper(str[pos]);
    assert f == if |p| == 1 && u == 'H' && p[0] in {'C', 'S', 'Z'} then 'h' else u;
    hide *;
    SonsParts(n, s, p);
    forall k | 0 <= k < |n.sons| && SameLetter(n.sons[k].ch, str[pos])
      ensures Stands(n.sons[k], s, q) && Has(s.sp, q)
    {
      StandsHas(n.sons[k], s, p + [n.sons[k].ch]);
      HasNext(s, p, n.sons[k].ch, str[pos], f);
    }
    if Has(s.sp, q) {
      SonThere(n, s, p, f);
    }
  }

  lemma SonsParts(n: SNode, s: Source, p: string)
    requires OkSource(s) && SonsFor(n, s, p)
    ensures forall k :: 0 <= k < |n.sons| ==> Stands(n.sons[k], s, p + [n.sons[k].ch])
  {
    hide OkSource;
  }

  lemma StandsHas(n: SNode, s: Source, q: string)
    requires OkSource(s) && Stands(n, s, q)
    ensures q != [] && Has(s.sp, q) && NodeId(s.sp, q, s.on, n.id) && SonsFor(n, s, q)
  {
    hide OkSource, SonsFor, NodeId;
  }

  // A next character of the list that is the letter is the formatted one.
  lemma HasNext(s: Source, p: string, c: char, ch: char, f: char)
    requires OkSource(s) && Has(s.sp, p + [c]) && Letter(ch) && SameLetter(c, ch)
    requires f == (var u := Upper(ch); if |p| == 1 && u == 'H' && p[0] in {'C', 'S', 'Z'} then 'h' else u)
    ensures c == f
  {
    var r := p + [c];
    var i :| 0 <= i < |s.sp| && r <= s.sp[i];
    assert r[..|p|] == p && s.sp[i][..|p|] == s.sp[i][..|r|][..|p|] && s.sp[i][|p|] == s.sp[i][..|r|][|p|];
    assert IsSpelling(s.sp[i]);
    hide OkSource, IsSpelling;
    NextFormatted(s.sp[i], p, ch, f);
  }

  lemma SonThere(n: SNode, s: Source, p: string, f: char)
    requires OkSource(s) && SonsFor(n, s, p) && Has(s.sp, p + [f])
    ensures exists k :: 0 <= k < |n.sons| && n.sons[k].ch == f
  {
    hide OkSource, Stands;
    var r := p + [f];
    var i :| 0 <= i < |s.sp| && r <= s.sp[i];
    assert r[..|p|] == p && s.sp[i][..|p|] == s.sp[i][..|r|][..|p|] && s.sp[i][|p|] == s.sp[i][..|r|][|p|];
  }

  function WholeId(start: seq<nat>, id: nat): nat
    requires |start| == FULL_START
  {
    if IsHalfYunmu(id) then start[id] else id
  }

  function WholeIds(start: seq<nat>, ids: seq<nat>): (r: seq<nat>)
    requires |start| == FULL_START
    ensures |r| == |ids| && forall k :: 0 <= k < |ids| ==> r[k] == WholeId(start, ids[k])
  {
    seq(|ids|, k requires 0 <= k < |ids| => WholeId(start, ids[k]))
  }

  // A parse with its vowels as full ids.
  function Whole(c: Conf, r: Parsed): Parsed
    requires |c.start| == FULL_START
  {
    Parsed(WholeIds(c.start, r.ids), r.ends, r.pre && !(r.ids != [] && IsHalfYunmu(r.ids[|r.ids| - 1])))
  }

  lemma WholeIs(c: Conf, r: Parsed)
    requires |c.start| == FULL_START
    ensures Whole(c, r) ==
              Parsed(WholeIds(c.start, r.ids), r.ends, r.pre && !(|r.ids| > 0 && IsHalfYunmu(r.ids[|r.ids| - 1])))
  {}

  // The id of a text that is one spelling, as far as the trie goes, with splitters behind it; else 0.
  ghost function SplidOf(c: Conf, s: string): nat
    requires OkConf(c)
  {
    var k := Munch(c, s, 0, 0);
    if s != [] && Skip(s, k) == |s| then EndId(c, Format(s[..k])) else 0
  }

  lemma MunchLetters(c: Conf, s: string, from: nat, k: nat)
    requires from + k <= |s|
    ensures forall i :: from + k <= i < from + Munch(c, s, from, k) ==> Letter(s[i])
    decreases |s| - from - k
  {
    if from + k < |s| && Letter(s[from + k]) && Has(c.sp, Format(s[from..from + k + 1])) {
      MunchLetters(c, s, from, k + 1);
    }
  }

  lemma SplidIs(c: Conf, s: string)
    requires OkConf(c)
    ensures s != [] && Letter(s[0]) ==>
              var r := Parse(c, s, 0, 2);
              var id := if |r.ids| == 1 && r.ends[0] == |s| then r.ids[0] else 0;
              SplidOf(c, s) == id && (id > 0 ==> r.pre == Letter(s[|s| - 1]))
    ensures s == [] || !Letter(s[0]) ==> SplidOf(c, s) == 0
  {
    hide OkConf, EndId, Parse, Format;
    var k := Munch(c, s, 0, 0);
    MunchLetters(c, s, 0, 0);
    NoId(c, s, 0);
    assert s[0..k] == s[..k] && s[0..0] == s[..0];
    ParseCases(c, s, 0, 2);
    if k < |s| {
      SkipStep(s, k);
      ParseCases(c, s, Next(s, k), 1);
    }
  }

  // get_splid_by_str's prefix flag: that of parsing for two ids, left alone if parsing does not start.
  ghost function PreOf(c: Conf, s: string, pre0: bool): bool
    requires OkConf(c)
  {
    if s == [] || !Letter(s[0]) then pre0 else Parse(c, s, 0, 2).pre
  }

  lemma PreOfIs(c: Conf, s: string, pre0: bool)
    requires OkConf(c)
    ensures PreOf(c, s, pre0) == if s == [] || !Letter(s[0]) then pre0 else Parse(c, s, 0, 2).pre
  {}

  // It is set exactly when the first stretch, or the second behind an id, leads through the trie up to the
  // end of the text, whether or not there is an id for it there.
  lemma PreMeans(c: Conf, s: string)
    requires OkConf(c)
    ensures var k := Munch(c, s, 0, 0);
            PreOf(c, s, false) <==>
              && s != [] && Letter(s[0])
              && (k == |s| || (EndId(c, Format(s[..k])) != 0 && Next(s, k) < |s|
                               && Next(s, k) + Munch(c, s, Next(s, k), 0) == |s|))
  {
    hide OkConf, EndId, Parse, Format;
    var k := Munch(c, s, 0, 0);
    MunchLetters(c, s, 0, 0);
    NoId(c, s, 0);
    assert s[0..k] == s[..k] && s[0..0] == s[..0];
    ParseCases(c, s, 0, 2);
    if k < |s| {
      ParseCases(c, s, Next(s, k), 1);
    }
  }

  // ---- Printing and parsing ----

  // The spellings of full ids with spaces between them.
  function Joined(sp: seq<string>, ids: seq<nat>): (s: string)
    requires FullIds(sp, ids)
  {
    if ids == [] then []
    else if |ids| == 1 then sp[ids[0] - FULL_START]
    else sp[ids[0] - FULL_START] + " " + Joined(sp, ids[1..])
  }

  // A half id that is also a spelling's prefix must be a vowel's, whose first full id is the vowel itself.
  predicate Faithful(c: Conf, x: string) {
    HalfOf(c.sp, x, c.on) == 0 || IsHalfYunmu(HalfOf(c.sp, x, c.on))
  }

  // The half ids' first full ids are those of the trie.
  ghost predicate Ranged(c: Conf) {
    OkConf(c) && forall h: nat :: 0 < h < FULL_START ==> RangedAt(c, h)
  }

  ghost predicate RangedAt(c: Conf, h: nat)
    requires OkConf(c) && 0 < h < FULL_START
  {
    exists num: nat :: RangeRight(c.sp, c.on, h, c.start[h], num)
  }

  lemma Alike(sp: seq<string>, i: nat, j: nat)
    requires OkList(sp) && i < |sp| && j < |sp| && sp[i] == sp[j]
    ensures i == j
  {
    BeforeItself(sp[i]);
  }

  lemma BlockFirst(sp: seq<string>, a: nat, b: nat, i: nat)
    requires OkList(sp) && i < |sp| && Block(sp, a, b, sp[i])
    ensures i == a
  {
    WholeFirst(sp, a, b, sp[i], i);
  }

  // What a spelling alone is read as.
  lemma ReadOne(c: Conf, i: nat)
    requires Ranged(c) && i < |c.sp|
    ensures OkConf(c)
    ensures (EndId(c, c.sp[i]) != 0 && WholeId(c.start, EndId(c, c.sp[i])) == FULL_START + i <==> Faithful(c, c.sp[i]))
    ensures Faithful(c, c.sp[i]) ==> EndId(c, c.sp[i]) != 0
  {
    var x := c.sp[i];
    assert x <= c.sp[i] && IsSpelling(x);
    assert Has(c.sp, x);
    var h := HalfOf(c.sp, x, c.on);
    if h == 0 {
      Alike(c.sp, i, IndexOf(c.sp, x));
    } else {
      assert RangedAt(c, h);
      var num: nat :| RangeRight(c.sp, c.on, h, c.start[h], num);
      BlockFirst(c.sp, c.start[h] - FULL_START, c.start[h] - FULL_START + num, i);
    }
  }
  lemma FormatPrefix(x: string, k: nat)
    requires Format(x) == x && k <= |x|
    ensures Format(x[..k]) == x[..k]
  {
    forall j: nat | j < k
      ensures Format(x[..k])[j] == x[j]
    {
      assert FormatAt(x[..k], j) == FormatAt(x, j) == Format(x)[j];
    }
  }

  // Walking along a spelling goes to its end.
  lemma {:induction false} MunchSpelling(c: Conf, s: string, from: nat, x: string, i: nat, k: nat)
    requires OkConf(c) && i < |c.sp| && c.sp[i] == x && k <= |x| && from + |x| <= |s| && s[from..from + |x|] == x
    requires from + |x| == |s| || !Letter(s[from + |x|])
    ensures Munch(c, s, from, k) == |x|
    decreases |x| - k
  {
    if k < |x| {
      assert IsSpelling(x);
      FormatPrefix(x, k + 1);
      assert s[from..from + k + 1] == x[..k + 1] && x[..k + 1] <= c.sp[i];
      assert Letter(x[k]) && s[from + k] == x[k];
      hide OkConf, Format;
      MunchSpelling(c, s, from, x, i, k + 1);
    }
  }

  lemma JoinedFirst(sp: seq<string>, ids: seq<nat>, s: string, from: nat)
    requires OkList(sp) && ids != [] && FullIds(sp, ids)
    requires from <= |s| && s[from..] == Joined(sp, ids)
    ensures var x := sp[ids[0] - FULL_START];
            && x != [] && Format(x) == x && Letter(x[0]) && from + |x| <= |s| && s[from..from + |x|] == x
            && s[from] == x[0]
            && (|ids| == 1 ==> from + |x| == |s|)
            && (|ids| > 1 ==>
                 from + |x| + 1 <= |s| && s[from + |x|] == ' ' && s[from + |x| + 1..] == Joined(sp, ids[1..]))
  {
    var x, t := sp[ids[0] - FULL_START], s[from..];
    assert IsSpelling(x);
    assert t[..|x|] == x && s[from..from + |x|] == t[..|x|] && t[0] == s[from];
    if |ids| > 1 {
      assert t == x + " " + Joined(sp, ids[1..]);
      assert t[|x|] == ' ' == s[from + |x|] && t[|x| + 1..] == Joined(sp, ids[1..]);
      assert s[from + |x| + 1..] == t[|x| + 1..];
    }
  }

  predicate FullIds(sp: seq<string>,
                    ids: seq<nat>) { forall i :: 0 <= i < |ids| ==> FULL_START <= ids[i] < FULL_START + |sp| }

  predicate AllFaithful(c: Conf, ids: seq<nat>)
    requires FullIds(c.sp, ids)
  {
    forall i :: 0 <= i < |ids| ==> Faithful(c, c.sp[ids[i] - FULL_START])
  }

  // How the text of full ids is parsed: its first spelling, then the rest.
  lemma JoinedParse(c: Conf, ids: seq<nat>, s: string, from: nat, max: nat)
    requires OkConf(c) && 0 < |ids| <= max && FullIds(c.sp, ids)
    requires from <= |s| && s[from..] == Joined(c.sp, ids)
    ensures var x := c.sp[ids[0] - FULL_START];
            var id, r := EndId(c, x), Parse(c, s, from, max);
            && from + |x| <= |s| && (id == 0 ==> r.ids == []) && (id != 0 && |ids| == 1 ==> r.ids == [id])
            && (|ids| > 1 ==> from + |x| + 1 <= |s| && s[from + |x| + 1..] == Joined(c.sp, ids[1..]))
            && (id != 0 && |ids| > 1 ==> r.ids == [id] + Parse(c, s, from + |x| + 1, max - 1).ids)
  {
    hide *;
    SpList(c);
    FaithfulFirst(c, ids);
    JoinedFirst(c.sp, ids, s, from);
    var j: nat := ids[0] - FULL_START;
    var x := c.sp[j];
    Space();
    MunchSpelling(c, s, from, x, j, 0);
    if |ids| > 1 {
      JoinedNext(c, ids, s, from);
    }
    ParseCases(c, s, from, max);
  }

  // Behind the first spelling and its space the next one starts.
  lemma JoinedNext(c: Conf, ids: seq<nat>, s: string, from: nat)
    requires OkConf(c) && |ids| > 1 && FullIds(c.sp, ids) && from <= |s| && s[from..] == Joined(c.sp, ids)
    ensures var end := from + |c.sp[ids[0] - FULL_START]|; end < |s| && !Letter(s[end]) && Next(s, end) == end + 1
  {
    hide *;
    SpList(c);
    FaithfulFirst(c, ids);
    JoinedFirst(c.sp, ids, s, from);
    var end := from + |c.sp[ids[0] - FULL_START]|;
    Space();
    JoinedFirst(c.sp, ids[1..], s, end + 1);
    NextIs(s, end);
    SkipStep(s, end + 1);
  }

  // Parsing what was printed gives the full ids back exactly when each spelling is read as itself.
  lemma {:induction false} PrintParse(c: Conf, ids: seq<nat>, s: string, from: nat, max: nat)
    requires Ranged(c) && OkConf(c) && 0 < |ids| <= max && FullIds(c.sp, ids)
    requires from <= |s| && s[from..] == Joined(c.sp, ids)
    ensures WholeIds(c.start, Parse(c, s, from, max).ids) == ids <==>
              AllFaithful(c, ids)
    decreases |ids|
  {
    hide *;
    SpList(c);
    JoinedParse(c, ids, s, from, max);
    FaithfulFirst(c, ids);
    var j: nat := ids[0] - FULL_START;
    var x := c.sp[j];
    ReadOne(c, j);
    NoneFaithful(c);
    var id := EndId(c, x);
    assert ids == [ids[0]] + ids[1..];
    if id == 0 {
      assert !Faithful(c, x);
    } else if |ids| == 1 {
      OneWhole(c, id);
    } else {
      PrintParse(c, ids[1..], s, from + |x| + 1, max - 1);
      var qs := Parse(c, s, from + |x| + 1, max - 1).ids;
      MoreWhole(c, id, qs);
      ConsSame(WholeId(c.start, id), WholeIds(c.start, qs), ids[0], ids[1..]);
    }
  }

  lemma ConsSame(a: nat, s: seq<nat>, b: nat, t: seq<nat>)
    ensures [a] + s == [b] + t <==> a == b && s == t
  {
    if [a] + s == [b] + t {
      assert ([a] + s)[0] == ([b] + t)[0] && ([a] + s)[1..] == ([b] + t)[1..];
    }
  }

  lemma SpList(c: Conf)
    requires OkConf(c)
    ensures OkList(c.sp) && |c.start| == FULL_START
  {}

  lemma Space()
    ensures !Letter(' ')
  {}

  lemma OneWhole(c: Conf, id: nat)
    requires |c.start| == FULL_START
    ensures WholeIds(c.start, [id]) == [WholeId(c.start, id)]
  {}

  lemma MoreWhole(c: Conf, id: nat, ids: seq<nat>)
    requires |c.start| == FULL_START
    ensures WholeIds(c.start, [id] + ids) == [WholeId(c.start, id)] + WholeIds(c.start, ids)
  {}

  lemma NoneFaithful(c: Conf)
    ensures FullIds(c.sp, []) && AllFaithful(c, [])
  {}

  lemma FaithfulFirst(c: Conf, ids: seq<nat>)
    requires FullIds(c.sp, ids) && ids != []
    ensures FullIds(c.sp, ids[1..]) && FULL_START <= ids[0] < FULL_START + |c.sp|
    ensures AllFaithful(c, ids) <==> Faithful(c, c.sp[ids[0] - FULL_START]) && AllFaithful(c, ids[1..])
  {
    hide Faithful;
    forall i | 1 <= i < |ids|
      ensures ids[i] == ids[1..][i - 1]
    {}
  }

  // With a space behind each.
  function Spaced(sp: seq<string>, ids: seq<nat>): string
    requires FullIds(sp, ids)
  {
    if ids == [] then [] else sp[ids[0] - FULL_START] + " " + Spaced(sp, ids[1..])
  }

  lemma {:induction false} SpacedMore(sp: seq<string>, ids: seq<nat>, id: nat)
    requires FullIds(sp, ids) && FULL_START <= id < FULL_START + |sp|
    ensures Spaced(sp, ids + [id]) == Spaced(sp, ids) + sp[id - FULL_START] + " "
  {
    if ids == [] {
      assert [id][1..] == [];
    } else {
      SpacedMore(sp, ids[1..], id);
      assert (ids + [id])[1..] == ids[1..] + [id];
    }
  }

  lemma {:induction false} SpacedJoined(sp: seq<string>, ids: seq<nat>)
    requires ids != [] && FullIds(sp, ids)
    ensures Spaced(sp, ids) == Joined(sp, ids) + " "
  {
    if |ids| > 1 {
      SpacedJoined(sp, ids[1..]);
    } else {
      assert ids[1..] == [];
    }
  }

  // Where level1_sons_ has a letter.
  function TableSlot(ch: char): (c: nat)
    requires Letter(ch)
    ensures c < LETTERS
  {
    if ch >= 'a' then ch as int - 'a' as int else ch as int - 'A' as int
  }

  lemma OneMore(s: string, from: nat, pos: nat)
    requires from <= pos < |s| && Letters(s[from..pos]) && Letter(s[pos])
    ensures Letters(s[from..pos + 1])
  {
    assert s[from..pos + 1] == s[from..pos] + [s[pos]];
  }

  lemma StuckAt(c: Conf, s: string, w: Way)
    requires w.from <= w.pos < |s| && (!Letter(s[w.pos]) || !Has(c.sp, Format(s[w.from..w.pos + 1])))
    ensures Stuck(c, s, w)
  {}

  class SpellingParser {
    const trie: ST.SpellingTrie

    constructor (trie: ST.SpellingTrie)
      ensures this.trie == trie
    {
      this.trie := trie;
    }

    ghost function C(): Conf
      reads trie
    {
      Conf(trie.list, trie.on, trie.enabled, trie.h2fStart)
    }

    // The node of what was walked.
    ghost predicate Here(s: string, from: nat, pos: nat, n: SNode)
      reads trie
    {
      && from <= pos <= |s| && Letters(s[from..pos]) && OkSource(trie.Src())
      && NodeOf(trie.root, trie.Src(), Format(s[from..pos]), n)
    }

    lemma BuiltFacts()
      requires trie.Built()
      ensures OkConf(C()) && OkSource(trie.Src()) && trie.Src().sp == C().sp && trie.Src().on == C().on
      ensures |trie.enabled| == LETTERS && |trie.h2fStart| == |trie.h2fNum| == FULL_START
      ensures C().sp == trie.list && C().enabled == trie.enabled && C().start == trie.h2fStart
    {
      hide OkList;
    }

    // A vowel's half id stands for at least one full id.
    lemma RawRange(p: string)
      requires trie.Built() && OkConf(C()) && |trie.h2fStart| == |trie.h2fNum| == FULL_START
      ensures var id := RawId(C(), p);
              0 < id < FULL_START ==> trie.h2fNum[id] > 0 && trie.h2fStart[id] >= FULL_START
    {
      var id := RawId(C(), p);
      if 0 < id < FULL_START {
        assert HalfStr(id) == p && HalfOf(trie.list, p, trie.on) == id;
        assert [] < HalfStr(id);
        assert RangeRight(trie.list, trie.on, id, trie.h2fStart[id], trie.h2fNum[id]);
      }
    }

    // if_valid_id_update
    method IfValidIdUpdate(id0: nat) returns (ok: bool, id: nat)
      requires |trie.enabled| == LETTERS && |trie.h2fStart| == |trie.h2fNum| == FULL_START
      requires 0 < id0 < FULL_START ==> trie.h2fNum[id0] > 0 && trie.h2fStart[id0] > 0
      ensures ok == (ValidId(trie.enabled, trie.h2fStart, id0) != 0)
      ensures (ok ==> id == ValidId(trie.enabled, trie.h2fStart, id0))
    {
      id := id0;
      if id == 0 {
        return false, id;
      }
      if id >= FULL_START {
        return true, id;
      }
      var ch := HALF_CHARS[id];
      if ch > 'Z' {
        return true, id;
      }
      if trie.enabled[Slot(ch)] {
        return true, id;
      } else if IsYunmuChar(ch) {
        return true, trie.h2fStart[id];
      }
      return false, id;
    }

    // The id of the node walked to.
    method IdHere(node: SNode, ghost s: string, ghost from: nat, ghost pos: nat) returns (ok: bool, id: nat)
      requires trie.Built() && Here(s, from, pos, node) && OkConf(C())
      ensures from <= pos <= |s|
      ensures ok == (EndId(C(), Format(s[from..pos])) != 0) && (ok ==> id == EndId(C(), Format(s[from..pos])))
    {
      hide *;
      BuiltFacts();
      HereId(s, from, pos, node);
      RawRange(Format(s[from..pos]));
      ok, id := IfValidIdUpdate(node.id);
      EndIdIs(C(), Format(s[from..pos]));
    }

    lemma HereId(s: string, from: nat, pos: nat, node: SNode)
      requires trie.Built() && Here(s, from, pos, node) && OkConf(C())
      ensures from <= pos <= |s| && node.id == RawId(C(), Format(s[from..pos]))
    {
      var p := Format(s[from..pos]);
      if p != [] {
        StandsHas(node, trie.Src(), p);
        NodeIdOnce(C(), p, node.id);
      }
      hide OkList, SonsFor, Stands, LongerRight, Last, FirstTo;
    }

    // A letter's son of the root by the table, elsewhere by a scan.
    method FindSon(node: SNode, ch: char, atStart: bool, ghost s: string, ghost from: nat, ghost pos: nat)
      returns (found: bool, son: SNode)
      requires trie.Built() && OkConf(C()) && Here(s, from, pos, node) && from <= pos < |s| && s[pos] == ch
      requires Letter(ch)
      requires atStart ==> pos == 0
      ensures found == Has(C().sp, Format(s[from..pos + 1]))
      ensures found ==> Here(s, from, pos + 1, son)
    {
      hide *;
      BuiltFacts();
      SonsHere(s, from, pos, node);
      OneMore(s, from, pos);
      SonFor(node, trie.Src(), s, from, pos);
      son, found := node, false;
      if atStart {
        FirstHere(s, from, pos, node, ch);
        var c := TableSlot(ch);
        if trie.level1[c] != 0 {
          found, son := true, trie.root.sons[trie.level1[c] - 1];
        }
      } else {
        for k := 0 to |node.sons|
          invariant !found && forall j :: 0 <= j < k ==> !SameLetter(node.sons[j].ch, ch)
        {
          if SameLetter(node.sons[k].ch, ch) {
            found, son := true, node.sons[k];
            break;
          }
        }
      }
      if found {
        IsHere(s, from, pos + 1, son);
      }
    }

    lemma SonsHere(s: string, from: nat, pos: nat, node: SNode)
      requires trie.Built() && Here(s, from, pos, node)
      ensures OkSource(trie.Src()) && SonsFor(node, trie.Src(), Format(s[from..pos])) && Letters(s[from..pos])
    {
      if Format(s[from..pos]) != [] {
        StandsHas(node, trie.Src(), Format(s[from..pos]));
      }
      hide OkList, SonsFor, Stands, LongerRight, Last, FirstTo;
    }

    lemma FirstHere(s: string, from: nat, pos: nat, node: SNode, ch: char)
      requires trie.Built() && Here(s, from, pos, node) && pos == 0 && Letter(ch)
      ensures node == trie.root && |trie.level1| == LETTERS
      ensures var k := trie.level1[TableSlot(ch)];
              if k != 0 then k <= |trie.root.sons| && SameLetter(trie.root.sons[k - 1].ch, ch)
              else forall j :: 0 <= j < |trie.root.sons| ==> !SameLetter(trie.root.sons[j].ch, ch)
    {
      var c := TableSlot(ch);
      assert Format(s[from..pos]) == [];
      assert FirstAt(trie.level1[c], trie.root.sons, |trie.root.sons|, c);
      if trie.level1[c] == 0 {
        forall j: nat | j < |trie.root.sons|
          ensures !SameLetter(trie.root.sons[j].ch, ch)
        {
          assert FirstIs(trie.level1, trie.root.sons[j].ch, j + 1);
        }
      }
      hide OkList, SonsFor, Stands, LongerRight, Last;
    }

    lemma IsHere(s: string, from: nat, pos: nat, node: SNode)
      requires from < pos <= |s| && Letters(s[from..pos]) && OkSource(trie.Src())
      requires Stands(node, trie.Src(), Format(s[from..pos]))
      ensures Here(s, from, pos, node)
    {
      hide OkSource, Stands;
    }

    lemma RootHere(s: string, at: nat)
      requires trie.Built() && at <= |s|
      ensures Here(s, at, at, trie.root)
    {
      hide OkList, SonsFor, Stands, LongerRight, Last, FirstTo;
    }

    lemma HereRoot(s: string, at: nat, node: SNode)
      requires Here(s, at, at, node)
      ensures node == trie.root
    {
      hide OkSource, Stands;
    }

    // Spelling id and end number num.
    method StoreId(splIdx: array<nat>, startPos: array<nat>, num0: nat, id: nat, pos: nat) returns (num: nat)
      requires num0 < splIdx.Length && num0 + 1 < startPos.Length && splIdx != startPos
      modifies splIdx, startPos
      ensures num == num0 + 1 && splIdx[..num] == old(splIdx[..num0]) + [id] && startPos[0] == old(startPos[0])
      ensures startPos[1..num + 1] == old(startPos[1..num0 + 1]) + [pos]
    {
      splIdx[num0] := id;
      num := num0 + 1;
      startPos[num] := pos;
    }

    method MoveEnd(startPos: array<nat>, num: nat, pos: nat)
      requires 0 < num < startPos.Length
      modifies startPos
      ensures startPos[0] == old(startPos[0]) && startPos[1..num + 1] == old(startPos[1..num]) + [pos]
      ensures startPos[1..num + 1] == old(startPos[1..num + 1])[..num - 1] + [pos]
    {
      startPos[num] := pos;
    }

    // What the arrays hold is what was parsed.
    ghost predicate Done(r: Parsed, max: nat, num: nat, pre: bool, splIdx: array<nat>, startPos: array<nat>)
      reads splIdx, startPos
    {
      && num <= max <= splIdx.Length && max < startPos.Length && splIdx != startPos
      && startPos[0] == 0 && r == Parsed(splIdx[..num], startPos[1..num + 1], pre)
    }

    // The state of the loop.
    ghost predicate Looping(s: string, max: nat, r: Parsed, w: Way, node: SNode, num: nat, splIdx: array<nat>,
                            startPos: array<nat>)
      reads trie, splIdx, startPos
    {
      && trie.Built() && OkConf(C()) && Coming(C(), s, max, w, r) && Here(s, w.from, w.pos, node)
      && num < max <= splIdx.Length && max < startPos.Length && splIdx != startPos
      && startPos[0] == 0 && w.ids == splIdx[..num] && w.ends == startPos[1..num + 1]
    }

    // The walk ends: its id is taken, if it has one, to be followed at `next`.
    method EndSpelling(node: SNode, num0: nat, next: nat, s: string, splIdx: array<nat>, startPos: array<nat>,
                       ghost max: nat, ghost r: Parsed, ghost w: Way)
      returns (ok: bool, num: nat, ghost w': Way)
      requires Looping(s, max, r, w, node, num0, splIdx, startPos) && w.from <= w.pos < |s| && Stuck(C(), s, w)
      requires next == if Letter(s[w.pos]) then w.pos else w.pos + 1
      modifies splIdx, startPos
      ensures ok && num < max ==>
                w'.from == w'.pos == next && w'.splitter == !Letter(s[w.pos])
                  && Looping(s, max, r, w', trie.root, num, splIdx, startPos)
      ensures ok ==> w.from < w.pos && (num >= max ==> Done(r, max, num, false, splIdx, startPos))
      ensures !ok ==>
                && num == num0 && Looping(s, max, r, w, node, num, splIdx, startPos)
                && (!w.splitter ==> Done(r, max, num, false, splIdx, startPos))
    {
      hide *;
      LoopingParts(s, max, r, w, node, num0, splIdx, startPos);
      num, w' := num0, w;
      var id;
      ok, id := IdHere(node, s, w.from, w.pos);
      if ok {
        Take(C(), s, max, w, r);
        TakenIs(w, id, next, !Letter(s[w.pos]), next);
        num := StoreId(splIdx, startPos, num, id, next);
        w' := Way(w.ids + [id], w.ends + [next], !Letter(s[w.pos]), next, next);
        if num < max {
          RootHere(s, next);
          IsLooping(s, max, r, w', trie.root, num, splIdx, startPos);
        } else {
          IsDone(r, max, num, false, splIdx, startPos);
        }
      } else if !w.splitter {
        Stop(C(), s, max, w, r);
        IsDone(r, max, num, false, splIdx, startPos);
      }
    }

    // One more splitter behind a spelling.
    method SkipSplitter(ghost node: SNode, num: nat, pos: nat, ghost s: string, ghost splIdx: array<nat>,
                        startPos: array<nat>, ghost max: nat, ghost r: Parsed, ghost w: Way)
      returns (ghost w': Way)
      requires Looping(s, max, r, w, node, num, splIdx, startPos) && pos == w.pos < |s| && !Letter(s[w.pos])
      requires w.splitter
      modifies startPos
      ensures w'.from == w'.pos == w.pos + 1 && w'.splitter && Looping(s, max, r, w', node, num, splIdx, startPos)
    {
      hide *;
      LoopingParts(s, max, r, w, node, num, splIdx, startPos);
      WayParts(C(), s, max, w, r);
      SkipOne(C(), s, max, w, r);
      SetLastIs(w.ends, w.pos + 1);
      HereRoot(s, w.pos, node);
      MoveEnd(startPos, num, pos + 1);
      w' := Way(w.ids, SetLast(w.ends, w.pos + 1), true, w.pos + 1, w.pos + 1);
      RootHere(s, w.pos + 1);
      IsLooping(s, max, r, w', node, num, splIdx, startPos);
    }

    // A letter that leads on.
    lemma GoOn(s: string, max: nat, r: Parsed, w: Way, node: SNode, son: SNode, num: nat, splIdx: array<nat>,
               startPos: array<nat>)
      requires Looping(s, max, r, w, node, num, splIdx, startPos) && !w.splitter && w.from <= w.pos < |s|
      requires Letter(s[w.pos])
      requires Has(C().sp, Format(s[w.from..w.pos + 1])) && Here(s, w.from, w.pos + 1, son)
      ensures Looping(s, max, r, w.(pos := w.pos + 1), son, num, splIdx, startPos)
    {
      hide *;
      LoopingParts(s, max, r, w, node, num, splIdx, startPos);
      StepOn(C(), s, max, w, r);
      IsLooping(s, max, r, w.(pos := w.pos + 1), son, num, splIdx, startPos);
    }

    lemma LetterLoops(s: string, max: nat, r: Parsed, w: Way, node: SNode, num: nat, splIdx: array<nat>,
                      startPos: array<nat>)
      requires Looping(s, max, r, w, node, num, splIdx, startPos) && w.pos < |s| && Letter(s[w.pos])
      ensures Looping(s, max, r, w.(splitter := false), node, num, splIdx, startPos)
    {
      hide *;
      LoopingParts(s, max, r, w, node, num, splIdx, startPos);
      LetterComes(C(), s, max, w, r);
      IsLooping(s, max, r, w.(splitter := false), node, num, splIdx, startPos);
    }

    lemma LoopingParts(s: string, max: nat, r: Parsed, w: Way, node: SNode, num: nat, splIdx: array<nat>,
                       startPos: array<nat>)
      requires Looping(s, max, r, w, node, num, splIdx, startPos)
      ensures trie.Built() && OkConf(C()) && Coming(C(), s, max, w, r) && w.from <= w.pos <= |s|
      ensures Here(s, w.from, w.pos, node)
      ensures num < max <= splIdx.Length && max < startPos.Length && splIdx != startPos
      ensures startPos[0] == 0 && w.ids == splIdx[..num] && w.ends == startPos[1..num + 1]
      ensures (w.splitter ==> num > 0 && w.from == w.pos)
    {
      WayParts(C(), s, max, w, r);
      hide OkConf, Coming, Here;
    }

    lemma IsLooping(s: string, max: nat, r: Parsed, w: Way, node: SNode, num: nat, splIdx: array<nat>,
                    startPos: array<nat>)
      requires trie.Built() && OkConf(C()) && Coming(C(), s, max, w, r) && Here(s, w.from, w.pos, node)
      requires num < max <= splIdx.Length && max < startPos.Length && splIdx != startPos
      requires startPos[0] == 0 && w.ids == splIdx[..num] && w.ends == startPos[1..num + 1]
      ensures Looping(s, max, r, w, node, num, splIdx, startPos)
    {
      hide OkConf, Coming, Here;
    }

    lemma IsDone(r: Parsed, max: nat, num: nat, pre: bool, splIdx: array<nat>, startPos: array<nat>)
      requires num <= max <= splIdx.Length && max < startPos.Length && splIdx != startPos
      requires startPos[0] == 0 && r == Parsed(splIdx[..num], startPos[1..num + 1], pre)
      ensures Done(r, max, num, pre, splIdx, startPos)
    {}

    // splstr_to_idxs and splstr16_to_idxs
    method SplstrToIdxs(s: string, splIdx: array<nat>, startPos: array<nat>, max: nat, pre0: bool)
      returns (num: nat, pre: bool)
      requires trie.Built() && OkConf(C()) && max <= splIdx.Length && max < startPos.Length && splIdx != startPos
      modifies splIdx, startPos
      ensures s == [] || max == 0 || !Letter(s[0]) ==>
                num == 0 && pre == pre0 && splIdx[..] == old(splIdx[..]) && startPos[..] == old(startPos[..])
      ensures s != [] && max > 0 && Letter(s[0]) ==> Done(Parse(C(), s, 0, max), max, num, pre, splIdx, startPos)
    {
      hide *;
      num, pre := 0, pre0;
      if max == 0 || |s| == 0 {
        return;
      }
      if !Letter(s[0]) {
        return;
      }
      pre := false;
      startPos[0] := 0;
      var node, pos, splitter := trie.root, 0, false;
      ghost var r, w := Parse(C(), s, 0, max), Way([], [], false, 0, 0);
      Start(C(), s, max);
      RootHere(s, 0);
      IsLooping(s, max, r, w, node, num, splIdx, startPos);
      while pos < |s|
        invariant Looping(s, max, r, w, node, num, splIdx, startPos) && w.from <= w.pos == pos <= |s|
        invariant w.splitter == splitter && !pre
        invariant trie.Built() && OkConf(C()) && r == Parse(C(), s, 0, max)
        decreases |s| - pos, pos - w.from
      {
        LoopingParts(s, max, r, w, node, num, splIdx, startPos);
        var ch := s[pos];
        if !Letter(ch) {
          StuckAt(C(), s, w);
          var ok;
          ghost var w';
          ok, num, w' := EndSpelling(node, num, pos + 1, s, splIdx, startPos, max, r, w);
          if ok {
            pos := pos + 1;
            if num >= max {
              return;
            }
            w, node, splitter := w', trie.root, true;
            continue;
          } else {
            if splitter {
              w := SkipSplitter(node, num, pos, s, splIdx, startPos, max, r, w);
              pos := pos + 1;
              continue;
            } else {
              return;
            }
          }
        }
        LetterLoops(s, max, r, w, node, num, splIdx, startPos);
        w, splitter := w.(splitter := false), false;
        var found, son := FindSon(node, ch, pos == 0, s, w.from, pos);
        if found {
          GoOn(s, max, r, w, node, son, num, splIdx, startPos);
          w, node := w.(pos := pos + 1), son;
        } else {
          StuckAt(C(), s, w);
          var ok;
          ghost var w';
          ok, num, w' := EndSpelling(node, num, pos, s, splIdx, startPos, max, r, w);
          if ok {
            if num >= max {
              return;
            }
            w, node := w', trie.root;
            continue;
          } else {
            return;
          }
        }
        pos := pos + 1;
      }
      num, pre := EndText(node, num, splitter, s, splIdx, startPos, max, r, w);
    }

    // The end of the text.
    method EndText(node: SNode, num0: nat, splitter: bool, s: string, splIdx: array<nat>, startPos: array<nat>,
                   ghost max: nat, ghost r: Parsed, ghost w: Way)
      returns (num: nat, pre: bool)
      requires Looping(s, max, r, w, node, num0, splIdx, startPos) && w.pos == |s| && w.splitter == splitter
      modifies splIdx, startPos
      ensures Done(r, max, num, pre, splIdx, startPos)
    {
      hide *;
      LoopingParts(s, max, r, w, node, num0, splIdx, startPos);
      End(C(), s, max, w, r);
      num := num0;
      var ok, id := IdHere(node, s, w.from, |s|);
      if ok {
        num := StoreId(splIdx, startPos, num, id, |s|);
      }
      pre := !splitter;
      IsDone(r, max, num, pre, splIdx, startPos);
    }

    // Vowels given as first letters become full ids, in place.
    method FullVowels(splIdx: array<nat>, num: nat, pre0: bool) returns (pre: bool)
      requires num <= splIdx.Length && |trie.h2fStart| == FULL_START
      modifies splIdx
      ensures splIdx[..num] == WholeIds(trie.h2fStart, old(splIdx[..num])) && splIdx[num..] == old(splIdx[num..])
      ensures pre == (pre0 && !(num > 0 && IsHalfYunmu(old(splIdx[..num])[num - 1])))
    {
      pre := pre0;
      ghost var ids := splIdx[..num];
      for pos: nat := 0 to num
        invariant forall k :: 0 <= k < splIdx.Length ==>
                    splIdx[k] == if k < pos then WholeId(trie.h2fStart, ids[k]) else old(splIdx[k])
        invariant pre == (pre0 && !(num > 0 && pos == num && IsHalfYunmu(ids[num - 1])))
      {
        if IsHalfYunmu(splIdx[pos]) {
          splIdx[pos] := trie.h2fStart[splIdx[pos]];
          if pos == num - 1 {
            pre := false;
          }
        }
      }
    }

    // splstr_to_idxs_f and splstr16_to_idxs_f
    method SplstrToIdxsF(s: string, splIdx: array<nat>, startPos: array<nat>, max: nat, pre0: bool)
      returns (num: nat, pre: bool)
      requires trie.Built() && OkConf(C()) && max <= splIdx.Length && max < startPos.Length && splIdx != startPos
      modifies splIdx, startPos
      ensures s == [] || max == 0 || !Letter(s[0]) ==> num == 0 && pre == pre0
      ensures s != [] && max > 0 && Letter(s[0]) ==>
                Done(Whole(C(), Parse(C(), s, 0, max)), max, num, pre, splIdx, startPos)
    {
      hide *;
      BuiltFacts();
      num, pre := SplstrToIdxs(s, splIdx, startPos, max, pre0);
      NumFits(s, max, num, pre, splIdx, startPos);
      ghost var r := Parsed(splIdx[..num], startPos[1..num + 1], pre);
      pre := FullVowels(splIdx, num, pre);
      WholeIs(C(), r);
      if s != [] && max > 0 && Letter(s[0]) {
        IsDone(Whole(C(), r), max, num, pre, splIdx, startPos);
      }
    }

    lemma NumFits(s: string, max: nat, num: nat, pre: bool, splIdx: array<nat>, startPos: array<nat>)
      requires OkConf(C()) && max <= splIdx.Length && max < startPos.Length && splIdx != startPos
      requires num == 0 || (max > 0 && Done(Parse(C(), s, 0, max), max, num, pre, splIdx, startPos))
      requires s != [] && max > 0 && Letter(s[0]) ==> Done(Parse(C(), s, 0, max), max, num, pre, splIdx, startPos)
      ensures num <= splIdx.Length && num < startPos.Length
      ensures s != [] && max > 0 && Letter(s[0]) ==>
                num <= max && startPos[0] == 0
                  && Parse(C(), s, 0, max) == Parsed(splIdx[..num], startPos[1..num + 1], pre)
    {
      hide OkConf, Parse;
    }

    // get_splid_by_str
    method GetSplidByStr(s: string, pre0: bool) returns (id: nat, pre: bool)
      requires trie.Built() && OkConf(C())
      ensures id == SplidOf(C(), s) && (id > 0 ==> pre == Letter(s[|s| - 1]))
      ensures pre == PreOf(C(), s, pre0)
    {
      hide *;
      SplidIs(C(), s);
      PreOfIs(C(), s, pre0);
      var splIdx, startPos := new nat[2], new nat[3];
      var num;
      num, pre := SplstrToIdxs(s, splIdx, startPos, 2, pre0);
      NumFits(s, 2, num, pre, splIdx, startPos);
      if num != 1 {
        return 0, pre;
      }
      if startPos[1] != |s| {
        return 0, pre;
      }
      return splIdx[0], pre;
    }

    // get_splid_by_str_f
    method GetSplidByStrF(s: string, pre0: bool) returns (id: nat, pre: bool)
      requires trie.Built() && OkConf(C())
      ensures id == WholeId(C().start, SplidOf(C(), s))
      ensures SplidOf(C(), s) > 0 ==> pre == (Letter(s[|s| - 1]) && !IsHalfYunmu(SplidOf(C(), s)))
      ensures pre == (PreOf(C(), s, pre0) && !IsHalfYunmu(SplidOf(C(), s)))
    {
      hide OkConf, SplidOf, PreOf, ST.SpellingTrie.Built;
      id, pre := GetSplidByStr(s, pre0);
      if IsHalfYunmu(id) {
        BuiltFacts();
        id, pre := trie.h2fStart[id], false;
      }
    }

    // An id the parser takes stands for full ids of the list.
    lemma EndIdRange(p: string)
      requires trie.Built() && OkConf(C()) && EndId(C(), p) != 0
      ensures |trie.h2fStart| == |trie.h2fNum| == FULL_START
      ensures var r := RangeOf(Halves(trie.h2fStart, trie.h2fNum), EndId(C(), p));
              FULL_START <= r.start && r.num > 0 && r.start + r.num <= FULL_START + |trie.list|
    {
      BuiltFacts();
      RawRange(p);
      EndIdIs(C(), p);
      var id := RawId(C(), p);
      if 0 < id < FULL_START {
        RangesInside(trie.Src(), trie.h2fStart, trie.h2fNum);
        assert trie.h2fStart[id] + trie.h2fNum[id] <= FULL_START + |trie.list|;
      }
      hide OkList, SonsFor, Stands, LongerRight, Last, FirstTo, HalfOf;
    }

    lemma BuiltRanged()
      requires trie.Built()
      ensures OkConf(C()) && Ranged(C())
    {
      BuiltFacts();
      forall h: nat | 0 < h < FULL_START
        ensures RangedAt(C(), h)
      {
        assert [] < HalfStr(h) && C().sp == trie.list && C().on == trie.on && C().start == trie.h2fStart;
        assert RangeRight(C().sp, C().on, h, C().start[h], trie.h2fNum[h]);
      }
      hide OkList, SonsFor, Stands, LongerRight, Last, FirstTo, HalfOf, RangeRight, HalfStr;
    }

    // get_spelling_str16 with room for a spelling; nothing of one longer than kMaxPinyinSize.
    method GetSpellingStr16(id: nat) returns (s: string)
      requires 0 < id < FULL_START + |trie.list|
      ensures id < FULL_START ==> s == HalfStr(id)
      ensures id >= FULL_START ==>
                s == if |trie.list[id - FULL_START]| <= MAX_PINYIN_SIZE then trie.list[id - FULL_START] else []
    {
      s := [];
      if id >= FULL_START {
        var t := trie.list[id - FULL_START];
        for pos := 0 to MAX_PINYIN_SIZE + 1
          invariant pos <= |t| && s == t[..pos]
        {
          if pos == |t| {
            return;
          }
          s := s + [t[pos]];
        }
        s := [];
      } else if id == 'C' as int - 'A' as int + 1 + 1 {
        s := "Ch";
      } else if id == 'S' as int - 'A' as int + 1 + 2 {
        s := "Sh";
      } else if id == 'Z' as int - 'A' as int + 1 + 3 {
        s := "Zh";
      } else {
        var i := id;
        if i > 'C' as int - 'A' as int + 1 {
          i := i - 1;
        }
        if i > 'S' as int - 'A' as int + 1 {
          i := i - 1;
        }
        s := [('A' as int + i - 1) as char];
      }
    }

    // The pinyin field of a lemma's sync text.
    method PrintIds(ids: seq<nat>) returns (ok: bool, text: string)
      requires ids != [] && FullIds(trie.list, ids)
      requires forall i :: 0 <= i < |trie.list| ==> trie.list[i] != []
      ensures ok == forall i :: 0 <= i < |ids| ==> |trie.list[ids[i] - FULL_START]| <= MAX_PINYIN_SIZE
      ensures ok ==> text == Joined(trie.list, ids)
    {
      text := [];
      for j := 0 to |ids|
        invariant forall i :: 0 <= i < j ==> |trie.list[ids[i] - FULL_START]| <= MAX_PINYIN_SIZE
        invariant text == Spaced(trie.list, ids[..j])
      {
        var s := GetSpellingStr16(ids[j]);
        if |s| == 0 {
          return false, text;
        }
        SpacedMore(trie.list, ids[..j], ids[j]);
        assert ids[..j] + [ids[j]] == ids[..j + 1];
        text := text + s + " ";
      }
      assert ids[..|ids|] == ids;
      SpacedJoined(trie.list, ids);
      text := text[..|text| - 1];
      ok := true;
    }

    // The pinyin field reads back as the lemma's ids exactly when each spelling is read as itself.
    lemma ReadBack(ids: seq<nat>, text: string, max: nat)
      requires trie.Built() && 0 < |ids| <= max && FullIds(trie.list, ids)
      requires text == Joined(trie.list, ids)
      ensures OkConf(C())
      ensures Whole(C(), Parse(C(), text, 0, max)).ids == ids <==>
                AllFaithful(C(), ids)
    {
      hide *;
      BuiltFacts();
      BuiltRanged();
      assert text[0..] == text;
      PrintParse(C(), ids, text, 0, max);
      WholeIs(C(), Parse(C(), text, 0, max));
    }
  }

  lemma EndIdIs(c: Conf, p: string)
    requires OkConf(c)
    ensures |c.enabled| == LETTERS && |c.start| == FULL_START && EndId(c, p) == ValidId(c.enabled, c.start, RawId(c, p))
  {}
}
