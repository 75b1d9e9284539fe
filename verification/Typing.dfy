// What is typed, as the decoder gets it: the spelling parser's answers are ids the dictionary has.

module Typing {
  import opened SpellingIds
  import opened Lattice
  import opened Decoder
  import opened Dictionaries
  import P = SpellingParser
  import L = Spellings
  import T = Trie
  import ST = SpellingTrie

  // The dictionary's spelling ids are those of the parser's trie, and no half id has too many.
  ghost predicate SameIds(parser: P.SpellingParser, c: Dicts)
    reads parser.trie
  {
    && parser.trie.Built() && |parser.trie.list| == c.num && c.h == Halves(parser.trie.h2fStart, parser.trie.h2fNum)
    && forall h :: 0 <= h < |c.h.num| ==> c.h.num[h] < T.BYTE
  }

  // get_splid_by_str's answer is an id that stands for full ids of the dictionary.
  lemma ParsedOk(parser: P.SpellingParser, c: Dicts, s: string)
    requires SameIds(parser, c) && OkDicts(c)
    ensures P.OkConf(parser.C()) && (P.SplidOf(parser.C(), s) != 0 ==> OkId(c, P.SplidOf(parser.C(), s)))
  {
    hide OkDicts;
    parser.BuiltFacts();
    var k := P.Munch(parser.C(), s, 0, 0);
    if P.SplidOf(parser.C(), s) != 0 {
      parser.EndIdRange(L.Format(s[..k]));
    }
  }

  // The decoder's world: parser, dictionaries, and a sort routine.
  ghost function WorldOf(parser: P.SpellingParser, c: Dicts, sort: seq<Lpi> -> seq<Lpi>, xian: bool): World
    requires P.OkConf(parser.C()) && OkDicts(c)
    reads parser.trie
  {
    var conf := parser.C();
    World(L.Letter, s => (if P.OkConf(conf) then P.SplidOf(conf, s) else 0,
                          P.OkConf(conf) && P.PreOf(conf, s, false)), IsHalf,
          (ids: seq<nat>, sys: bool, user: bool) =>
            if OkDicts(c) && OkIds(c, ids) then Asked(c, ids, sys, user) else Look(false, false, []),
          sort, xian)
  }

  // Asking the parser as add_char_qwerty does, with a flag not yet set: the world's answer.
  method SplidAndPre(parser: P.SpellingParser, s: string, ghost c: Dicts, ghost sort: seq<Lpi> -> seq<Lpi>,
                     ghost xian: bool)
    returns (idx: nat, pre: bool)
    requires SameIds(parser, c) && OkDicts(c)
    ensures P.OkConf(parser.C()) && (idx, pre) == WorldOf(parser, c, sort, xian).splid(s)
  {
    hide *;
    SameBuilt(parser, c);
    parser.BuiltFacts();
    HalvesOk(c);
    WorldIs(parser, c, sort, xian);
    idx, pre := parser.GetSplidByStr(s, false);
  }

  // The world is one the decoder's theorems speak of, and it hears what the parser says.
  lemma WorldSpeaks(parser: P.SpellingParser, c: Dicts, sort: seq<Lpi> -> seq<Lpi>, xian: bool)
    requires SameIds(parser, c) && OkDicts(c) && Steady(IsHalf, c)
    requires forall s :: SortedLpis(sort(s)) && multiset(sort(s)) == multiset(s)
    ensures P.OkConf(parser.C()) && OkWorld(WorldOf(parser, c, sort, xian)) && Speaks(WorldOf(parser, c, sort, xian), c)
    ensures forall s: string ::
              WorldOf(parser, c, sort, xian).splid(s) == (P.SplidOf(parser.C(), s), P.PreOf(parser.C(), s, false))
  {
    hide *;
    SameBuilt(parser, c);
    parser.BuiltFacts();
    HalvesOk(c);
    var w := WorldOf(parser, c, sort, xian);
    WorldIs(parser, c, sort, xian);
    forall s: string | w.splid(s).0 != 0
      ensures OkId(c, w.splid(s).0)
    {
      ParsedOk(parser, c, s);
    }
    IsWorld(w);
    IsSpeaking(w, c);
  }

  lemma SameBuilt(parser: P.SpellingParser, c: Dicts)
    requires SameIds(parser, c)
    ensures parser.trie.Built()
  {
    hide ST.SpellingTrie.Built;
  }

  lemma HalvesOk(c: Dicts)
    requires OkDicts(c)
    ensures OkHalves(c.h)
  {}

  // What the world answers.
  lemma WorldIs(parser: P.SpellingParser, c: Dicts, sort: seq<Lpi> -> seq<Lpi>, xian: bool)
    requires P.OkConf(parser.C()) && OkDicts(c) && OkHalves(c.h)
    ensures var w := WorldOf(parser, c, sort, xian);
            && (forall s: string :: w.splid(s) == (P.SplidOf(parser.C(), s), P.PreOf(parser.C(), s, false)))
            && w.sort == sort && w.xian == xian && (forall ch: char :: w.valid(ch) == L.Letter(ch))
            && (forall id: nat :: w.half(id) == IsHalf(id))
            && (forall ids: seq<nat>, a: bool, b: bool :: OkIds(c, ids) ==> w.look(ids, a, b) == Asked(c, ids, a, b))
            && forall ids: seq<nat>, a: bool, b: bool ::
                 w.look(ids, a, b).items != [] ==> w.look(ids, a, b).sys || w.look(ids, a, b).user
  {
    hide OkDicts, OkIds, P.OkConf, P.SplidOf, P.PreOf, SysLpis, Layer;
  }

  lemma IsWorld(w: World)
    requires forall s :: SortedLpis(w.sort(s)) && multiset(w.sort(s)) == multiset(s)
    requires forall ids, a, b :: w.look(ids, a, b).items != [] ==> w.look(ids, a, b).sys || w.look(ids, a, b).user
    ensures OkWorld(w)
  {}

  lemma IsSpeaking(w: World, c: Dicts)
    requires OkDicts(c) && Steady(IsHalf, c) && (forall id: nat :: w.half(id) == IsHalf(id))
    requires OkHalves(c.h) && (forall s: string :: w.splid(s).0 != 0 ==> OkId(c, w.splid(s).0))
    requires forall ids: seq<nat>, a: bool, b: bool :: OkIds(c, ids) ==> w.look(ids, a, b) == Asked(c, ids, a, b)
    ensures Speaks(w, c)
  {
    hide OkDicts, OkIds, OkId, Asked, SysLpis, IsHalf;
  }
}
