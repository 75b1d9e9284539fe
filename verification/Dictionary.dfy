// Building the system dictionary and looking lemmas up in it, together.

module Dictionary {
  import opened Trie
  import opened SpellingIds
  import B = DictBuilder
  import D = DictTrie
  import W = TrieWalk

  // What the builder asks of the lemmas: sorted, within its arrays and counts, every full id used.
  ghost predicate Buildable(es: seq<Entry>, n: nat) {
    && Ordered(es) && 0 < |es| <= ID_LIMIT && W.AllRoots(es, n) && n <= B.MAX_SPELLING_NUM
    && Fits(es, 0, |es|, 0) && Below(es, 0, |es|, 0) <= |es|
  }

  // The dictionary of a sorted lemma array.
  method Build(es: seq<Entry>, tops: seq<nat>, n: nat, scores: seq<nat>) returns (dict: D.DictTrie)
    requires Buildable(es, n) && forall i :: 0 <= i < |tops| ==> tops[i] < ID_LIMIT
    ensures fresh(dict) && dict.Valid() && dict.lemmas == es && dict.splNum == n && dict.psbs == scores
    ensures dict.stonesPos == D.FIRST_HANDLE && dict.marksPos == 0 && fresh(dict.marks) && fresh(dict.stones)
  {
    hide Ordered, W.RootId, Fits, Below, IsTrie, HoldsIds, Groups;
    var builder := new B.DictBuilder(es);
    var ok, root, nodes, ids := builder.BuildTrie(tops);
    dict := new D.DictTrie(es, root, nodes, ids, tops, n, scores);
  }

  // Building, then walking a spelling: a lemma is found exactly if the array has it.
  method BuildAndFind(es: seq<Entry>, n: nat, splids: seq<nat>, idLemma: nat) returns (found: bool)
    requires Buildable(es, n) && (splids != [] ==> FULL_START <= splids[0] < FULL_START + n)
    ensures found <==> exists i :: 0 <= i < |es| && es[i].splids == splids && es[i].id == idLemma
  {
    hide Buildable;
    var dict := Build(es, [], n, []);
    found := dict.TryExtend(splids, idLemma);
  }
}
