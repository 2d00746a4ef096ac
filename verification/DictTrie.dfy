/** Boost_Searcher/cppjieba/DictTrie.hpp: the dictionary behind the segmenters. The weights,
    which the source computes from frequencies in its data files, are given values here. */
module DictTrie {
  import opened Wrappers
  import opened Unicode
  import T = Trie

  const MIN_DOUBLE: real := -3.14e100
  const MAX_WORD_LENGTH: nat := 512

  /** The weight of `k` words or states of weight `x` each. */
  function Times(x: real, k: nat): real {
    x * k as real
  }

  lemma TimesNext(x: real, k: nat)
    ensures Times(x, 0) == 0.0 && Times(x, k + 1) == Times(x, k) + x
  {
  }

  /** The dictionary as a value: all that segmentation reads from it. */
  datatype Dict = Dict(words: T.Dictionary, minWeight: real, userSingles: set<Rune>)

  /** Every unit is filed under the word it spells. */
  ghost predicate Spells(d: T.Dictionary) {
    forall p :: p in d ==> d[p].word == p
  }

  function Words(units: seq<T.DictUnit>): (ws: seq<seq<Rune>>)
    ensures |ws| == |units|
    ensures forall i :: 0 <= i < |ws| ==> ws[i] == units[i].word
  {
    seq(|units|, i requires 0 <= i < |units| => units[i].word)
  }

  lemma {:induction false} InsertAllSpells(units: seq<T.DictUnit>)
    ensures Spells(T.InsertAll(Words(units), units))
  {
    if units != [] {
      var n := |units| - 1;
      InsertAllSpells(units[..n]);
      assert Words(units)[..n] == Words(units[..n]);
    }
  }

  class DictTrie {
    const trie: T.Trie
    const minWeight: real
    const userWordDefaultWeight: real
    const userSingles: set<Rune>

    ghost predicate Valid()
      reads trie, trie.repr
    {
      trie.Valid() && Spells(trie.contents)
    }

    ghost function View(): Dict
      reads trie
    {
      Dict(trie.contents, minWeight, userSingles)
    }

    constructor (units: seq<T.DictUnit>, minWeight: real, userWordDefaultWeight: real, userSingles: set<Rune>)
      ensures Valid() && fresh(trie) && fresh(trie.repr)
      ensures View() == Dict(T.InsertAll(Words(units), units), minWeight, userSingles)
      ensures this.userWordDefaultWeight == userWordDefaultWeight
    {
      InsertAllSpells(units);
      var t := new T.Trie.Create(Words(units), units);
      trie := t;
      this.minWeight, this.userWordDefaultWeight, this.userSingles := minWeight, userWordDefaultWeight, userSingles;
    }

    /** A word that is not valid UTF-8 is refused; the empty word is accepted and ignored. */
    method InsertUserWord(word: seq<Byte>, tag: seq<Byte>) returns (ok: bool)
      requires Valid() && |word| < UINT32
      modifies trie, trie.repr
      ensures Valid() && fresh(trie.repr - old(trie.repr))
      ensures ok == Decode(word).Some?
      ensures trie.contents ==
              if ok then
                var runes := RunesOf(Decode(word).value);
                T.Insert(old(trie.contents), runes, T.DictUnit(runes, userWordDefaultWeight, tag))
              else old(trie.contents)
    {
      var strs;
      ok, strs := DecodeUTF8RunesInString(word);
      if !ok {
        return;
      }
      var runes := RunesOf(strs);
      trie.InsertNode(runes, T.DictUnit(runes, userWordDefaultWeight, tag));
    }

    method Find(runes: seq<RuneStr>, begin: nat, end: nat) returns (r: Option<T.DictUnit>)
      requires Valid() && begin <= end <= |runes|
      ensures r == T.Lookup(View().words, RunesOf(runes)[begin..end])
    {
      r := trie.Find(runes, begin, end);
    }

    predicate IsUserDictSingleChineseWord(word: Rune) {
      word in userSingles
    }
  }
}
