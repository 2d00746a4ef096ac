/** Boost_Searcher/cppjieba/KeywordExtractor.hpp: the words of a sentence that matter, with the byte positions where they
    occur, weighted by how often they occur and how rare they are elsewhere. */
module KeywordExtractor {
  import opened Wrappers
  import opened Unicode
  import opened DictTrie
  import opened PreFilter
  import opened MixSegment
  import HMM = HMMSegment
  import Sorting

  datatype Keyword = Keyword(word: seq<Byte>, offsets: seq<nat>, weight: real)

  /** `IsSingleWord`: the first rune takes up all the bytes; the empty string is single too. */
  predicate IsSingleWord(w: seq<Byte>) {
    DecodeUTF8ToRune(w).len == |w|
  }

  predicate Eligible(w: seq<Byte>, stopWords: set<seq<Byte>>) {
    !IsSingleWord(w) && w !in stopWords
  }

  /** The bytes that come before each word `w`. */
  function Offsets(words: seq<Word>, w: seq<Byte>): seq<nat> {
    if words == [] then []
    else
      var n := |words| - 1;
      Offsets(words[..n], w) + if words[n].word == w then [|Bytes(words[..n])|] else []
  }

  /** How rare words are: their own inverse document frequency, or the average. */
  datatype Rarity = Rarity(idfMap: map<seq<Byte>, real>, idfAverage: real) {
    function Of(w: seq<Byte>): real {
      if w in idfMap then idfMap[w] else idfAverage
    }
  }

  function Weight(words: seq<Word>, rarity: Rarity, w: seq<Byte>): real {
    |Offsets(words, w)| as real * rarity.Of(w)
  }

  /** Of what decodes, the single words are those of one rune, and the empty one. */
  lemma SingleExactly(w: seq<Byte>)
    requires Decode(w).Some?
    ensures IsSingleWord(w) <==> |Decode(w).value| <= 1
  {
    hide DecodeUTF8ToRune;
    assert w[0..] == w;
    var len := DecodeUTF8ToRune(w).len;
    assert 0 < len < |w| ==> DecodeFrom(w, len, 1).Some? ==> DecodeFrom(w, len, 1).value != [];
  }

  // ---------------------------------------------------------------- what the offsets mean

  ghost predicate Occurs(words: seq<Word>, w: seq<Byte>, o: nat) {
    exists k :: 0 <= k < |words| && words[k].word == w && words[k].offset == o
  }

  /** Words that are not empty and know how many bytes come before them. */
  ghost predicate Placed(words: seq<Word>) {
    forall k :: 0 <= k < |words| ==> words[k].word != [] && words[k].offset == |Bytes(words[..k])|
  }

  ghost predicate Increasing(s: seq<nat>) {
    forall i, j :: 0 <= i < j < |s| ==> s[i] < s[j]
  }

  lemma PlacedPrefix(words: seq<Word>)
    requires Placed(words) && words != []
    ensures Placed(words[..|words| - 1])
  {
    var shorter := words[..|words| - 1];
    forall k | 0 <= k < |shorter| ensures shorter[k].word != [] && shorter[k].offset == |Bytes(shorter[..k])| {
      assert shorter[..k] == words[..k] && shorter[k] == words[k];
    }
  }

  /** The word can be read at each of its offsets. */
  ghost predicate Reads(text: seq<Byte>, w: seq<Byte>, o: nat) {
    o + |w| <= |text| && text[o..o + |w|] == w
  }

  lemma {:induction false} OffsetsOccur(words: seq<Word>, w: seq<Byte>)
    requires Placed(words)
    ensures forall o :: o in Offsets(words, w) <==> Occurs(words, w, o)
  {
    hide Bytes, Occurs;
    if words == [] {
      NothingOccurs(words, w);
    } else {
      PlacedPrefix(words);
      OffsetsOccur(words[..|words| - 1], w);
      OccursSnoc(words, w);
      assert words[|words| - 1].offset == |Bytes(words[..|words| - 1])|;
    }
  }

  lemma NothingOccurs(words: seq<Word>, w: seq<Byte>)
    requires words == []
    ensures forall o :: !Occurs(words, w, o)
  {
  }

  lemma {:induction false} OffsetsRead(words: seq<Word>, w: seq<Byte>)
    requires Placed(words)
    ensures forall o :: o in Offsets(words, w) ==> w != [] && Reads(Bytes(words), w, o)
  {
    hide Bytes;
    if words != [] {
      var shorter := words[..|words| - 1];
      PlacedPrefix(words);
      OffsetsRead(shorter, w);
      LastIsRead(words);
      hide Placed;
      forall o | o in Offsets(words, w)
        ensures w != [] && Reads(Bytes(words), w, o)
      {
        if o in Offsets(shorter, w) {
          ReadsLonger(Bytes(shorter), Bytes(words), w, o);
        }
      }
    }
  }

  lemma ReadsLonger(a: seq<Byte>, b: seq<Byte>, w: seq<Byte>, o: nat)
    requires a <= b && Reads(a, w, o)
    ensures Reads(b, w, o)
  {
    assert b[o..o + |w|] == a[o..o + |w|];
  }

  lemma {:induction false} OffsetsIncrease(words: seq<Word>, w: seq<Byte>)
    requires Placed(words)
    ensures Increasing(Offsets(words, w))
  {
    hide Bytes;
    if words != [] {
      PlacedPrefix(words);
      OffsetsIncrease(words[..|words| - 1], w);
      OffsetsRead(words[..|words| - 1], w);
      hide Placed;
      var before := Offsets(words[..|words| - 1], w);
      assert forall i :: 0 <= i < |before| ==> before[i] in before;
    }
  }

  lemma OccursSnoc(words: seq<Word>, w: seq<Byte>)
    requires words != []
    ensures forall o: nat :: Occurs(words, w, o) <==>
              Occurs(words[..|words| - 1], w, o) || (words[|words| - 1].word == w && words[|words| - 1].offset == o)
  {
    var n := |words| - 1;
    forall o: nat
      ensures Occurs(words, w, o) <==> Occurs(words[..n], w, o) || (words[n].word == w && words[n].offset == o)
    {
      if Occurs(words[..n], w, o) {
        var k :| 0 <= k < n && words[..n][k].word == w && words[..n][k].offset == o;
        assert words[k].word == w && words[k].offset == o;
      }
      if Occurs(words, w, o) {
        var k :| 0 <= k < |words| && words[k].word == w && words[k].offset == o;
        assert k < n ==> words[..n][k] == words[k];
      }
    }
  }

  lemma LastIsRead(words: seq<Word>)
    requires Placed(words) && words != []
    ensures var n := |words| - 1;
            var o := |Bytes(words[..n])|;
            words[n].word != [] && Reads(Bytes(words), words[n].word, o) && Bytes(words[..n]) <= Bytes(words)
  {
    var n := |words| - 1;
    assert words[n].word != [];
    hide Placed;
    ReadsAtEnd(Bytes(words[..n]), words[n].word);
  }

  lemma ReadsAtEnd(a: seq<Byte>, w: seq<Byte>)
    ensures Reads(a + w, w, |a|) && a <= a + w
  {
  }

  /** The offsets of a word are exactly the places where the segmentation puts it, each once and in order, and the word
      can be read from the sentence there. */
  lemma OffsetsAreOccurrences(sentence: seq<Byte>, words: seq<Word>, w: seq<Byte>)
    requires Lossless(sentence, words)
    ensures forall o :: o in Offsets(words, w) <==> exists k :: 0 <= k < |words| && words[k].word == w && words[k].offset == o
    ensures forall o :: o in Offsets(words, w) ==> o + |w| <= |sentence| && sentence[o..o + |w|] == w
    ensures forall i, j :: 0 <= i < j < |Offsets(words, w)| ==> Offsets(words, w)[i] < Offsets(words, w)[j]
  {
    assert Placed(words);
    hide Placed, Offsets, Bytes;
    OffsetsOccur(words, w);
    OffsetsRead(words, w);
    OffsetsIncrease(words, w);
  }

  // ---------------------------------------------------------------- counting

  /** The entry of `w`, after the given words: its offsets, and a weight that is still their number. */
  ghost predicate TalliedAt(words: seq<Word>, stopWords: set<seq<Byte>>, wordmap: map<seq<Byte>, Keyword>, w: seq<Byte>) {
    && (w in wordmap <==> Eligible(w, stopWords) && Offsets(words, w) != [])
    && (w in wordmap ==>
          wordmap[w].offsets == Offsets(words, w) && wordmap[w].weight == |Offsets(words, w)| as real)
  }

  ghost predicate Tallied(words: seq<Word>, stopWords: set<seq<Byte>>, wordmap: map<seq<Byte>, Keyword>) {
    forall w :: TalliedAt(words, stopWords, wordmap, w)
  }

  /** `wordmap[word]`, which inserts an empty entry for a word that is not there yet, then counts one occurrence. */
  function Counted(wordmap: map<seq<Byte>, Keyword>, word: seq<Byte>, t: nat): map<seq<Byte>, Keyword> {
    var entry := if word in wordmap then wordmap[word] else Keyword([], [], 0.0);
    wordmap[word := Keyword(entry.word, entry.offsets + [t], entry.weight + 1.0)]
  }

  lemma TallyStep(words: seq<Word>, stopWords: set<seq<Byte>>, wordmap: map<seq<Byte>, Keyword>, word: Word)
    requires Tallied(words, stopWords, wordmap)
    ensures Tallied(words + [word], stopWords,
                    if Eligible(word.word, stopWords) then Counted(wordmap, word.word, |Bytes(words)|) else wordmap)
  {
    hide Eligible, Bytes;
    assert (words + [word])[..|words|] == words;
    var next := if Eligible(word.word, stopWords) then Counted(wordmap, word.word, |Bytes(words)|) else wordmap;
    forall w
      ensures TalliedAt(words + [word], stopWords, next, w)
    {
      assert TalliedAt(words, stopWords, wordmap, w);
    }
  }

  lemma NothingTallied(stopWords: set<seq<Byte>>)
    ensures Tallied([], stopWords, map[]) && Bytes([]) == []
  {
  }

  /** The words of a sentence by byte string, and how many bytes they have together. */
  method CountWords(words: seq<Word>, stopWords: set<seq<Byte>>) returns (wordmap: map<seq<Byte>, Keyword>, offset: nat)
    ensures Tallied(words, stopWords, wordmap) && offset == |Bytes(words)|
  {
    hide Tallied, Eligible, Bytes;
    wordmap, offset := map[], 0;
    NothingTallied(stopWords);
    for i := 0 to |words|
      invariant Tallied(words[..i], stopWords, wordmap) && offset == |Bytes(words[..i])|
    {
      var t := offset;
      TallyStep(words[..i], stopWords, wordmap, words[i]);
      BytesSnoc(words[..i], words[i]);
      assert words[..i + 1] == words[..i] + [words[i]];
      offset := offset + |words[i].word|;
      if !Eligible(words[i].word, stopWords) {
        continue;
      }
      wordmap := Counted(wordmap, words[i].word, t);
    }
    assert words[..|words|] == words;
  }

  lemma BytesSnoc(words: seq<Word>, word: Word)
    ensures Bytes(words + [word]) == Bytes(words) + word.word
  {
    assert (words + [word])[..|words|] == words;
  }

  // ---------------------------------------------------------------- the answer

  /** An eligible word of the sentence with all its offsets and its weight. */
  ghost predicate IsKeyword(words: seq<Word>, stopWords: set<seq<Byte>>, rarity: Rarity, k: Keyword) {
    && Eligible(k.word, stopWords) && Offsets(words, k.word) != []
    && k.offsets == Offsets(words, k.word)
    && k.weight == Weight(words, rarity, k.word)
  }

  ghost predicate DistinctWords(ks: seq<Keyword>) {
    forall i, j :: 0 <= i < j < |ks| ==> ks[i].word != ks[j].word
  }

  ghost predicate Listed(ks: seq<Keyword>, w: seq<Byte>) {
    exists k :: k in ks && k.word == w
  }

  /** The heaviest `topN` keywords, best first: a keyword is left out only for a full list of heavier or equal ones. */
  ghost predicate Best(words: seq<Word>, stopWords: set<seq<Byte>>, rarity: Rarity, topN: nat, ks: seq<Keyword>) {
    && |ks| <= topN && DistinctWords(ks) && Sorting.Descending(ks, (k: Keyword) => k.weight)
    && (forall k :: k in ks ==> IsKeyword(words, stopWords, rarity, k))
    && (forall w :: Eligible(w, stopWords) && Offsets(words, w) != [] && !Listed(ks, w) ==>
          |ks| == topN && forall k :: k in ks ==> k.weight >= Weight(words, rarity, w))
  }

  /** All keywords, in the order in which the map happens to be walked. */
  method Weigh(wordmap: map<seq<Byte>, Keyword>, rarity: Rarity,
               ghost words: seq<Word>, ghost stopWords: set<seq<Byte>>) returns (all: seq<Keyword>)
    requires Tallied(words, stopWords, wordmap)
    ensures DistinctWords(all) && forall k :: k in all ==> IsKeyword(words, stopWords, rarity, k)
    ensures forall w :: Eligible(w, stopWords) && Offsets(words, w) != [] ==> Listed(all, w)
  {
    hide Eligible, Offsets;
    all := [];
    var rest := wordmap.Keys;
    while rest != {}
      invariant rest <= wordmap.Keys && DistinctWords(all)
      invariant forall k :: k in all ==> k.word in wordmap && k.word !in rest && IsKeyword(words, stopWords, rarity, k)
      invariant forall w :: w in wordmap && w !in rest ==> Listed(all, w)
      decreases rest
    {
      var w :| w in rest;
      var k := wordmap[w].(word := w, weight := wordmap[w].weight * rarity.Of(w));
      assert TalliedAt(words, stopWords, wordmap, w);
      ListedSnoc(all, k);
      all := all + [k];
      rest := rest - {w};
    }
    forall w | Eligible(w, stopWords) && Offsets(words, w) != []
      ensures Listed(all, w)
    {
      assert TalliedAt(words, stopWords, wordmap, w);
    }
  }

  lemma ListedSnoc(ks: seq<Keyword>, k: Keyword)
    ensures Listed(ks + [k], k.word)
    ensures forall w :: Listed(ks, w) ==> Listed(ks + [k], w)
  {
    assert k in ks + [k];
    assert forall x :: x in ks ==> x in ks + [k];
  }

  /** The first `n` of all keywords, sorted, are the best `n`. */
  lemma FirstAreBest(words: seq<Word>, stopWords: set<seq<Byte>>, rarity: Rarity, topN: nat, all: seq<Keyword>, sorted: seq<Keyword>)
    requires DistinctWords(all) && forall k :: k in all ==> IsKeyword(words, stopWords, rarity, k)
    requires forall w :: Eligible(w, stopWords) && Offsets(words, w) != [] ==> Listed(all, w)
    requires multiset(sorted) == multiset(all) && Sorting.Descending(sorted, (k: Keyword) => k.weight)
    ensures |sorted| == |all|
    ensures Best(words, stopWords, rarity, topN, sorted[..if topN < |sorted| then topN else |sorted|])
  {
    hide Eligible, Offsets, Weight;
    assert forall i, j :: 0 <= i < j < |all| ==> all[i] != all[j];
    Sorting.PermutationDistinct(all, sorted);
    var n := if topN < |sorted| then topN else |sorted|;
    var ks := sorted[..n];
    assert forall k :: k in ks ==> k in sorted;
    SortedDistinct(all, sorted);
    forall w | Eligible(w, stopWords) && Offsets(words, w) != [] && !Listed(ks, w)
      ensures |ks| == topN && forall k :: k in ks ==> k.weight >= Weight(words, rarity, w)
    {
      var x :| x in all && x.word == w;
      assert x.weight == Weight(words, rarity, w);
      LeftOutIsLighter(sorted, x, n);
    }
  }

  /** What is not among the first `n` is behind them. */
  lemma LeftOutIsLighter(sorted: seq<Keyword>, x: Keyword, n: nat)
    requires Sorting.Descending(sorted, (k: Keyword) => k.weight) && n <= |sorted| && x in sorted && x !in sorted[..n]
    ensures n < |sorted| && forall k :: k in sorted[..n] ==> k.weight >= x.weight
  {
    var m :| 0 <= m < |sorted| && sorted[m] == x;
    BeyondPrefix(sorted, m, n);
  }

  lemma BeyondPrefix(s: seq<Keyword>, m: nat, n: nat)
    requires m < |s| && n <= |s| && s[m] !in s[..n]
    ensures m >= n
  {
  }

  lemma SortedDistinct(all: seq<Keyword>, sorted: seq<Keyword>)
    requires DistinctWords(all) && forall k :: k in sorted <==> k in all
    requires forall i, j :: 0 <= i < j < |sorted| ==> sorted[i] != sorted[j]
    ensures DistinctWords(sorted)
  {
    forall i, j | 0 <= i < j < |sorted|
      ensures sorted[i].word != sorted[j].word
    {
      assert sorted[i] in all && sorted[j] in all;
    }
  }

  /** The places in the segmentation at which `w` stands. */
  ghost function Places(words: seq<Word>, w: seq<Byte>): set<int> {
    set i | 0 <= i < |words| && words[i].word == w
  }

  lemma {:induction false} OffsetsAreCounted(words: seq<Word>, w: seq<Byte>)
    ensures |Offsets(words, w)| == |Places(words, w)|
  {
    hide Bytes;
    if words == [] {
      assert Places(words, w) == {};
    } else {
      var n := |words| - 1;
      OffsetsAreCounted(words[..n], w);
      assert Places(words, w) == Places(words[..n], w) + if words[n].word == w then {n} else {};
    }
  }

  /** A keyword weighs its number of occurrences times its inverse document frequency, or the average one. */
  lemma WeightInNumbers(words: seq<Word>, rarity: Rarity, w: seq<Byte>)
    ensures w in rarity.idfMap ==> Weight(words, rarity, w) == |Places(words, w)| as real * rarity.idfMap[w]
    ensures w !in rarity.idfMap ==> Weight(words, rarity, w) == |Places(words, w)| as real * rarity.idfAverage
  {
    hide Places, Offsets;
    OffsetsAreCounted(words, w);
  }

  /** The keywords are distinct, no stop words, occur, and stand in non-increasing order; the list is shorter than `topN`
      only if no eligible word of the sentence is missing, and a missing word weighs no more than any listed one. */
  lemma BestInNumbers(words: seq<Word>, stopWords: set<seq<Byte>>, rarity: Rarity, topN: nat, ks: seq<Keyword>)
    requires Best(words, stopWords, rarity, topN, ks)
    ensures |ks| <= topN
    ensures forall i, j :: 0 <= i < j < |ks| ==> ks[i].word != ks[j].word && ks[i].weight >= ks[j].weight
    ensures forall k :: k in ks ==>
              k.word !in stopWords && !IsSingleWord(k.word) && Places(words, k.word) != {}
              && k.offsets == Offsets(words, k.word) && k.weight == Weight(words, rarity, k.word)
    ensures forall w :: w !in stopWords && !IsSingleWord(w) && Places(words, w) != {} && (forall k :: k in ks ==> k.word != w) ==>
              |ks| == topN && forall k :: k in ks ==> k.weight >= Weight(words, rarity, w)
  {
    hide IsSingleWord, Weight, Offsets, Places;
    var key := (k: Keyword) => k.weight;
    assert forall i, j :: 0 <= i < j < |ks| ==> key(ks[i]) >= key(ks[j]);
    forall w
      ensures Places(words, w) != {} <==> Offsets(words, w) != []
    {
      OffsetsAreCounted(words, w);
    }
    assert forall w :: Listed(ks, w) ==> exists k :: k in ks && k.word == w;
  }

  class KeywordExtractor {
    const segment: MixSegment
    const rarity: Rarity
    const stopWords: set<seq<Byte>>

    constructor (dictTrie: DictTrie, model: HMM.HMMModel, symbols: set<Rune>, rarity: Rarity, stopWords: set<seq<Byte>>)
      ensures segment.mpSeg.dictTrie == dictTrie && segment.hmmSeg.model == model && segment.symbols == symbols
      ensures this.rarity == rarity && this.stopWords == stopWords
    {
      segment := new MixSegment(dictTrie, model, symbols);
      this.rarity, this.stopWords := rarity, stopWords;
    }

    /** The best keywords of the sentence; the list of the caller stays as it is ("words illegal") exactly if the sentence
        does not decode. */
    method Extract(sentence: seq<Byte>, before: seq<Keyword>, topN: nat) returns (keywords: seq<Keyword>, ghost words: seq<Word>)
      requires segment.Valid() && |sentence| < UINT32
      ensures Decode(sentence).None? ==> keywords == before
      ensures Decode(sentence).Some? ==>
                Lossless(sentence, words) && Best(words, stopWords, rarity, topN, keywords)
      ensures segment.Lex().Valid()
      ensures Draws(sentence, MixText(segment.Lex(), RunesOf(TextOf(sentence)), segment.symbols, 0, true), words)
    {
      hide Tallied, Best, MixText, Draws;
      var cut := segment.CutSentence(sentence, true);
      words := cut;
      var wordmap, offset := CountWords(cut, stopWords);
      if offset != |sentence| {
        keywords := before;
        return;
      }
      var all := Weigh(wordmap, rarity, words, stopWords);
      var sorted := Sorting.SortDescending(all, (k: Keyword) => k.weight);
      FirstAreBest(words, stopWords, rarity, topN, all, sorted);
      keywords := sorted[..if topN < |sorted| then topN else |sorted|];
    }
  }
}
