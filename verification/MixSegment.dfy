/** Boost_Searcher/cppjieba/MixSegment.hpp: dictionary segmentation, with the runs of loose single
    runes it leaves cut again by the hidden Markov model. */
module MixSegment {
  import opened Wrappers
  import opened Unicode
  import opened DictTrie
  import opened PreFilter
  import MP = MPSegment
  import HMM = HMMSegment

  /** Everything a mixed cut depends on. */
  datatype Lexicon = Lexicon(dict: Dict, model: HMM.HMMModel) {
    ghost predicate Valid() {
      Spells(dict.words) && model.WellFormed()
    }
  }

  /** A single rune that the user dictionary does not list. */
  predicate IsLoose(dict: Dict, text: seq<Rune>, w: WordRange)
    requires w.left < |text|
  {
    w.left == w.right && text[w.left] !in dict.userSingles
  }

  /** The end of the run of loose words that starts at word `i`. */
  function LooseEnd(dict: Dict, text: seq<Rune>, words: seq<WordRange>, i: nat): (j: nat)
    requires i <= |words| && forall k :: 0 <= k < |words| ==> words[k].left < |text|
    ensures i <= j <= |words|
    ensures forall k :: i <= k < j ==> IsLoose(dict, text, words[k])
    ensures j < |words| ==> !IsLoose(dict, text, words[j])
    decreases |words| - i
  {
    if i < |words| && IsLoose(dict, text, words[i]) then LooseEnd(dict, text, words, i + 1) else i
  }

  /** The words of a cut of `[begin, end)` lie inside it. */
  ghost predicate Inside(text: seq<Rune>, words: seq<WordRange>) {
    forall k :: 0 <= k < |words| ==> words[k].left <= words[k].right < |text|
  }

  /** What the words from the `i`-th on are replaced by. */
  function MixFrom(lex: Lexicon, text: seq<Rune>, words: seq<WordRange>, i: nat): seq<WordRange>
    requires lex.Valid() && i <= |words| && Inside(text, words) && Ordered(words)
    decreases |words| - i
  {
    if i == |words| then []
    else if !IsLoose(lex.dict, text, words[i]) then [words[i]] + MixFrom(lex, text, words, i + 1)
    else
      var j := LooseEnd(lex.dict, text, words, i + 1);
      HMM.HmmCut(lex.model, text, words[i].left, words[j - 1].left + 1) + MixFrom(lex, text, words, j)
  }

  ghost predicate Ordered(words: seq<WordRange>) {
    forall a, b :: 0 <= a < b < |words| ==> words[a].left <= words[b].left
  }

  lemma {:induction false} TilesOrdered(words: seq<WordRange>, from: nat, to: nat)
    requires Tiles(words, from, to)
    ensures Ordered(words)
    decreases |words|
  {
    if words != [] {
      var n := |words| - 1;
      TilesOrdered(words[..n], from, words[n].left);
      TilesBounds(words[..n], from, words[n].left);
      forall a, b | 0 <= a < b < |words|
        ensures words[a].left <= words[b].left
      {
        assert words[..n][a] == words[a];
        if b < n {
          assert words[..n][b] == words[b];
        }
      }
    }
  }

  function MpWords(lex: Lexicon, text: seq<Rune>, begin: nat, end: nat): (words: seq<WordRange>)
    requires lex.Valid() && begin <= end <= |text|
    ensures Tiles(words, begin, end) && Inside(text, words) && Ordered(words)
  {
    var words := MP.MpCut(lex.dict, text, begin, end, MAX_WORD_LENGTH);
    MP.MpCutTiles(lex.dict, text, begin, end, MAX_WORD_LENGTH);
    TilesBounds(words, begin, end);
    TilesOrdered(words, begin, end);
    words
  }

  function MixCut(lex: Lexicon, text: seq<Rune>, begin: nat, end: nat, hmm: bool): seq<WordRange>
    requires lex.Valid() && begin <= end <= |text|
  {
    var words := MpWords(lex, text, begin, end);
    if hmm then MixFrom(lex, text, words, 0) else words
  }

  // ---------------------------------------------------------------- the cut still tiles

  /** A run of loose words covers as many runes as it has words. */
  lemma {:induction false} LooseRunCovers(dict: Dict, text: seq<Rune>, words: seq<WordRange>, i: nat, j: nat, to: nat)
    requires i < j <= |words| && Inside(text, words)
    requires forall k :: i <= k < j ==> IsLoose(dict, text, words[k])
    requires Tiles(words[i..], words[i].left, to)
    ensures Tiles(words[j..], words[j - 1].left + 1, to)
  {
    var rest := words[i..];
    TilesSplit(rest, j - 1 - i, words[i].left, to);
    assert rest[j - 1 - i + 1..] == words[j..];
  }

  lemma WordInside(text: seq<Rune>, words: seq<WordRange>, i: nat)
    requires Inside(text, words) && i < |words|
    ensures words[i].left <= words[i].right < |text|
  {
  }

  lemma MixFromEnd(lex: Lexicon, text: seq<Rune>, words: seq<WordRange>)
    requires lex.Valid() && Inside(text, words) && Ordered(words)
    ensures MixFrom(lex, text, words, |words|) == []
  {
  }

  lemma MixFromKept(lex: Lexicon, text: seq<Rune>, words: seq<WordRange>, i: nat)
    requires lex.Valid() && i < |words| && Inside(text, words) && Ordered(words)
    requires !IsLoose(lex.dict, text, words[i])
    ensures MixFrom(lex, text, words, i) == [words[i]] + MixFrom(lex, text, words, i + 1)
  {
  }

  /** The words `[i, j)` are a run of loose words that nothing loose follows. */
  ghost predicate LooseRun(dict: Dict, text: seq<Rune>, words: seq<WordRange>, i: nat, j: nat)
    requires Inside(text, words)
  {
    && i < j <= |words|
    && (forall k :: i <= k < j ==> IsLoose(dict, text, words[k]))
    && (j < |words| ==> !IsLoose(dict, text, words[j]))
  }

  lemma {:induction false} LooseEndUnique(dict: Dict, text: seq<Rune>, words: seq<WordRange>, i: nat, j: nat)
    requires Inside(text, words) && i <= j <= |words|
    requires forall k :: i <= k < j ==> IsLoose(dict, text, words[k])
    requires j < |words| ==> !IsLoose(dict, text, words[j])
    ensures LooseEnd(dict, text, words, i) == j
    decreases j - i
  {
    if i < j {
      LooseEndUnique(dict, text, words, i + 1, j);
    }
  }

  lemma MixFromLoose(lex: Lexicon, text: seq<Rune>, words: seq<WordRange>, i: nat, j: nat)
    requires lex.Valid() && Inside(text, words) && Ordered(words)
    requires LooseRun(lex.dict, text, words, i, j)
    ensures words[i].left <= words[j - 1].left < |text|
    ensures MixFrom(lex, text, words, i) ==
            HMM.HmmCut(lex.model, text, words[i].left, words[j - 1].left + 1) + MixFrom(lex, text, words, j)
  {
    hide MixFrom, LooseEnd, Ordered, HMM.HmmCut, Spells;
    LooseEndUnique(lex.dict, text, words, i + 1, j);
    MixFromUnfolds(lex, text, words, i);
    OrderedAt(words, i, j - 1);
  }

  lemma MixFromUnfolds(lex: Lexicon, text: seq<Rune>, words: seq<WordRange>, i: nat)
    requires lex.Valid() && i < |words| && Inside(text, words) && Ordered(words) && IsLoose(lex.dict, text, words[i])
    ensures var j := LooseEnd(lex.dict, text, words, i + 1);
            && words[i].left <= words[j - 1].left < |text|
            && MixFrom(lex, text, words, i) ==
               HMM.HmmCut(lex.model, text, words[i].left, words[j - 1].left + 1) + MixFrom(lex, text, words, j)
  {
    hide LooseEnd, HMM.HmmCut, Spells;
  }

  lemma OrderedAt(words: seq<WordRange>, a: nat, b: nat)
    requires Ordered(words) && a <= b < |words|
    ensures words[a].left <= words[b].left
  {
  }

  lemma SomeLooseRun(dict: Dict, text: seq<Rune>, words: seq<WordRange>, i: nat) returns (j: nat)
    requires Inside(text, words) && i < |words| && IsLoose(dict, text, words[i])
    ensures LooseRun(dict, text, words, i, j)
  {
    j := LooseEnd(dict, text, words, i + 1);
  }

  lemma {:induction false} MixFromTiles(lex: Lexicon, text: seq<Rune>, words: seq<WordRange>, i: nat, from: nat, to: nat)
    requires lex.Valid() && i <= |words| && Inside(text, words) && Ordered(words)
    requires Tiles(words[i..], from, to)
    ensures Tiles(MixFrom(lex, text, words, i), from, to)
    decreases |words| - i
  {
    hide Tiles, MixFrom, Inside, Ordered;
    if i == |words| {
      assert words[i..] == [];
      Nothing(from, to);
      MixFromEnd(lex, text, words);
    } else {
      HeadOfTiling(words[i..], from, to);
      assert words[i..][1..] == words[i + 1..];
      WordInside(text, words, i);
      if !IsLoose(lex.dict, text, words[i]) {
        MixFromKept(lex, text, words, i);
        MixFromTiles(lex, text, words, i + 1, words[i].right + 1, to);
        TilesCons(words[i], MixFrom(lex, text, words, i + 1), to);
      } else {
        var j := SomeLooseRun(lex.dict, text, words, i);
        var stop := words[j - 1].left + 1;
        MixFromLoose(lex, text, words, i, j);
        LooseRunCovers(lex.dict, text, words, i, j, to);
        MixFromTiles(lex, text, words, j, stop, to);
        HMM.HmmCutTiles(lex.model, text, from, stop);
        TilesAppend(HMM.HmmCut(lex.model, text, from, stop), MixFrom(lex, text, words, j), from, stop, to);
      }
    }
  }

  lemma Nothing(from: nat, to: nat)
    ensures Tiles([], from, to) <==> from == to
  {
  }

  lemma HeadOfTiling(words: seq<WordRange>, from: nat, to: nat)
    requires words != [] && Tiles(words, from, to)
    ensures words[0].left == from && from <= words[0].right
    ensures Tiles(words[1..], words[0].right + 1, to)
  {
    TilesSplit(words, 0, from, to);
  }

  /** With or without the model, the words cover the range in order and none is empty. */
  lemma MixCutTiles(lex: Lexicon, text: seq<Rune>, begin: nat, end: nat, hmm: bool)
    requires lex.Valid() && begin <= end <= |text|
    ensures Tiles(MixCut(lex, text, begin, end, hmm), begin, end)
  {
    var words := MpWords(lex, text, begin, end);
    assert words[0..] == words;
    MixFromTiles(lex, text, words, 0, begin, end);
  }

  // ---------------------------------------------------------------- what the model may change

  /** Every rune of `w` stands alone in `words` and is loose. */
  ghost predicate OverLoose(dict: Dict, text: seq<Rune>, words: seq<WordRange>, w: WordRange) {
    && w.left <= w.right < |text|
    && forall k :: w.left <= k <= w.right ==> IsLoose(dict, text, WordRange(k, k)) && WordRange(k, k) in words
  }

  lemma {:induction false} MixFromOrigin(lex: Lexicon, text: seq<Rune>, words: seq<WordRange>, i: nat, from: nat, to: nat, w: WordRange)
    requires lex.Valid() && i <= |words| && Inside(text, words) && Ordered(words)
    requires Tiles(words[i..], from, to)
    ensures w.left < |text| && w in words[i..] && !IsLoose(lex.dict, text, w) ==> w in MixFrom(lex, text, words, i)
    ensures w in MixFrom(lex, text, words, i) ==>
              || (w.left < |text| && w in words[i..] && !IsLoose(lex.dict, text, w))
              || OverLoose(lex.dict, text, words, w)
    decreases |words| - i
  {
    hide Tiles, MixFrom, Inside, Ordered;
    if i == |words| {
      MixFromEnd(lex, text, words);
    } else {
      HeadOfTiling(words[i..], from, to);
      assert words[i..][1..] == words[i + 1..] && words[i..] == [words[i]] + words[i + 1..];
      WordInside(text, words, i);
      if !IsLoose(lex.dict, text, words[i]) {
        MixFromKept(lex, text, words, i);
        MixFromOrigin(lex, text, words, i + 1, words[i].right + 1, to, w);
      } else {
        var j := SomeLooseRun(lex.dict, text, words, i);
        var stop := words[j - 1].left + 1;
        MixFromLoose(lex, text, words, i, j);
        LooseRunCovers(lex.dict, text, words, i, j, to);
        MixFromOrigin(lex, text, words, j, stop, to, w);
        assert words[i..] == words[i..j] + words[j..];
        if w in HMM.HmmCut(lex.model, text, from, stop) {
          ModelWordOverLoose(lex, text, words, i, j, from, to, w);
        }
      }
    }
  }

  /** What the model cuts out of a run of loose words covers loose runes only. */
  lemma ModelWordOverLoose(lex: Lexicon, text: seq<Rune>, words: seq<WordRange>, i: nat, j: nat, from: nat, to: nat, w: WordRange)
    requires lex.Valid() && i < j <= |words| && Inside(text, words) && Tiles(words[i..], from, to)
    requires forall k :: i <= k < j ==> IsLoose(lex.dict, text, words[k])
    requires from <= words[j - 1].left + 1 <= |text| && w in HMM.HmmCut(lex.model, text, from, words[j - 1].left + 1)
    ensures OverLoose(lex.dict, text, words, w)
  {
    hide Tiles, HMM.HmmCut;
    var stop := words[j - 1].left + 1;
    HMM.HmmCutTiles(lex.model, text, from, stop);
    TilesBounds(HMM.HmmCut(lex.model, text, from, stop), from, stop);
    LooseRunRunes(lex.dict, text, words, i, j, from, to);
  }

  lemma {:induction false} LooseRunRunes(dict: Dict, text: seq<Rune>, words: seq<WordRange>, i: nat, j: nat, from: nat, to: nat)
    requires i < j <= |words| && Inside(text, words)
    requires forall k :: i <= k < j ==> IsLoose(dict, text, words[k])
    requires Tiles(words[i..], from, to)
    ensures forall k :: from <= k <= words[j - 1].left ==>
              k < |text| && IsLoose(dict, text, WordRange(k, k)) && WordRange(k, k) in words
    decreases j - i
  {
    hide Tiles;
    HeadOfTiling(words[i..], from, to);
    assert words[i..][1..] == words[i + 1..];
    assert words[i] == WordRange(from, from);
    if i + 1 < j {
      LooseRunRunes(dict, text, words, i + 1, j, from + 1, to);
    }
  }

  /** What `MixFromOrigin` says of the whole cut. */
  lemma MixCutFromDictionary(lex: Lexicon, text: seq<Rune>, begin: nat, end: nat, w: WordRange)
    requires lex.Valid() && begin <= end <= |text|
    ensures var mp, mix := MpWords(lex, text, begin, end), MixCut(lex, text, begin, end, true);
            && (w.left < |text| && w in mp && !IsLoose(lex.dict, text, w) ==> w in mix)
            && (w in mix ==> w in mp || OverLoose(lex.dict, text, mp, w))
  {
    hide MP.MpCut, IsLoose, OverLoose, MixFrom;
    var words := MpWords(lex, text, begin, end);
    assert words[0..] == words;
    MixFromOrigin(lex, text, words, 0, begin, end, w);
  }

  /** The model keeps every dictionary word and every listed single rune, and invents words only over
      loose single runes. */
  lemma MixCutOrigin(lex: Lexicon, text: seq<Rune>, begin: nat, end: nat, w: WordRange)
    requires lex.Valid() && begin <= end <= |text|
    ensures var mp, mix := MP.MpCut(lex.dict, text, begin, end, 512), MixCut(lex, text, begin, end, true);
            && (w.left < |text| && w in mp && (w.left != w.right || text[w.left] in lex.dict.userSingles) ==> w in mix)
            && (w in mix ==> w in mp || (w.left <= w.right < |text| && forall k :: w.left <= k <= w.right ==>
                  WordRange(k, k) in mp && text[k] !in lex.dict.userSingles))
  {
    hide MP.MpCut, MixCut, MpWords, OverLoose, IsLoose;
    MixCutFromDictionary(lex, text, begin, end, w);
    MpWordsAre(lex, text, begin, end);
    LooseMeans(lex.dict, text, MpWords(lex, text, begin, end), w);
  }

  lemma MpWordsAre(lex: Lexicon, text: seq<Rune>, begin: nat, end: nat)
    requires lex.Valid() && begin <= end <= |text|
    ensures MpWords(lex, text, begin, end) == MP.MpCut(lex.dict, text, begin, end, 512)
  {
    hide MP.MpCut;
  }

  lemma LooseMeans(dict: Dict, text: seq<Rune>, words: seq<WordRange>, w: WordRange)
    ensures w.left < |text| ==> (IsLoose(dict, text, w) <==> w.left == w.right && text[w.left] !in dict.userSingles)
    ensures OverLoose(dict, text, words, w) ==>
              w.left <= w.right < |text| && forall k :: w.left <= k <= w.right ==>
                WordRange(k, k) in words && text[k] !in dict.userSingles
  {
    assert forall k: nat :: k < |text| && IsLoose(dict, text, WordRange(k, k)) ==> text[k] !in dict.userSingles;
  }

  /** Without the model the words are those of the dictionary cut. */
  lemma MixCutWithoutModel(lex: Lexicon, text: seq<Rune>, begin: nat, end: nat)
    requires lex.Valid() && begin <= end <= |text|
    ensures MixCut(lex, text, begin, end, false) == MP.MpCut(lex.dict, text, begin, end, 512)
  {
    hide MP.MpCut;
  }

  /** The words `[i, j)` are single runes that the user dictionary does not list, as many as there are in a row. */
  ghost predicate MaximalLoose(dict: Dict, text: seq<Rune>, words: seq<WordRange>, i: nat, j: nat)
    requires Inside(text, words)
  {
    && i < j <= |words|
    && (forall k :: i <= k < j ==> words[k].left == words[k].right && text[words[k].left] !in dict.userSingles)
    && (j < |words| ==> words[j].left < words[j].right || text[words[j].left] in dict.userSingles)
    && (i > 0 ==> words[i - 1].left < words[i - 1].right || text[words[i - 1].left] in dict.userSingles)
  }

  lemma {:induction false} MixFromRun(lex: Lexicon, text: seq<Rune>, words: seq<WordRange>, n: nat, from: nat, to: nat,
                                      i: nat, j: nat, w: WordRange)
    requires lex.Valid() && Inside(text, words) && Ordered(words) && n <= i && MaximalLoose(lex.dict, text, words, i, j)
    requires Tiles(words[n..], from, to) && words[i].left <= w.left <= words[j - 1].left
    ensures words[i].left <= words[j - 1].left < |text|
    ensures w in MixFrom(lex, text, words, n) <==> w in HMM.HmmCut(lex.model, text, words[i].left, words[j - 1].left + 1)
    decreases i - n
  {
    hide Tiles, MixFrom, Inside, Ordered, HMM.HmmCut, MaximalLoose, IsLoose;
    MaximalRun(lex.dict, text, words, i, j);
    OrderedAt(words, i, j - 1);
    WordInside(text, words, j - 1);
    WordInside(text, words, n);
    HeadOfTiling(words[n..], from, to);
    assert words[n..][1..] == words[n + 1..];
    if n == i {
      MixFromLoose(lex, text, words, i, j);
      RestBehindRun(lex, text, words, i, j, to, w);
    } else if !IsLoose(lex.dict, text, words[n]) {
      MixFromKept(lex, text, words, n);
      MixFromRun(lex, text, words, n + 1, words[n].right + 1, to, i, j, w);
      OrderedAt(words, n + 1, i);
      assert words[n] != w by { HeadOfTiling(words[n + 1..], words[n].right + 1, to); }
    } else {
      var m := SomeLooseRun(lex.dict, text, words, n);
      assert m < i;
      MixFromLoose(lex, text, words, n, m);
      LooseRunCovers(lex.dict, text, words, n, m, to);
      MixFromRun(lex, text, words, m, words[m - 1].left + 1, to, i, j, w);
      OrderedAt(words, m, i);
      HeadOfTiling(words[m..], words[m - 1].left + 1, to);
      ModelWordBefore(lex, text, words[n].left, words[m - 1].left + 1, w);
    }
  }

  lemma MaximalRun(dict: Dict, text: seq<Rune>, words: seq<WordRange>, i: nat, j: nat)
    requires Inside(text, words) && MaximalLoose(dict, text, words, i, j)
    ensures i < j <= |words| && (forall k :: i <= k < j ==> IsLoose(dict, text, words[k]))
    ensures (j < |words| ==> !IsLoose(dict, text, words[j])) && (i > 0 ==> !IsLoose(dict, text, words[i - 1]))
  {
  }

  lemma ModelWordBefore(lex: Lexicon, text: seq<Rune>, from: nat, to: nat, w: WordRange)
    requires lex.Valid() && from <= to <= |text| && w.left >= to
    ensures w !in HMM.HmmCut(lex.model, text, from, to)
  {
    HMM.HmmCutTiles(lex.model, text, from, to);
    TilesBounds(HMM.HmmCut(lex.model, text, from, to), from, to);
    hide HMM.HmmCut;
  }

  /** What comes from the words behind a run does not lie in it. */
  lemma RestBehindRun(lex: Lexicon, text: seq<Rune>, words: seq<WordRange>, i: nat, j: nat, to: nat, w: WordRange)
    requires lex.Valid() && i < j <= |words| && Inside(text, words) && Ordered(words)
    requires forall k :: i <= k < j ==> IsLoose(lex.dict, text, words[k])
    requires Tiles(words[i..], words[i].left, to) && w.left <= words[j - 1].left
    ensures w !in MixFrom(lex, text, words, j)
  {
    hide Tiles, MixFrom, Inside, Ordered;
    LooseRunCovers(lex.dict, text, words, i, j, to);
    MixFromTiles(lex, text, words, j, words[j - 1].left + 1, to);
    TilesBounds(MixFrom(lex, text, words, j), words[j - 1].left + 1, to);
  }

  /** With the model, every maximal run of loose words of the dictionary cut is cut as the model cuts it. Together with
      `MixCutOrigin`, which keeps all other words, this is the whole result. */
  lemma MixCutWithModel(lex: Lexicon, text: seq<Rune>, begin: nat, end: nat, i: nat, j: nat, w: WordRange)
    requires lex.Valid() && begin <= end <= |text|
    requires var mp := MP.MpCut(lex.dict, text, begin, end, 512);
             Inside(text, mp) && MaximalLoose(lex.dict, text, mp, i, j) && mp[i].left <= w.left <= mp[j - 1].left
    ensures var mp := MP.MpCut(lex.dict, text, begin, end, 512);
            && mp[i].left <= mp[j - 1].left < |text|
            && (w in MixCut(lex, text, begin, end, true) <==> w in HMM.HmmCut(lex.model, text, mp[i].left, mp[j - 1].left + 1))
  {
    hide MP.MpCut, HMM.HmmCut, MpWords, MaximalLoose, MixFrom, Inside;
    var words := MpWords(lex, text, begin, end);
    MpWordsAre(lex, text, begin, end);
    assert words[0..] == words;
    MixFromRun(lex, text, words, 0, begin, end, i, j, w);
  }

  // ---------------------------------------------------------------- whole sentences

  /** The cut of the text from rune `cursor` on, range by range. */
  function MixText(lex: Lexicon, text: seq<Rune>, symbols: set<Rune>, cursor: nat, hmm: bool): seq<WordRange>
    requires lex.Valid() && cursor <= |text|
    decreases |text| - cursor
  {
    if cursor == |text| then []
    else
      var end := RangeEnd(text, symbols, cursor);
      MixCut(lex, text, cursor, end, hmm) + MixText(lex, text, symbols, end, hmm)
  }

  lemma MixTextNext(lex: Lexicon, text: seq<Rune>, symbols: set<Rune>, cursor: nat, hmm: bool)
    requires lex.Valid() && cursor < |text|
    ensures var end := RangeEnd(text, symbols, cursor);
            MixText(lex, text, symbols, cursor, hmm) ==
              MixCut(lex, text, cursor, end, hmm) + MixText(lex, text, symbols, end, hmm)
  {
    hide RangeEnd, MixCut, Spells;
  }

  lemma MixTextEnd(lex: Lexicon, text: seq<Rune>, symbols: set<Rune>, hmm: bool)
    requires lex.Valid()
    ensures MixText(lex, text, symbols, |text|, hmm) == []
  {
  }

  lemma {:induction false} MixTextTiles(lex: Lexicon, text: seq<Rune>, symbols: set<Rune>, cursor: nat, hmm: bool)
    requires lex.Valid() && cursor <= |text|
    ensures Tiles(MixText(lex, text, symbols, cursor, hmm), cursor, |text|)
    decreases |text| - cursor
  {
    if cursor < |text| {
      var end := RangeEnd(text, symbols, cursor);
      MixCutTiles(lex, text, cursor, end, hmm);
      MixTextTiles(lex, text, symbols, end, hmm);
      TilesAppend(MixCut(lex, text, cursor, end, hmm), MixText(lex, text, symbols, end, hmm), cursor, end, |text|);
    }
  }

  lemma MixCutInside(lex: Lexicon, text: seq<Rune>, begin: nat, end: nat, hmm: bool, w: WordRange)
    requires lex.Valid() && begin <= end <= |text| && w in MixCut(lex, text, begin, end, hmm)
    ensures begin <= w.left < end
  {
    MixCutTiles(lex, text, begin, end, hmm);
    TilesBounds(MixCut(lex, text, begin, end, hmm), begin, end);
  }

  lemma {:induction false} MixTextFromRange(lex: Lexicon, text: seq<Rune>, symbols: set<Rune>, cursor: nat, hmm: bool,
                                            a: nat, b: nat, w: WordRange)
    requires lex.Valid() && cursor <= a && Begins(text, symbols, cursor) && IsRange(text, symbols, a, b) && a <= w.left < b
    ensures w in MixText(lex, text, symbols, cursor, hmm) <==> w in MixCut(lex, text, a, b, hmm)
    decreases a - cursor
  {
    hide MixCut, MixText, IsRange, Begins;
    assert cursor < |text| by { RangeIsInside(text, symbols, a, b); }
    var end := RangeEnd(text, symbols, cursor);
    RangeEndExactly(text, symbols, cursor, end);
    MixTextNext(lex, text, symbols, cursor, hmm);
    if cursor == a {
      RangeIsUnique(text, symbols, a, b);
      MixTextTiles(lex, text, symbols, end, hmm);
      TilesBounds(MixText(lex, text, symbols, end, hmm), end, |text|);
    } else {
      RangesApart(text, symbols, cursor, a, b);
      MixTextFromRange(lex, text, symbols, end, hmm, a, b, w);
      if w in MixCut(lex, text, cursor, end, hmm) {
        MixCutInside(lex, text, cursor, end, hmm, w);
      }
    }
  }

  /** Every range of a sentence is cut by itself. */
  lemma MixTextOfRange(lex: Lexicon, text: seq<Rune>, symbols: set<Rune>, hmm: bool, a: nat, b: nat, w: WordRange)
    requires lex.Valid() && IsRange(text, symbols, a, b) && a <= w.left < b
    ensures w in MixText(lex, text, symbols, 0, hmm) <==> w in MixCut(lex, text, a, b, hmm)
  {
    MixTextFromRange(lex, text, symbols, 0, hmm, a, b, w);
  }

  /** No word of two or more runes holds a separator. */
  lemma {:induction false} WordsHoldNoSymbol(lex: Lexicon, text: seq<Rune>, symbols: set<Rune>, cursor: nat, hmm: bool, w: WordRange)
    requires lex.Valid() && cursor <= |text| && w in MixText(lex, text, symbols, cursor, hmm)
    ensures w.left <= w.right < |text|
    ensures w.left < w.right ==> forall k :: w.left <= k <= w.right ==> text[k] !in symbols
    decreases |text| - cursor
  {
    if cursor < |text| {
      var end := RangeEnd(text, symbols, cursor);
      var first := MixCut(lex, text, cursor, end, hmm);
      if w in first {
        MixCutTiles(lex, text, cursor, end, hmm);
        TilesBounds(first, cursor, end);
      } else {
        WordsHoldNoSymbol(lex, text, symbols, end, hmm, w);
      }
    }
  }

  class MixSegment {
    const mpSeg: MP.MPSegment
    const hmmSeg: HMM.HMMSegment
    const symbols: set<Rune>

    constructor (dictTrie: DictTrie, model: HMM.HMMModel, symbols: set<Rune>)
      ensures mpSeg.dictTrie == dictTrie && hmmSeg.model == model && this.symbols == symbols
    {
      mpSeg := new MP.MPSegment(dictTrie);
      hmmSeg := new HMM.HMMSegment(model);
      this.symbols := symbols;
    }

    ghost predicate Valid()
      reads mpSeg.dictTrie.trie, mpSeg.dictTrie.trie.repr
    {
      mpSeg.dictTrie.Valid() && hmmSeg.model.WellFormed()
    }

    ghost function Lex(): Lexicon
      reads mpSeg.dictTrie.trie
    {
      Lexicon(mpSeg.dictTrie.View(), hmmSeg.model)
    }

    method Cut(runes: seq<RuneStr>, begin: nat, end: nat, before: seq<WordRange>, hmm: bool) returns (res: seq<WordRange>)
      requires Valid() && begin <= end <= |runes|
      ensures Lex().Valid()
      ensures res == before + MixCut(Lex(), RunesOf(runes), begin, end, hmm)
    {
      hide MP.MpCut;
      if !hmm {
        res := mpSeg.Cut(runes, begin, end, before, MAX_WORD_LENGTH);
        return;
      }
      var words := mpSeg.Cut(runes, begin, end, [], MAX_WORD_LENGTH);
      assert words == MpWords(Lex(), RunesOf(runes), begin, end);
      res := Recut(runes, words, before, Lex());
    }

    /** Cuts every run of loose words again. */
    method Recut(runes: seq<RuneStr>, words: seq<WordRange>, before: seq<WordRange>, ghost lex: Lexicon) returns (res: seq<WordRange>)
      requires lex.Valid() && lex.model == hmmSeg.model && lex.dict.userSingles == mpSeg.dictTrie.userSingles
      requires Inside(RunesOf(runes), words) && Ordered(words)
      ensures res == before + MixFrom(lex, RunesOf(runes), words, 0)
    {
      hide HMM.HmmCut, Spells, MixFrom, Ordered;
      ghost var text := RunesOf(runes);
      res := before;
      var i := 0;
      while i < |words|
        invariant 0 <= i <= |words|
        invariant res + MixFrom(lex, text, words, i) == before + MixFrom(lex, text, words, 0)
      {
        if words[i].left != words[i].right || mpSeg.IsUserDictSingleChineseWord(runes[words[i].left].rune) {
          MixFromKept(lex, text, words, i);
          res := res + [words[i]];
          i := i + 1;
          continue;
        }
        var j := i;
        while j < |words| && words[j].left == words[j].right
              && !mpSeg.IsUserDictSingleChineseWord(runes[words[j].left].rune)
          invariant i <= j <= |words|
          invariant forall k :: i <= k < j ==> IsLoose(lex.dict, text, words[k])
        {
          j := j + 1;
        }
        MixFromLoose(lex, text, words, i, j);
        var hmmRes := hmmSeg.Cut(runes, words[i].left, words[j - 1].left + 1, []);
        res := res + hmmRes;
        i := j;
      }
      MixFromEnd(lex, text, words);
      assert res + [] == res;
    }

    lemma LexIsValid()
      requires Valid()
      ensures Lex().Valid()
    {
    }

    /** The ranges of a sentence, cut one after the other. */
    method CutRanges(sentence: seq<Byte>, hmm: bool) returns (ghost text: seq<Rune>, runes: seq<RuneStr>, wrs: seq<WordRange>)
      requires Valid() && |sentence| < UINT32
      ensures Lex().Valid()
      ensures runes == TextOf(sentence) && text == RunesOf(runes)
      ensures wrs == MixText(Lex(), text, symbols, 0, hmm)
    {
      hide Valid, Lex, RangeEnd, MixCut, MixText;
      ghost var lex := Lex();
      LexIsValid();
      var preFilter: PreFilter := new PreFilter(symbols, sentence);
      runes, text := preFilter.sentence, RunesOf(preFilter.sentence);
      wrs := [];
      while preFilter.HasNext()
        invariant preFilter.cursor <= |runes|
        invariant Valid() && lex == Lex()
        invariant wrs + MixText(lex, text, symbols, preFilter.cursor, hmm) == MixText(lex, text, symbols, 0, hmm)
        decreases |runes| - preFilter.cursor
      {
        MixTextNext(lex, text, symbols, preFilter.cursor, hmm);
        var range := preFilter.Next();
        wrs := Cut(runes, range.begin, range.end, wrs, hmm);
      }
      MixTextEnd(lex, text, symbols, hmm);
      assert wrs + [] == wrs;
    }

    /** Segmentation loses nothing: the words of a sentence that decodes concatenate to its bytes, and each
        word knows how many bytes and runes come before it. A sentence that does not decode has no words. */
    method CutSentence(sentence: seq<Byte>, hmm: bool) returns (words: seq<Word>)
      requires Valid() && |sentence| < UINT32
      ensures Lex().Valid()
      ensures Draws(sentence, MixText(Lex(), RunesOf(TextOf(sentence)), symbols, 0, hmm), words)
      ensures if Decode(sentence).Some? then Lossless(sentence, words) else words == []
    {
      hide MixText, Draws, Lossless, Tiles, Drawable, Spells, GetWordFromRunes;
      ghost var text;
      var runes, wrs;
      text, runes, wrs := CutRanges(sentence, hmm);
      MixTextTiles(Lex(), text, symbols, 0, hmm);
      SentenceDraws(sentence, wrs);
      words := GetWordsFromWordRanges(sentence, runes, wrs);
      WordsDraw(sentence, wrs, words);
      TilingIsLossless(sentence, wrs, words);
    }
  }

  /** The words are the ranges, drawn from the sentence one for one. */
  ghost predicate Draws(sentence: seq<Byte>, wrs: seq<WordRange>, words: seq<Word>) {
    && Drawable(sentence, TextOf(sentence), wrs)
    && |words| == |wrs|
    && forall k :: 0 <= k < |words| ==> words[k] == GetWordFromRunes(sentence, TextOf(sentence), wrs[k])
  }

  /** The words concatenate to the sentence and carry the right offsets, in bytes and in runes. */
  ghost predicate Lossless(sentence: seq<Byte>, words: seq<Word>) {
    && Bytes(words) == sentence
    && RuneCount(words) == |TextOf(sentence)|
    && forall k :: 0 <= k < |words| ==>
         && words[k].offset == |Bytes(words[..k])|
         && words[k].unicodeOffset == RuneCount(words[..k])
         && words[k].word != []
  }

  /** So the words are pieces of the sentence, none empty, each beginning where the one before it ends, from its first byte
      and rune to its last. */
  lemma LosslessMeans(sentence: seq<Byte>, words: seq<Word>)
    requires Lossless(sentence, words)
    ensures words == [] <==> sentence == []
    ensures words != [] ==>
              && words[0].offset == words[0].unicodeOffset == 0
              && var last := words[|words| - 1];
              && last.offset + |last.word| == |sentence| && last.unicodeOffset + last.unicodeLength == |TextOf(sentence)|
    ensures forall k :: 0 <= k < |words| - 1 ==>
              && words[k + 1].offset == words[k].offset + |words[k].word|
              && words[k + 1].unicodeOffset == words[k].unicodeOffset + words[k].unicodeLength
    ensures forall k :: 0 <= k < |words| ==>
              && words[k].word != [] && words[k].offset + |words[k].word| <= |sentence|
              && sentence[words[k].offset..words[k].offset + |words[k].word|] == words[k].word
  {
    forall k | 0 <= k < |words|
      ensures words[k].word != [] && words[k].offset + |words[k].word| <= |sentence|
      ensures sentence[words[k].offset..words[k].offset + |words[k].word|] == words[k].word
    {
      PieceAt(words, k);
    }
    forall k | 0 <= k < |words| - 1
      ensures words[k + 1].offset == words[k].offset + |words[k].word|
      ensures words[k + 1].unicodeOffset == words[k].unicodeOffset + words[k].unicodeLength
    {
      PieceAt(words, k);
    }
    LosslessEnds(sentence, words);
  }

  lemma LosslessEnds(sentence: seq<Byte>, words: seq<Word>)
    requires Lossless(sentence, words)
    ensures words == [] <==> sentence == []
    ensures words != [] ==>
              && words[0].offset == words[0].unicodeOffset == 0
              && var last := words[|words| - 1];
              && last.offset + |last.word| == |sentence| && last.unicodeOffset + last.unicodeLength == |TextOf(sentence)|
  {
    hide TextOf;
    assert words[..|words|] == words && words[..0] == [];
  }

  lemma {:induction false} PieceAt(words: seq<Word>, k: nat)
    requires k < |words|
    ensures |Bytes(words[..k])| + |words[k].word| == |Bytes(words[..k + 1])| <= |Bytes(words)|
    ensures RuneCount(words[..k]) + words[k].unicodeLength == RuneCount(words[..k + 1])
    ensures Bytes(words)[|Bytes(words[..k])|..|Bytes(words[..k])| + |words[k].word|] == words[k].word
  {
    var n := |words| - 1;
    hide Bytes, RuneCount;
    WordsSnoc(words);
    if k < n {
      PieceAt(words[..n], k);
      assert words[..n][..k] == words[..k] && words[..n][..k + 1] == words[..k + 1];
    } else {
      assert words[..k + 1] == words;
    }
  }

  lemma TextCovers(sentence: seq<Byte>)
    ensures TextOf(sentence) != [] || Decode(sentence).Some? ==> Covers(TextOf(sentence), 0, 0, |sentence|)
    ensures TextOf(sentence) == [] ==> forall wrs :: Tiles(wrs, 0, 0) ==> wrs == []
  {
    if Decode(sentence).Some? {
      DecodeCovers(sentence, 0, 0);
    }
  }

  lemma WordsDraw(sentence: seq<Byte>, wrs: seq<WordRange>, words: seq<Word>)
    requires Drawable(sentence, TextOf(sentence), wrs) && |words| == |wrs|
    requires forall k :: 0 <= k < |words| ==> words[k] == GetWordFromRunes(sentence, TextOf(sentence), wrs[k])
    ensures Draws(sentence, wrs, words)
  {
  }

  lemma SentenceDraws(sentence: seq<Byte>, wrs: seq<WordRange>)
    requires Tiles(wrs, 0, |TextOf(sentence)|)
    ensures Drawable(sentence, TextOf(sentence), wrs)
  {
    TextCovers(sentence);
    if Decode(sentence).Some? {
      DrawTiling(sentence, TextOf(sentence), wrs, |TextOf(sentence)|);
    }
  }

  lemma TilingIsLossless(sentence: seq<Byte>, wrs: seq<WordRange>, words: seq<Word>)
    requires |sentence| < UINT32 && Tiles(wrs, 0, |TextOf(sentence)|) && Draws(sentence, wrs, words)
    ensures if Decode(sentence).Some? then Lossless(sentence, words) else words == []
  {
    var runes := TextOf(sentence);
    TextCovers(sentence);
    if Decode(sentence).Some? {
      TilingWords(sentence, runes, wrs, |runes|, words);
      assert sentence[..|sentence|] == sentence;
      forall k | 0 <= k < |words|
        ensures words[k].offset == |Bytes(words[..k])|
        ensures words[k].unicodeOffset == RuneCount(words[..k]) && words[k].word != []
      {
        TilingOffsets(sentence, runes, wrs, |runes|, words, k);
      }
    }
  }
}
