/** Boost_Searcher/cppjieba/QuerySegment.hpp: the mixed cut, with the dictionary words of two and three
    runes found inside its longer words put in front of them. */
module QuerySegment {
  import opened Wrappers
  import opened Unicode
  import opened DictTrie
  import opened PreFilter
  import opened MixSegment

  /** The dictionary words of `n` runes inside `w`, from its `i`-th rune on. */
  function Grams(dict: Dict, text: seq<Rune>, w: WordRange, n: nat, i: nat): seq<WordRange>
    requires 1 <= n && w.left <= w.right < |text|
    decreases w.Length() - i
  {
    if i + n - 1 >= w.Length() then []
    else
      var gram := WordRange(w.left + i, w.left + i + n - 1);
      (if text[gram.left..gram.right + 1] in dict.words then [gram] else []) + Grams(dict, text, w, n, i + 1)
  }

  /** The extra words put before `w`. */
  function Extras(dict: Dict, text: seq<Rune>, w: WordRange): seq<WordRange>
    requires w.left <= w.right < |text|
  {
    (if w.Length() > 2 then Grams(dict, text, w, 2, 0) else [])
    + (if w.Length() > 3 then Grams(dict, text, w, 3, 0) else [])
  }

  /** What the words of a mixed cut become, from the `i`-th on. */
  function QueryFrom(dict: Dict, text: seq<Rune>, mix: seq<WordRange>, i: nat): seq<WordRange>
    requires Inside(text, mix) && i <= |mix|
    decreases |mix| - i
  {
    if i == |mix| then []
    else Extras(dict, text, mix[i]) + [mix[i]] + QueryFrom(dict, text, mix, i + 1)
  }

  lemma QueryFromNext(dict: Dict, text: seq<Rune>, mix: seq<WordRange>, i: nat)
    requires Inside(text, mix) && i < |mix|
    ensures QueryFrom(dict, text, mix, i) == Extras(dict, text, mix[i]) + [mix[i]] + QueryFrom(dict, text, mix, i + 1)
  {
    hide Extras;
  }

  lemma QueryFromEnd(dict: Dict, text: seq<Rune>, mix: seq<WordRange>)
    requires Inside(text, mix)
    ensures QueryFrom(dict, text, mix, |mix|) == []
  {
  }

  function MixWords(lex: Lexicon, text: seq<Rune>, begin: nat, end: nat, hmm: bool): (mix: seq<WordRange>)
    requires lex.Valid() && begin <= end <= |text|
    ensures Tiles(mix, begin, end) && Inside(text, mix)
    ensures mix == MixCut(lex, text, begin, end, hmm)
  {
    MixCutTiles(lex, text, begin, end, hmm);
    TilesBounds(MixCut(lex, text, begin, end, hmm), begin, end);
    MixCut(lex, text, begin, end, hmm)
  }

  function QueryCut(lex: Lexicon, text: seq<Rune>, begin: nat, end: nat, hmm: bool): seq<WordRange>
    requires lex.Valid() && begin <= end <= |text|
  {
    QueryFrom(lex.dict, text, MixWords(lex, text, begin, end, hmm), 0)
  }

  // ---------------------------------------------------------------- which extras there are

  /** `g` is a dictionary word of two runes strictly inside a longer word `w`, or of three. */
  ghost predicate IsExtra(dict: Dict, text: seq<Rune>, w: WordRange, g: WordRange) {
    && w.left <= g.left <= g.right <= w.right < |text|
    && (g.Length() == 2 || g.Length() == 3)
    && g.Length() < w.Length()
    && text[g.left..g.right + 1] in dict.words
  }

  lemma {:induction false} GramsExact(dict: Dict, text: seq<Rune>, w: WordRange, n: nat, i: nat, g: WordRange)
    requires 1 <= n && w.left <= w.right < |text|
    ensures g in Grams(dict, text, w, n, i) <==>
      && w.left + i <= g.left && g.right <= w.right && g.Length() == n
      && text[g.left..g.right + 1] in dict.words
    decreases w.Length() - i
  {
    if i + n - 1 < w.Length() {
      GramsExact(dict, text, w, n, i + 1, g);
    }
  }

  lemma ExtrasExact(dict: Dict, text: seq<Rune>, w: WordRange, g: WordRange)
    requires w.left <= w.right < |text|
    ensures g in Extras(dict, text, w) <==> IsExtra(dict, text, w, g)
    ensures g in Extras(dict, text, w) <==>
              && w.left <= g.left && g.right <= w.right && (g.right == g.left + 1 || g.right == g.left + 2)
              && g.right - g.left < w.right - w.left && text[g.left..g.right + 1] in dict.words
  {
    GramsExact(dict, text, w, 2, 0, g);
    GramsExact(dict, text, w, 3, 0, g);
  }

  lemma {:induction false} QueryFromExact(dict: Dict, text: seq<Rune>, mix: seq<WordRange>, i: nat, g: WordRange)
    requires Inside(text, mix) && i <= |mix|
    ensures g in QueryFrom(dict, text, mix, i) <==>
      exists k :: i <= k < |mix| && (g == mix[k] || IsExtra(dict, text, mix[k], g))
    decreases |mix| - i
  {
    hide IsExtra, Extras;
    if i < |mix| {
      QueryFromExact(dict, text, mix, i + 1, g);
      ExtrasExact(dict, text, mix[i], g);
      var first := Extras(dict, text, mix[i]) + [mix[i]];
      assert g in first <==> g in Extras(dict, text, mix[i]) || g == mix[i];
    }
  }

  /** The result holds the words of the mixed cut, every dictionary word of two or three runes strictly
      inside one of them, and nothing else. */
  lemma QueryCutExact(lex: Lexicon, text: seq<Rune>, begin: nat, end: nat, hmm: bool, g: WordRange)
    requires lex.Valid() && begin <= end <= |text|
    ensures var mix := MixWords(lex, text, begin, end, hmm);
            g in QueryCut(lex, text, begin, end, hmm) <==>
              g in mix || exists k :: 0 <= k < |mix| && IsExtra(lex.dict, text, mix[k], g)
  {
    var mix := MixWords(lex, text, begin, end, hmm);
    hide IsExtra, QueryFrom, MixWords;
    QueryFromExact(lex.dict, text, mix, 0, g);
  }

  // ---------------------------------------------------------------- dropping the extras

  /** The words of `words` that are among `kept`. */
  function Only(words: seq<WordRange>, kept: seq<WordRange>): seq<WordRange> {
    if words == [] then []
    else (if words[0] in kept then [words[0]] else []) + Only(words[1..], kept)
  }

  lemma OnlyCons(w: WordRange, words: seq<WordRange>, kept: seq<WordRange>)
    ensures Only([w] + words, kept) == (if w in kept then [w] else []) + Only(words, kept)
  {
    assert ([w] + words)[1..] == words;
  }

  lemma {:induction false} OnlyAppend(a: seq<WordRange>, b: seq<WordRange>, kept: seq<WordRange>)
    ensures Only(a + b, kept) == Only(a, kept) + Only(b, kept)
  {
    hide Only;
    if a == [] {
      OnlyNothing(kept);
      assert a + b == b && [] + Only(b, kept) == Only(b, kept);
    } else {
      OnlyAppend(a[1..], b, kept);
      OnlyCons(a[0], a[1..], kept);
      OnlyCons(a[0], a[1..] + b, kept);
      assert [a[0]] + a[1..] == a && [a[0]] + (a[1..] + b) == a + b;
      Associates(if a[0] in kept then [a[0]] else [], Only(a[1..], kept), Only(b, kept));
    }
  }

  lemma OnlyNothing(kept: seq<WordRange>)
    ensures Only([], kept) == []
  {
  }

  lemma Regroup(a: seq<WordRange>, b: seq<WordRange>, c: seq<WordRange>, d: seq<WordRange>)
    ensures a + b + c + d == a + (b + c + d)
  {
  }

  lemma Associates(a: seq<WordRange>, b: seq<WordRange>, c: seq<WordRange>)
    ensures a + (b + c) == (a + b) + c
  {
  }

  lemma {:induction false} OnlyNone(a: seq<WordRange>, kept: seq<WordRange>)
    requires forall w :: w in a ==> w !in kept
    ensures Only(a, kept) == []
  {
    if a != [] {
      OnlyNone(a[1..], kept);
    }
  }

  /** Words of a tiling do not overlap. */
  lemma {:induction false} TilesDisjoint(words: seq<WordRange>, from: nat, to: nat, a: nat, b: nat)
    requires Tiles(words, from, to) && a < b < |words|
    ensures words[a].right < words[b].left
    decreases |words|
  {
    var n := |words| - 1;
    if b < n {
      TilesDisjoint(words[..n], from, words[n].left, a, b);
    } else {
      TilesBounds(words[..n], from, words[n].left);
      assert words[..n][a] == words[a];
    }
  }

  /** An extra is no word of the mixed cut. */
  lemma ExtraIsNew(dict: Dict, text: seq<Rune>, mix: seq<WordRange>, from: nat, to: nat, k: nat, g: WordRange)
    requires Tiles(mix, from, to) && k < |mix| && IsExtra(dict, text, mix[k], g)
    ensures g !in mix
  {
    if m :| 0 <= m < |mix| && mix[m] == g {
      if m < k {
        TilesDisjoint(mix, from, to, m, k);
      } else if k < m {
        TilesDisjoint(mix, from, to, k, m);
      }
    }
  }

  lemma {:induction false} OnlyMixFrom(dict: Dict, text: seq<Rune>, mix: seq<WordRange>, from: nat, to: nat, i: nat)
    requires Tiles(mix, from, to) && Inside(text, mix) && i <= |mix|
    ensures Only(QueryFrom(dict, text, mix, i), mix) == mix[i..]
    decreases |mix| - i
  {
    hide Tiles, IsExtra, Extras;
    if i < |mix| {
      var extras, rest := Extras(dict, text, mix[i]), QueryFrom(dict, text, mix, i + 1);
      forall g | g in extras
        ensures g !in mix
      {
        ExtrasExact(dict, text, mix[i], g);
        ExtraIsNew(dict, text, mix, from, to, i, g);
      }
      OnlyNone(extras, mix);
      OnlyAppend(extras, [mix[i]], mix);
      OnlyAppend(extras + [mix[i]], rest, mix);
      assert Only([mix[i]], mix) == [mix[i]];
      OnlyMixFrom(dict, text, mix, from, to, i + 1);
      assert mix[i..] == [mix[i]] + mix[i + 1..];
    }
  }

  /** Dropping the extras leaves exactly the mixed cut, in order. */
  lemma DroppingExtrasGivesMix(lex: Lexicon, text: seq<Rune>, begin: nat, end: nat, hmm: bool)
    requires lex.Valid() && begin <= end <= |text|
    ensures Only(QueryCut(lex, text, begin, end, hmm), MixWords(lex, text, begin, end, hmm)) == MixWords(lex, text, begin, end, hmm)
  {
    var mix := MixWords(lex, text, begin, end, hmm);
    OnlyMixFrom(lex.dict, text, mix, begin, end, 0);
    assert mix[0..] == mix;
  }

  // ---------------------------------------------------------------- no range twice

  ghost predicate Distinct(words: seq<WordRange>) {
    forall i, j :: 0 <= i < j < |words| ==> words[i] != words[j]
  }

  lemma DistinctAppend(a: seq<WordRange>, b: seq<WordRange>)
    requires Distinct(a) && Distinct(b) && forall w :: w in a ==> w !in b
    ensures Distinct(a + b)
  {
    assert forall i :: 0 <= i < |a| ==> a[i] in a;
    assert forall i :: 0 <= i < |b| ==> b[i] in b;
  }

  lemma {:induction false} GramsDistinct(dict: Dict, text: seq<Rune>, w: WordRange, n: nat, i: nat)
    requires 1 <= n && w.left <= w.right < |text|
    ensures Distinct(Grams(dict, text, w, n, i))
    decreases w.Length() - i
  {
    if i + n - 1 < w.Length() {
      var gram := WordRange(w.left + i, w.left + i + n - 1);
      var rest := Grams(dict, text, w, n, i + 1);
      GramsDistinct(dict, text, w, n, i + 1);
      GramsExact(dict, text, w, n, i + 1, gram);
      DistinctAppend([gram], rest);
      assert [] + rest == rest;
    }
  }

  /** The grams of a word have different lengths or starts, and none is the word itself. */
  lemma ExtrasDistinct(dict: Dict, text: seq<Rune>, w: WordRange)
    requires w.left <= w.right < |text|
    ensures Distinct(Extras(dict, text, w) + [w])
  {
    var two := if w.Length() > 2 then Grams(dict, text, w, 2, 0) else [];
    var three := if w.Length() > 3 then Grams(dict, text, w, 3, 0) else [];
    GramsDistinct(dict, text, w, 2, 0);
    GramsDistinct(dict, text, w, 3, 0);
    forall g | g in two
      ensures g !in three
    {
      GramsExact(dict, text, w, 2, 0, g);
      GramsExact(dict, text, w, 3, 0, g);
    }
    DistinctAppend(two, three);
    ExtrasExact(dict, text, w, w);
    DistinctAppend(two + three, [w]);
  }

  /** Whatever comes from one word of a tiling does not come from a later one. */
  lemma OtherWordsOther(dict: Dict, text: seq<Rune>, mix: seq<WordRange>, from: nat, to: nat, i: nat, g: WordRange)
    requires Tiles(mix, from, to) && Inside(text, mix) && i < |mix|
    requires g in Extras(dict, text, mix[i]) + [mix[i]]
    ensures g !in QueryFrom(dict, text, mix, i + 1)
  {
    ExtrasExact(dict, text, mix[i], g);
    QueryFromExact(dict, text, mix, i + 1, g);
    hide Extras, QueryFrom, Tiles;
    forall k | i < k < |mix|
      ensures g != mix[k] && !IsExtra(dict, text, mix[k], g)
    {
      TilesDisjoint(mix, from, to, i, k);
    }
  }

  lemma {:induction false} QueryFromDistinct(dict: Dict, text: seq<Rune>, mix: seq<WordRange>, from: nat, to: nat, i: nat)
    requires Tiles(mix, from, to) && Inside(text, mix) && i <= |mix|
    ensures Distinct(QueryFrom(dict, text, mix, i))
    decreases |mix| - i
  {
    hide Tiles, Extras, Distinct;
    if i == |mix| {
      NothingDistinct();
    } else {
      ExtrasDistinct(dict, text, mix[i]);
      QueryFromDistinct(dict, text, mix, from, to, i + 1);
      forall g | g in Extras(dict, text, mix[i]) + [mix[i]]
        ensures g !in QueryFrom(dict, text, mix, i + 1)
      {
        OtherWordsOther(dict, text, mix, from, to, i, g);
      }
      DistinctAppend(Extras(dict, text, mix[i]) + [mix[i]], QueryFrom(dict, text, mix, i + 1));
    }
  }

  lemma NothingDistinct()
    ensures Distinct([])
  {
  }

  /** No range appears twice in the result. */
  lemma QueryCutDistinct(lex: Lexicon, text: seq<Rune>, begin: nat, end: nat, hmm: bool)
    requires lex.Valid() && begin <= end <= |text|
    ensures Distinct(QueryCut(lex, text, begin, end, hmm))
  {
    QueryFromDistinct(lex.dict, text, MixWords(lex, text, begin, end, hmm), begin, end, 0);
  }

  // ---------------------------------------------------------------- whole sentences

  function QueryText(lex: Lexicon, text: seq<Rune>, symbols: set<Rune>, cursor: nat, hmm: bool): seq<WordRange>
    requires lex.Valid() && cursor <= |text|
    decreases |text| - cursor
  {
    if cursor == |text| then []
    else
      var end := RangeEnd(text, symbols, cursor);
      QueryCut(lex, text, cursor, end, hmm) + QueryText(lex, text, symbols, end, hmm)
  }

  lemma QueryTextNext(lex: Lexicon, text: seq<Rune>, symbols: set<Rune>, cursor: nat, hmm: bool)
    requires lex.Valid() && cursor < |text|
    ensures var end := RangeEnd(text, symbols, cursor);
            QueryText(lex, text, symbols, cursor, hmm) ==
              QueryCut(lex, text, cursor, end, hmm) + QueryText(lex, text, symbols, end, hmm)
  {
    hide RangeEnd, QueryCut, Spells;
  }

  lemma QueryTextEnd(lex: Lexicon, text: seq<Rune>, symbols: set<Rune>, hmm: bool)
    requires lex.Valid()
    ensures QueryText(lex, text, symbols, |text|, hmm) == []
  {
  }

  /** No word of two or more runes holds a separator, extra or not. */
  lemma {:induction false} QueryWordsHoldNoSymbol(lex: Lexicon, text: seq<Rune>, symbols: set<Rune>, cursor: nat, hmm: bool, g: WordRange)
    requires lex.Valid() && cursor <= |text| && g in QueryText(lex, text, symbols, cursor, hmm)
    ensures g.left <= g.right < |text|
    ensures g.left < g.right ==> forall k :: g.left <= k <= g.right ==> text[k] !in symbols
    decreases |text| - cursor
  {
    hide QueryCut;
    if cursor < |text| {
      var end := RangeEnd(text, symbols, cursor);
      if g in QueryCut(lex, text, cursor, end, hmm) {
        QueryCutExact(lex, text, cursor, end, hmm, g);
        var mix := MixWords(lex, text, cursor, end, hmm);
        TilesBounds(mix, cursor, end);
      } else {
        QueryWordsHoldNoSymbol(lex, text, symbols, end, hmm, g);
      }
    }
  }

  lemma QueryCutInside(lex: Lexicon, text: seq<Rune>, begin: nat, end: nat, hmm: bool, g: WordRange)
    requires lex.Valid() && begin <= end <= |text| && g in QueryCut(lex, text, begin, end, hmm)
    ensures begin <= g.left <= g.right < end
  {
    var mix := MixWords(lex, text, begin, end, hmm);
    QueryCutExact(lex, text, begin, end, hmm, g);
    TilesBounds(mix, begin, end);
    hide QueryCut, MixWords;
  }

  lemma {:induction false} QueryTextBehind(lex: Lexicon, text: seq<Rune>, symbols: set<Rune>, cursor: nat, hmm: bool, g: WordRange)
    requires lex.Valid() && cursor <= |text| && g in QueryText(lex, text, symbols, cursor, hmm)
    ensures cursor <= g.left
    decreases |text| - cursor
  {
    hide QueryCut;
    var end := RangeEnd(text, symbols, cursor);
    if g in QueryCut(lex, text, cursor, end, hmm) {
      QueryCutInside(lex, text, cursor, end, hmm, g);
    } else {
      QueryTextBehind(lex, text, symbols, end, hmm, g);
    }
  }

  lemma {:induction false} QueryTextFromRange(lex: Lexicon, text: seq<Rune>, symbols: set<Rune>, cursor: nat, hmm: bool,
                                              a: nat, b: nat, g: WordRange)
    requires lex.Valid() && cursor <= a && Begins(text, symbols, cursor) && IsRange(text, symbols, a, b) && a <= g.left < b
    ensures g in QueryText(lex, text, symbols, cursor, hmm) <==> g in QueryCut(lex, text, a, b, hmm)
    decreases a - cursor
  {
    hide QueryCut, QueryText, IsRange, Begins;
    RangeIsInside(text, symbols, a, b);
    var end := RangeEnd(text, symbols, cursor);
    RangeEndExactly(text, symbols, cursor, end);
    QueryTextNext(lex, text, symbols, cursor, hmm);
    if cursor == a {
      RangeIsUnique(text, symbols, a, b);
      if g in QueryText(lex, text, symbols, end, hmm) {
        QueryTextBehind(lex, text, symbols, end, hmm, g);
      }
    } else {
      RangesApart(text, symbols, cursor, a, b);
      QueryTextFromRange(lex, text, symbols, end, hmm, a, b, g);
      if g in QueryCut(lex, text, cursor, end, hmm) {
        QueryCutInside(lex, text, cursor, end, hmm, g);
      }
    }
  }

  /** Every range of a sentence is cut by itself. */
  lemma QueryTextOfRange(lex: Lexicon, text: seq<Rune>, symbols: set<Rune>, hmm: bool, a: nat, b: nat, g: WordRange)
    requires lex.Valid() && IsRange(text, symbols, a, b) && a <= g.left < b
    ensures g in QueryText(lex, text, symbols, 0, hmm) <==> g in QueryCut(lex, text, a, b, hmm)
  {
    QueryTextFromRange(lex, text, symbols, 0, hmm, a, b, g);
  }

  /** No range appears twice in the whole sentence. */
  lemma {:induction false} QueryTextDistinct(lex: Lexicon, text: seq<Rune>, symbols: set<Rune>, cursor: nat, hmm: bool)
    requires lex.Valid() && cursor <= |text|
    ensures Distinct(QueryText(lex, text, symbols, cursor, hmm))
    decreases |text| - cursor
  {
    hide QueryCut, Distinct;
    if cursor == |text| {
      NothingDistinct();
    } else {
      var end := RangeEnd(text, symbols, cursor);
      var first, rest := QueryCut(lex, text, cursor, end, hmm), QueryText(lex, text, symbols, end, hmm);
      QueryCutDistinct(lex, text, cursor, end, hmm);
      QueryTextDistinct(lex, text, symbols, end, hmm);
      forall g | g in first
        ensures g !in rest
      {
        QueryCutInside(lex, text, cursor, end, hmm, g);
        if g in rest {
          QueryTextBehind(lex, text, symbols, end, hmm, g);
        }
      }
      DistinctAppend(first, rest);
    }
  }

  class QuerySegment {
    const mixSeg: MixSegment
    const trie: DictTrie
    const symbols: set<Rune>

    constructor (mixSeg: MixSegment)
      ensures this.mixSeg == mixSeg && trie == mixSeg.mpSeg.dictTrie && symbols == mixSeg.symbols
    {
      this.mixSeg, trie, symbols := mixSeg, mixSeg.mpSeg.dictTrie, mixSeg.symbols;
    }

    ghost predicate Valid()
      reads trie.trie, trie.trie.repr
    {
      trie == mixSeg.mpSeg.dictTrie && mixSeg.Valid()
    }

    method Cut(runes: seq<RuneStr>, begin: nat, end: nat, before: seq<WordRange>, hmm: bool) returns (res: seq<WordRange>)
      requires Valid() && begin <= end <= |runes|
      ensures mixSeg.Lex().Valid()
      ensures res == before + QueryCut(mixSeg.Lex(), RunesOf(runes), begin, end, hmm)
    {
      hide MixCut, QueryFrom;
      var mixRes := mixSeg.Cut(runes, begin, end, [], hmm);
      assert mixRes == MixWords(mixSeg.Lex(), RunesOf(runes), begin, end, hmm);
      res := Expand(runes, mixRes, before);
    }

    method Expand(runes: seq<RuneStr>, mixRes: seq<WordRange>, before: seq<WordRange>) returns (res: seq<WordRange>)
      requires Valid() && Inside(RunesOf(runes), mixRes)
      ensures res == before + QueryFrom(trie.View(), RunesOf(runes), mixRes, 0)
    {
      ghost var dict, text := trie.View(), RunesOf(runes);
      hide Valid, Extras, QueryFrom;
      res := before;
      for m := 0 to |mixRes|
        invariant res + QueryFrom(dict, text, mixRes, m) == before + QueryFrom(dict, text, mixRes, 0)
      {
        QueryFromNext(dict, text, mixRes, m);
        var extras := ExtrasOf(runes, mixRes[m]);
        Regroup(res, extras, [mixRes[m]], QueryFrom(dict, text, mixRes, m + 1));
        res := res + extras;
        res := res + [mixRes[m]];
      }
      QueryFromEnd(dict, text, mixRes);
      assert res + [] == res;
    }

    method ExtrasOf(runes: seq<RuneStr>, w: WordRange) returns (extras: seq<WordRange>)
      requires Valid() && w.left <= w.right < |runes|
      ensures extras == Extras(trie.View(), RunesOf(runes), w)
    {
      hide Grams, Spells;
      extras := [];
      if w.Length() > 2 {
        extras := GramsOf(runes, w, 2, extras);
      }
      if w.Length() > 3 {
        extras := GramsOf(runes, w, 3, extras);
      }
    }

    method GramsOf(runes: seq<RuneStr>, w: WordRange, n: nat, before: seq<WordRange>) returns (res: seq<WordRange>)
      requires Valid() && 1 <= n && w.left <= w.right < |runes|
      ensures res == before + Grams(trie.View(), RunesOf(runes), w, n, 0)
    {
      ghost var dict, text := trie.View(), RunesOf(runes);
      hide Spells;
      res := before;
      var i := 0;
      while i + n - 1 < w.Length()
        invariant res + Grams(dict, text, w, n, i) == before + Grams(dict, text, w, n, 0)
        decreases w.Length() - i
      {
        var wr := WordRange(w.left + i, w.left + i + n - 1);
        var found := trie.Find(runes, wr.left, wr.right + 1);
        if found != None {
          res := res + [wr];
        }
        i := i + 1;
      }
      assert res + [] == res;
    }

    lemma LexIsValid()
      requires Valid()
      ensures mixSeg.Lex().Valid()
    {
    }

    /** The ranges of a sentence, cut one after the other. */
    method CutRanges(sentence: seq<Byte>, hmm: bool) returns (runes: seq<RuneStr>, wrs: seq<WordRange>)
      requires Valid() && |sentence| < UINT32
      ensures mixSeg.Lex().Valid() && runes == TextOf(sentence)
      ensures wrs == QueryText(mixSeg.Lex(), RunesOf(runes), symbols, 0, hmm)
    {
      hide Valid, RangeEnd, QueryCut, QueryText;
      LexIsValid();
      ghost var lex := mixSeg.Lex();
      var preFilter: PreFilter := new PreFilter(symbols, sentence);
      runes := preFilter.sentence;
      ghost var text := RunesOf(runes);
      wrs := [];
      while preFilter.HasNext()
        invariant preFilter.cursor <= |runes|
        invariant Valid() && lex == mixSeg.Lex()
        invariant wrs + QueryText(lex, text, symbols, preFilter.cursor, hmm) == QueryText(lex, text, symbols, 0, hmm)
        decreases |runes| - preFilter.cursor
      {
        QueryTextNext(lex, text, symbols, preFilter.cursor, hmm);
        var range := preFilter.Next();
        wrs := Cut(runes, range.begin, range.end, wrs, hmm);
      }
      QueryTextEnd(lex, text, symbols, hmm);
      assert wrs + [] == wrs;
    }

    /** The search-oriented cut of a sentence, which the index and the searcher use. */
    method CutSentence(sentence: seq<Byte>, hmm: bool) returns (words: seq<Word>)
      requires Valid() && |sentence| < UINT32
      ensures mixSeg.Lex().Valid()
      ensures Draws(sentence, QueryText(mixSeg.Lex(), RunesOf(TextOf(sentence)), symbols, 0, hmm), words)
    {
      hide Valid, QueryText, Draws, Drawable, GetWordFromRunes;
      var runes, wrs := CutRanges(sentence, hmm);
      QueryTextDraws(mixSeg.Lex(), sentence, symbols, hmm);
      words := GetWordsFromWordRanges(sentence, runes, wrs);
      WordsDraw(sentence, wrs, words);
    }
  }

  lemma QueryTextDraws(lex: Lexicon, sentence: seq<Byte>, symbols: set<Rune>, hmm: bool)
    requires lex.Valid()
    ensures Drawable(sentence, TextOf(sentence), QueryText(lex, RunesOf(TextOf(sentence)), symbols, 0, hmm))
  {
    hide QueryText, RunesOf, TextOf, Lexicon.Valid;
    var runes := TextOf(sentence);
    var wrs := QueryText(lex, RunesOf(runes), symbols, 0, hmm);
    forall k | 0 <= k < |wrs|
      ensures wrs[k].left < |runes| && wrs[k].right < |runes|
      ensures runes[wrs[k].left].offset <= runes[wrs[k].right].offset && runes[wrs[k].left].offset <= |sentence|
    {
      QueryWordsHoldNoSymbol(lex, RunesOf(runes), symbols, 0, hmm, wrs[k]);
      RangeOffsets(sentence, wrs[k]);
    }
  }

  lemma RangeOffsets(sentence: seq<Byte>, wr: WordRange)
    requires wr.left <= wr.right < |TextOf(sentence)|
    ensures var runes := TextOf(sentence);
            runes[wr.left].offset <= runes[wr.right].offset && runes[wr.left].offset <= |sentence|
  {
    hide TextOf;
    TextCovers(sentence);
    ByteOffsetMonotone(TextOf(sentence), wr.left, wr.right, |sentence|);
  }
}
