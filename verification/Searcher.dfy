/** Boost_Searcher/searcher.hpp: ranked search over the inverted index, which finds and weighs documents as a scan
    of all of them would. */
module Searcher {
  import opened Wrappers
  import opened Index
  import Sorting

  datatype InvertedElemPrint = InvertedElemPrint(docId: nat, weight: nat, words: seq<Str>)

  /** One element of the answer: the document, and the word its excerpt is drawn around. */
  datatype Hit = Hit(doc: DocInfo, word: Str, weight: nat)

  // ---------------------------------------------------------------- brute force

  /** The query words that a document mentions, with repetitions, in the order of the query. */
  function Mentioned(tx: Text, doc: DocInfo, tokens: seq<Str>): seq<Str> {
    if tokens == [] then []
    else
      var w := tokens[|tokens| - 1];
      Mentioned(tx, doc, tokens[..|tokens| - 1]) + (if Mentions(tx, doc, w) then [w] else [])
  }

  /** The weight of a document: that of every query word, with repetitions. */
  function Score(tx: Text, doc: DocInfo, tokens: seq<Str>): nat {
    if tokens == [] then 0
    else Score(tx, doc, tokens[..|tokens| - 1]) + DocWeight(tx, doc, tokens[|tokens| - 1])
  }

  lemma UnmentionedWeighsNothing(tx: Text, doc: DocInfo, w: Str)
    ensures DocWeight(tx, doc, w) > 0 <==> Mentions(tx, doc, w)
  {
    CountPositive(Words(tx, doc.title), w);
    CountPositive(Words(tx, doc.content), w);
  }

  /** A document scores if and only if it mentions a query word. */
  lemma {:induction false} ScorePositive(tx: Text, doc: DocInfo, tokens: seq<Str>)
    ensures Score(tx, doc, tokens) > 0 <==> Mentioned(tx, doc, tokens) != []
    ensures Score(tx, doc, tokens) > 0 <==> exists w :: w in tokens && Mentions(tx, doc, w)
  {
    hide Mentions, DocWeight;
    if tokens != [] {
      var n := |tokens| - 1;
      ScorePositive(tx, doc, tokens[..n]);
      UnmentionedWeighsNothing(tx, doc, tokens[n]);
      assert tokens == tokens[..n] + [tokens[n]];
    }
  }

  /** Where a text holds a query word: pairs of a position in the query and one in the text. */
  function Matches(ws: seq<Str>, tokens: seq<Str>): set<(int, int)> {
    set i, j | 0 <= i < |tokens| && 0 <= j < |ws| && tokens[i] == ws[j] :: (i, j)
  }

  /** The positions of one word. */
  function Places(ws: seq<Str>, w: Str, i: int): set<(int, int)> {
    set j | 0 <= j < |ws| && ws[j] == w :: (i, j)
  }

  lemma {:induction false} PlacesAreMultiplicity(ws: seq<Str>, w: Str, i: int)
    ensures |Places(ws, w, i)| == multiset(ws)[w]
  {
    if ws == [] {
      assert Places(ws, w, i) == {};
    } else {
      var n := |ws| - 1;
      PlacesAreMultiplicity(ws[..n], w, i);
      assert ws == ws[..n] + [ws[n]];
      assert Places(ws, w, i) == Places(ws[..n], w, i) + if ws[n] == w then {(i, n)} else {};
    }
  }

  lemma MatchesSnoc(ws: seq<Str>, tokens: seq<Str>)
    requires tokens != []
    ensures var n := |tokens| - 1; |Matches(ws, tokens)| == |Matches(ws, tokens[..n])| + multiset(ws)[tokens[n]]
  {
    var n := |tokens| - 1;
    PlacesAreMultiplicity(ws, tokens[n], n);
    assert Matches(ws, tokens) == Matches(ws, tokens[..n]) + Places(ws, tokens[n], n);
    assert Matches(ws, tokens[..n]) !! Places(ws, tokens[n], n);
  }

  /** A document weighs ten for every match of the query in its title and one for every match in its content. */
  lemma {:induction false} ScoreInNumbers(tx: Text, doc: DocInfo, tokens: seq<Str>)
    ensures Score(tx, doc, tokens) == 10 * |Matches(Words(tx, doc.title), tokens)| + |Matches(Words(tx, doc.content), tokens)|
  {
    hide Matches, Words, DocWeight;
    if tokens == [] {
      NoMatches(Words(tx, doc.title));
      NoMatches(Words(tx, doc.content));
    } else {
      var n := |tokens| - 1;
      ScoreInNumbers(tx, doc, tokens[..n]);
      WeightInNumbers(tx, doc, tokens[n]);
      MatchesSnoc(Words(tx, doc.title), tokens);
      MatchesSnoc(Words(tx, doc.content), tokens);
    }
  }

  lemma NoMatches(ws: seq<Str>)
    ensures Matches(ws, []) == {}
  {
  }

  /** The first word of the query that the document mentions. */
  ghost predicate FirstMention(tx: Text, doc: DocInfo, tokens: seq<Str>, word: Str) {
    exists i :: 0 <= i < |tokens| && tokens[i] == word && Mentions(tx, doc, word) && Unmentioned(tx, doc, tokens[..i])
  }

  ghost predicate Unmentioned(tx: Text, doc: DocInfo, tokens: seq<Str>) {
    forall k :: 0 <= k < |tokens| ==> !Mentions(tx, doc, tokens[k])
  }

  lemma {:induction false} MentionedFirst(tx: Text, doc: DocInfo, tokens: seq<Str>)
    ensures if Mentioned(tx, doc, tokens) == [] then Unmentioned(tx, doc, tokens)
            else FirstMention(tx, doc, tokens, Mentioned(tx, doc, tokens)[0])
  {
    hide Mentions;
    if tokens != [] {
      var n := |tokens| - 1;
      var before := tokens[..n];
      MentionedFirst(tx, doc, before);
      if Mentioned(tx, doc, before) != [] {
        var word := Mentioned(tx, doc, before)[0];
        var i :| 0 <= i < n && before[i] == word && Mentions(tx, doc, word) && Unmentioned(tx, doc, before[..i]);
        assert before[..i] == tokens[..i] && tokens[i] == word;
      }
    }
  }

  // ---------------------------------------------------------------- merging

  /** What the map holds for document `d` after `tokens`. */
  ghost predicate Merged(tx: Text, docs: seq<DocInfo>, tokens: seq<Str>, m: map<nat, InvertedElemPrint>, d: nat) {
    && (d in m <==> d < |docs| && Mentioned(tx, docs[d], tokens) != [])
    && (d in m ==> d < |docs| && m[d] == InvertedElemPrint(d, Score(tx, docs[d], tokens), Mentioned(tx, docs[d], tokens)))
  }

  /** Document `d` has been merged for the next token as well if its entry is among the first `k`. */
  ghost predicate MergedUpTo(tx: Text, docs: seq<DocInfo>, tokens: seq<Str>, w: Str, k: nat, m: map<nat, InvertedElemPrint>) {
    forall d :: Merged(tx, docs, if Posted(Postings(tx, docs, w), k, d) then tokens + [w] else tokens, m, d)
  }

  /** One entry of a list merged into the map. */
  function Merge(m: map<nat, InvertedElemPrint>, elem: InvertedElem): map<nat, InvertedElemPrint> {
    var item := if elem.docId in m then m[elem.docId] else InvertedElemPrint(0, 0, []);
    m[elem.docId := InvertedElemPrint(elem.docId, item.weight + elem.weight, item.words + [elem.word])]
  }

  lemma ScoreSnoc(tx: Text, doc: DocInfo, tokens: seq<Str>, w: Str)
    ensures Score(tx, doc, tokens + [w]) == Score(tx, doc, tokens) + DocWeight(tx, doc, w)
    ensures Mentioned(tx, doc, tokens + [w]) == Mentioned(tx, doc, tokens) + (if Mentions(tx, doc, w) then [w] else [])
  {
    assert (tokens + [w])[..|tokens|] == tokens;
  }

  lemma MergeStep(tx: Text, docs: seq<DocInfo>, tokens: seq<Str>, w: Str, k: nat, m: map<nat, InvertedElemPrint>)
    requires Numbered(docs) && k < |Postings(tx, docs, w)| && MergedUpTo(tx, docs, tokens, w, k, m)
    ensures MergedUpTo(tx, docs, tokens, w, k + 1, Merge(m, Postings(tx, docs, w)[k]))
  {
    hide Mentions, DocWeight, Postings, Score, Mentioned;
    var list := Postings(tx, docs, w);
    var e := list[k];
    PostingsSound(tx, docs, w, k);
    ScoreSnoc(tx, docs[e.docId], tokens, w);
    ScorePositive(tx, docs[e.docId], tokens);
    var k', m' := k + 1, Merge(m, e);
    forall d: nat
      ensures Merged(tx, docs, if Posted(list, k', d) then tokens + [w] else tokens, m', d)
    {
      assert Merged(tx, docs, if Posted(list, k, d) then tokens + [w] else tokens, m, d);
      if d != e.docId {
        assert Posted(list, k, d) <==> Posted(list, k + 1, d);
      } else {
        assert !Posted(list, k, d) && Posted(list, k + 1, d);
      }
    }
  }

  lemma MergeDone(tx: Text, docs: seq<DocInfo>, tokens: seq<Str>, w: Str, m: map<nat, InvertedElemPrint>)
    requires Numbered(docs) && MergedUpTo(tx, docs, tokens, w, |Postings(tx, docs, w)|, m)
    ensures forall d :: Merged(tx, docs, tokens + [w], m, d)
  {
    hide Mentions, DocWeight, Postings, Score, Mentioned;
    var list := Postings(tx, docs, w);
    forall d: nat
      ensures Merged(tx, docs, tokens + [w], m, d)
    {
      assert Merged(tx, docs, if Posted(list, |list|, d) then tokens + [w] else tokens, m, d);
      if !Posted(list, |list|, d) && d < |docs| {
        ScoreSnoc(tx, docs[d], tokens, w);
        UnmentionedWeighsNothing(tx, docs[d], w);
        if Mentions(tx, docs[d], w) {
          PostingsComplete(tx, docs, w, d);
        }
      }
    }
  }

  lemma MergeBegins(tx: Text, docs: seq<DocInfo>, tokens: seq<Str>, w: Str, m: map<nat, InvertedElemPrint>)
    requires forall d :: Merged(tx, docs, tokens, m, d)
    ensures MergedUpTo(tx, docs, tokens, w, 0, m)
  {
    hide Merged;
  }

  // ---------------------------------------------------------------- the answer

  /** Every document that mentions a query word, exactly once and with its score, best first. */
  ghost predicate Answers(tx: Text, docs: seq<DocInfo>, tokens: seq<Str>, hits: seq<Hit>) {
    && (forall k :: 0 <= k < |hits| ==>
          && hits[k].doc in docs
          && hits[k].weight == Score(tx, hits[k].doc, tokens) > 0
          && hits[k].word in tokens && FirstMention(tx, hits[k].doc, tokens, hits[k].word))
    && (forall i, j :: 0 <= i < j < |hits| ==> hits[i].doc.docId != hits[j].doc.docId)
    && (forall i, j :: 0 <= i < j < |hits| ==> hits[i].weight >= hits[j].weight)
    && (forall d :: 0 <= d < |docs| && Score(tx, docs[d], tokens) > 0 ==> exists k :: 0 <= k < |hits| && hits[k].doc == docs[d])
  }

  class Searcher {
    const index: Index

    constructor (index: Index)
      ensures this.index == index
    {
      this.index := index;
    }

    method MergeTokens(tokens: seq<Str>) returns (tokensMap: map<nat, InvertedElemPrint>)
      requires index.Valid()
      ensures forall d :: Merged(index.tx, index.forward, tokens, tokensMap, d)
    {
      ghost var tx, docs := index.tx, index.forward;
      hide Merged, Mentions, DocWeight, Postings, Inverts;
      tokensMap := map[];
      NothingMerged(tx, docs);
      for i := 0 to |tokens|
        invariant forall d :: Merged(tx, docs, tokens[..i], tokensMap, d)
      {
        var word := tokens[i];
        var list := index.GetInvertedList(word);
        assert tokens[..i + 1] == tokens[..i] + [word];
        MergeBegins(tx, docs, tokens[..i], word, tokensMap);
        if list.Some? {
          for k := 0 to |list.value|
            invariant MergedUpTo(tx, docs, tokens[..i], word, k, tokensMap)
          {
            MergeStep(tx, docs, tokens[..i], word, k, tokensMap);
            tokensMap := Merge(tokensMap, list.value[k]);
          }
        }
        MergeDone(tx, docs, tokens[..i], word, tokensMap);
      }
      assert tokens[..|tokens|] == tokens;
    }

    /** The values of the map, in any order. */
    method Collect(tokensMap: map<nat, InvertedElemPrint>) returns (all: seq<InvertedElemPrint>)
      requires forall d :: d in tokensMap ==> tokensMap[d].docId == d
      ensures forall x :: x in all <==> x.docId in tokensMap && tokensMap[x.docId] == x
      ensures forall i, j :: 0 <= i < j < |all| ==> all[i] != all[j]
    {
      all := [];
      var rest := tokensMap.Keys;
      while rest != {}
        invariant rest <= tokensMap.Keys
        invariant forall x :: x in all <==> x.docId in tokensMap && x.docId !in rest && tokensMap[x.docId] == x
        invariant forall i, j :: 0 <= i < j < |all| ==> all[i] != all[j]
        decreases rest
      {
        var d :| d in rest;
        all := all + [tokensMap[d]];
        rest := rest - {d};
      }
    }

    method Search(query: Str) returns (hits: seq<Hit>)
      requires index.Valid()
      ensures Answers(index.tx, index.forward, Words(index.tx, query), hits)
    {
      hide Words, Inverts, Answers, Score, Mentioned, Mentions, DocWeight, Sorting.Descending;
      ghost var tx, docs := index.tx, index.forward;
      var tokens := Words(index.tx, query);
      var tokensMap := MergeTokens(tokens);
      assert forall d :: d in tokensMap ==> Merged(tx, docs, tokens, tokensMap, d);
      var all := Collect(tokensMap);
      var sorted := Sorting.SortDescending(all, (e: InvertedElemPrint) => e.weight as real);
      Sorting.PermutationDistinct(all, sorted);
      hits := [];
      for i := 0 to |sorted|
        invariant |hits| == i
        invariant forall k :: 0 <= k < i ==> DrawnFrom(docs, sorted[k], hits[k])
      {
        var item := sorted[i];
        assert Merged(tx, docs, tokens, tokensMap, item.docId);
        var doc := index.GetForwardIndex(item.docId);
        if doc == None {
          continue;
        }
        hits := hits + [Hit(doc.value, item.words[0], item.weight)];
      }
      SortedMergeAnswers(tx, docs, tokens, tokensMap, sorted, hits);
    }
  }

  ghost predicate DrawnFrom(docs: seq<DocInfo>, item: InvertedElemPrint, hit: Hit) {
    item.docId < |docs| && item.words != [] && hit == Hit(docs[item.docId], item.words[0], item.weight)
  }

  lemma NothingMerged(tx: Text, docs: seq<DocInfo>)
    ensures forall d :: Merged(tx, docs, [], map[], d)
  {
  }

  lemma {:induction false} MentionedSound(tx: Text, doc: DocInfo, tokens: seq<Str>, w: Str)
    requires w in Mentioned(tx, doc, tokens)
    ensures w in tokens && Mentions(tx, doc, w)
  {
    hide Mentions;
    var n := |tokens| - 1;
    if w in Mentioned(tx, doc, tokens[..n]) {
      MentionedSound(tx, doc, tokens[..n], w);
    }
  }

  /** The merged entries, sorted and drawn from the forward index, are the brute-force answer. */
  lemma SortedMergeAnswers(tx: Text, docs: seq<DocInfo>, tokens: seq<Str>, m: map<nat, InvertedElemPrint>,
                           sorted: seq<InvertedElemPrint>, hits: seq<Hit>)
    requires Numbered(docs) && forall d :: Merged(tx, docs, tokens, m, d)
    requires forall x :: x in sorted <==> x.docId in m && m[x.docId] == x
    requires forall i, j :: 0 <= i < j < |sorted| ==> sorted[i] != sorted[j]
    requires Sorting.Descending(sorted, (e: InvertedElemPrint) => e.weight as real)
    requires |hits| == |sorted| && forall k :: 0 <= k < |hits| ==> DrawnFrom(docs, sorted[k], hits[k])
    ensures Answers(tx, docs, tokens, hits)
  {
    hide Mentions, DocWeight, Score, Mentioned, FirstMention;
    forall k | 0 <= k < |hits|
      ensures hits[k].doc in docs && hits[k].weight == Score(tx, hits[k].doc, tokens) > 0
      ensures hits[k].word in tokens && FirstMention(tx, hits[k].doc, tokens, hits[k].word)
      ensures hits[k].doc.docId == sorted[k].docId
    {
      var item := sorted[k];
      assert item in sorted && DrawnFrom(docs, item, hits[k]);
      assert Merged(tx, docs, tokens, m, item.docId);
      ScorePositive(tx, docs[item.docId], tokens);
      MentionedSound(tx, docs[item.docId], tokens, item.words[0]);
      MentionedFirst(tx, docs[item.docId], tokens);
    }
    forall i, j | 0 <= i < j < |hits|
      ensures hits[i].doc.docId != hits[j].doc.docId && hits[i].weight >= hits[j].weight
    {
      assert DrawnFrom(docs, sorted[i], hits[i]) && DrawnFrom(docs, sorted[j], hits[j]);
      assert sorted[i] in sorted && sorted[j] in sorted;
      assert sorted[i].weight as real >= sorted[j].weight as real;
    }
    forall d | 0 <= d < |docs| && Score(tx, docs[d], tokens) > 0
      ensures exists k :: 0 <= k < |hits| && hits[k].doc == docs[d]
    {
      ScorePositive(tx, docs[d], tokens);
      assert Merged(tx, docs, tokens, m, d);
      assert m[d] in sorted;
      var k :| 0 <= k < |sorted| && sorted[k] == m[d];
      assert DrawnFrom(docs, sorted[k], hits[k]);
    }
  }

  /** An answer in numbers: a document of the index that matches, no two answers for the same one, best first. */
  lemma AnswersInNumbers(tx: Text, docs: seq<DocInfo>, tokens: seq<Str>, hits: seq<Hit>, k: nat)
    requires Answers(tx, docs, tokens, hits) && k < |hits|
    ensures hits[k].doc in docs && hits[k].weight > 0
    ensures var doc := hits[k].doc;
            hits[k].weight == 10 * |Matches(Words(tx, doc.title), tokens)| + |Matches(Words(tx, doc.content), tokens)|
    ensures forall i :: 0 <= i < k ==> hits[i].weight >= hits[k].weight && hits[i].doc.docId != hits[k].doc.docId
  {
    hide Matches, Words, Score, FirstMention;
    ScoreInNumbers(tx, hits[k].doc, tokens);
  }

  /** A document that matches anywhere is among the answers. */
  lemma MatchIsAnswered(tx: Text, docs: seq<DocInfo>, tokens: seq<Str>, hits: seq<Hit>, d: nat, i: int, j: int)
    requires Answers(tx, docs, tokens, hits) && d < |docs|
    requires (i, j) in Matches(Words(tx, docs[d].title), tokens) || (i, j) in Matches(Words(tx, docs[d].content), tokens)
    ensures exists k :: 0 <= k < |hits| && hits[k].doc == docs[d]
  {
    hide Matches, Words, Score, FirstMention;
    ScoreInNumbers(tx, docs[d], tokens);
    assert Matches(Words(tx, docs[d].title), tokens) != {} || Matches(Words(tx, docs[d].content), tokens) != {};
  }

  /** The word for the excerpt is the first word of the query that the document mentions. */
  lemma ExcerptWordIsFirst(tx: Text, docs: seq<DocInfo>, tokens: seq<Str>, hits: seq<Hit>, k: nat) returns (i: nat)
    requires Answers(tx, docs, tokens, hits) && k < |hits|
    ensures i < |tokens| && tokens[i] == hits[k].word
    ensures tokens[i] in Words(tx, hits[k].doc.title) || tokens[i] in Words(tx, hits[k].doc.content)
    ensures forall j :: 0 <= j < i ==> tokens[j] !in Words(tx, hits[k].doc.title) && tokens[j] !in Words(tx, hits[k].doc.content)
  {
    hide Words, Score;
    var doc, word := hits[k].doc, hits[k].word;
    assert FirstMention(tx, doc, tokens, word);
    i :| 0 <= i < |tokens| && tokens[i] == word && Mentions(tx, doc, word) && Unmentioned(tx, doc, tokens[..i]);
    assert forall j :: 0 <= j < i ==> tokens[..i][j] == tokens[j];
  }

  /** Indexing a file and searching it is scanning its documents. */
  method IndexAndSearch(tx: Text, lines: seq<Str>, query: Str) returns (hits: seq<Hit>)
    ensures Answers(tx, Documents(tx, [], lines), Words(tx, query), hits)
  {
    var index := new Index(tx);
    index.BuildIndex(lines);
    var searcher := new Searcher(index);
    hits := searcher.Search(query);
  }
}
