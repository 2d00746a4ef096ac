/** Boost_Searcher/index.hpp: the forward index of documents and the inverted index from words to weighted
    documents. Cutting a text into words, lowering a word and splitting a line are functions given to
    the index; counters are unbounded. */
module Index {
  import opened Wrappers
  import U = Unicode

  /** The source's strings are bytes. */
  type Str = seq<U.Byte>

  const TITLE_FACTOR: nat := 10
  const CONTENT_FACTOR: nat := 1

  datatype DocInfo = DocInfo(title: Str, content: Str, url: Str, docId: nat)
  datatype InvertedElem = InvertedElem(docId: nat, word: Str, weight: nat)
  datatype WordCnt = WordCnt(titleCnt: nat, contentCnt: nat)

  /** Raises one of the two counters by `n`. */
  function Tally(c: WordCnt, isTitle: bool, n: nat): WordCnt {
    if isTitle then c.(titleCnt := c.titleCnt + n) else c.(contentCnt := c.contentCnt + n)
  }

  /** What the index needs from its surroundings. */
  datatype Text = Text(cut: Str -> seq<Str>, lower: Str -> Str, split: Str -> seq<Str>)

  // ---------------------------------------------------------------- brute force

  /** The lowered words of a text. */
  function Words(tx: Text, s: Str): (ws: seq<Str>)
    ensures |ws| == |tx.cut(s)|
    ensures forall i :: 0 <= i < |ws| ==> ws[i] == tx.lower(tx.cut(s)[i])
  {
    seq(|tx.cut(s)|, i requires 0 <= i < |tx.cut(s)| => tx.lower(tx.cut(s)[i]))
  }

  function Count(ws: seq<Str>, w: Str): nat {
    if ws == [] then 0 else Count(ws[..|ws| - 1], w) + (if ws[|ws| - 1] == w then 1 else 0)
  }

  lemma {:induction false} CountPositive(ws: seq<Str>, w: Str)
    ensures Count(ws, w) > 0 <==> w in ws
  {
    if ws != [] {
      CountPositive(ws[..|ws| - 1], w);
      assert ws == ws[..|ws| - 1] + [ws[|ws| - 1]];
    }
  }

  lemma {:induction false} CountIsMultiplicity(ws: seq<Str>, w: Str)
    ensures Count(ws, w) == multiset(ws)[w]
  {
    if ws != [] {
      var n := |ws| - 1;
      CountIsMultiplicity(ws[..n], w);
      assert ws == ws[..n] + [ws[n]];
    }
  }

  function DocWeight(tx: Text, doc: DocInfo, w: Str): nat {
    TITLE_FACTOR * Count(Words(tx, doc.title), w) + CONTENT_FACTOR * Count(Words(tx, doc.content), w)
  }

  /** An occurrence in the title weighs as much as ten in the content. */
  lemma WeightInNumbers(tx: Text, doc: DocInfo, w: Str)
    ensures DocWeight(tx, doc, w) == 10 * multiset(Words(tx, doc.title))[w] + multiset(Words(tx, doc.content))[w]
  {
    CountIsMultiplicity(Words(tx, doc.title), w);
    CountIsMultiplicity(Words(tx, doc.content), w);
  }

  predicate Mentions(tx: Text, doc: DocInfo, w: Str) {
    w in Words(tx, doc.title) || w in Words(tx, doc.content)
  }

  /** The list for a word: one entry for each document that mentions it, in the order of the documents. */
  function Postings(tx: Text, docs: seq<DocInfo>, w: Str): seq<InvertedElem> {
    if docs == [] then []
    else
      var doc := docs[|docs| - 1];
      Postings(tx, docs[..|docs| - 1], w)
      + (if Mentions(tx, doc, w) then [InvertedElem(doc.docId, w, DocWeight(tx, doc, w))] else [])
  }

  /** A line of three fields is a document. */
  function Accept(tx: Text, line: Str, id: nat): Option<DocInfo> {
    var results := tx.split(line);
    if |results| != 3 then None else Some(DocInfo(results[0], results[1], results[2], id))
  }

  /** The documents among the lines, numbered on from those there are already. */
  function Documents(tx: Text, before: seq<DocInfo>, lines: seq<Str>): seq<DocInfo> {
    if lines == [] then before
    else
      var docs := Documents(tx, before, lines[..|lines| - 1]);
      match Accept(tx, lines[|lines| - 1], |docs|)
      case None => docs
      case Some(doc) => docs + [doc]
  }

  /** The lines of three fields in front of line `i`. */
  ghost function DocumentsBefore(tx: Text, lines: seq<Str>, i: nat): set<int>
    requires i <= |lines|
  {
    set j | 0 <= j < i && |tx.split(lines[j])| == 3
  }

  lemma DocumentsBeforePrefix(tx: Text, lines: seq<Str>, i: nat)
    requires i < |lines|
    ensures DocumentsBefore(tx, lines[..|lines| - 1], i) == DocumentsBefore(tx, lines, i)
  {
  }

  lemma DocumentsBeforeNext(tx: Text, lines: seq<Str>, i: nat)
    requires i < |lines|
    ensures |DocumentsBefore(tx, lines, i + 1)| == |DocumentsBefore(tx, lines, i)| + if |tx.split(lines[i])| == 3 then 1 else 0
  {
    assert DocumentsBefore(tx, lines, i + 1) == DocumentsBefore(tx, lines, i) + if |tx.split(lines[i])| == 3 then {i} else {};
  }

  lemma NoneBefore(tx: Text, lines: seq<Str>)
    ensures DocumentsBefore(tx, lines, 0) == {}
  {
  }

  /** The documents that were there stay, and as many are added as there are lines of exactly three fields. */
  lemma {:induction false} DocumentsCounted(tx: Text, before: seq<DocInfo>, lines: seq<Str>)
    ensures |Documents(tx, before, lines)| == |before| + |DocumentsBefore(tx, lines, |lines|)|
    ensures before <= Documents(tx, before, lines)
  {
    hide DocumentsBefore;
    if lines == [] {
      NoneBefore(tx, lines);
    } else {
      var n := |lines| - 1;
      DocumentsCounted(tx, before, lines[..n]);
      DocumentsBeforePrefix(tx, lines, n);
      DocumentsBeforeNext(tx, lines, n);
    }
  }

  /** A line of exactly three fields becomes the document with these fields, numbered on from all documents before it. */
  lemma {:induction false} LineIsDocument(tx: Text, before: seq<DocInfo>, lines: seq<Str>, i: nat)
    requires i < |lines| && |tx.split(lines[i])| == 3
    ensures var docs, d, fields := Documents(tx, before, lines), |before| + |DocumentsBefore(tx, lines, i)|, tx.split(lines[i]);
            d < |docs| && docs[d] == DocInfo(fields[0], fields[1], fields[2], d)
  {
    hide DocumentsBefore;
    var n := |lines| - 1;
    DocumentsBeforePrefix(tx, lines, i);
    if i < n {
      LineIsDocument(tx, before, lines[..n], i);
    } else {
      DocumentsCounted(tx, before, lines[..n]);
    }
  }

  // ---------------------------------------------------------------- the index

  /** The inverted index holds exactly the non-empty lists of the documents. */
  ghost predicate Inverts(tx: Text, docs: seq<DocInfo>, inverted: map<Str, seq<InvertedElem>>) {
    forall w :: InvertsWord(tx, docs, inverted, w)
  }

  ghost predicate InvertsWord(tx: Text, docs: seq<DocInfo>, inverted: map<Str, seq<InvertedElem>>, w: Str) {
    && (w in inverted <==> Postings(tx, docs, w) != [])
    && (w in inverted ==> inverted[w] == Postings(tx, docs, w))
  }

  ghost predicate Numbered(docs: seq<DocInfo>) {
    forall d :: 0 <= d < |docs| ==> docs[d].docId == d
  }

  class Index {
    const tx: Text
    var forward: seq<DocInfo>
    var inverted: map<Str, seq<InvertedElem>>

    ghost predicate Valid()
      reads this
    {
      Numbered(forward) && Inverts(tx, forward, inverted)
    }

    constructor (tx: Text)
      ensures Valid() && this.tx == tx && forward == []
    {
      this.tx, forward, inverted := tx, [], map[];
    }

    method GetForwardIndex(docId: nat) returns (doc: Option<DocInfo>)
      ensures doc == if docId < |forward| then Some(forward[docId]) else None
    {
      if docId >= |forward| {
        return None;
      }
      doc := Some(forward[docId]);
    }

    method GetInvertedList(word: Str) returns (list: Option<seq<InvertedElem>>)
      requires Valid()
      ensures list == if Postings(tx, forward, word) == [] then None else Some(Postings(tx, forward, word))
    {
      assert InvertsWord(tx, forward, inverted, word);
      if word !in inverted {
        return None;
      }
      list := Some(inverted[word]);
    }

    /** Indexes every line that is a document and skips the others. */
    method BuildIndex(lines: seq<Str>)
      requires Valid()
      modifies this
      ensures Valid() && forward == Documents(tx, old(forward), lines)
    {
      hide Inverts;
      for i := 0 to |lines|
        invariant Valid() && forward == Documents(tx, old(forward), lines[..i])
      {
        assert lines[..i + 1][..i] == lines[..i];
        var doc := BuildForwardIndex(lines[i]);
        if doc != None {
          assert forward[..|forward| - 1] == Documents(tx, old(forward), lines[..i]);
          BuildInvertedIndex(doc.value);
        }
      }
      assert lines[..|lines|] == lines;
    }

    method BuildForwardIndex(line: Str) returns (doc: Option<DocInfo>)
      modifies this`forward
      ensures doc == Accept(tx, line, |old(forward)|)
      ensures forward == match doc case None => old(forward) case Some(d) => old(forward) + [d]
    {
      var results := tx.split(line);
      if |results| != 3 {
        return None;
      }
      var d := DocInfo(results[0], results[1], results[2], |forward|);
      forward := forward + [d];
      doc := Some(d);
    }

    /** The map after the words `ws` of one side of a document have been counted into it. */
    ghost predicate Counted(before: map<Str, WordCnt>, ws: seq<Str>, isTitle: bool, r: map<Str, WordCnt>) {
      && (forall w :: w in r <==> w in before || w in ws)
      && forall w :: w in r ==> r[w] == Tally(if w in before then before[w] else WordCnt(0, 0), isTitle, Count(ws, w))
    }

    /** Counts the words of a text, lowered, into one side of the word map. */
    method CountWords(s: Str, isTitle: bool, wordMap: map<Str, WordCnt>) returns (r: map<Str, WordCnt>)
      ensures Counted(wordMap, Words(tx, s), isTitle, r)
    {
      hide Counted;
      r := wordMap;
      var cut := tx.cut(s);
      ghost var ws := Words(tx, s);
      CountedNothing(wordMap, isTitle);
      for i := 0 to |cut|
        invariant Counted(wordMap, ws[..i], isTitle, r)
      {
        var w := tx.lower(cut[i]);
        CountedOne(wordMap, ws[..i], isTitle, r, w);
        assert ws[..i + 1] == ws[..i] + [w];
        r := r[w := Tally(if w in r then r[w] else WordCnt(0, 0), isTitle, 1)];
      }
      assert ws[..|cut|] == ws;
    }

    lemma CountedNothing(before: map<Str, WordCnt>, isTitle: bool)
      ensures Counted(before, [], isTitle, before)
    {
    }

    lemma CountedOne(before: map<Str, WordCnt>, ws: seq<Str>, isTitle: bool, r: map<Str, WordCnt>, w: Str)
      requires Counted(before, ws, isTitle, r)
      ensures Counted(before, ws + [w], isTitle, r[w := Tally(if w in r then r[w] else WordCnt(0, 0), isTitle, 1)])
    {
      assert (ws + [w])[..|ws|] == ws;
      CountPositive(ws, w);
    }

    /** Counts the words of a document in its title and in its content. */
    method CountDocument(doc: DocInfo) returns (wordMap: map<Str, WordCnt>)
      ensures Weighs(tx, doc, wordMap)
    {
      var titles := CountWords(doc.title, true, map[]);
      wordMap := CountWords(doc.content, false, titles);
      forall w | w in wordMap
        ensures wordMap[w] == WordCnt(Count(Words(tx, doc.title), w), Count(Words(tx, doc.content), w))
      {
        CountPositive(Words(tx, doc.title), w);
      }
    }

    /** Adds the newest document to the lists of the words it mentions. */
    method BuildInvertedIndex(doc: DocInfo)
      requires forward != [] && doc == forward[|forward| - 1]
      requires Inverts(tx, forward[..|forward| - 1], inverted)
      modifies this`inverted
      ensures Inverts(tx, forward, inverted)
    {
      hide Mentions, DocWeight, Inverts;
      var wordMap := CountDocument(doc);
      assert forward == forward[..|forward| - 1] + [doc];
      PostWords(doc, wordMap, forward[..|forward| - 1]);
    }

    method PostWords(doc: DocInfo, wordMap: map<Str, WordCnt>, ghost docs: seq<DocInfo>)
      requires Inverts(tx, docs, inverted) && Weighs(tx, doc, wordMap)
      modifies this`inverted
      ensures Inverts(tx, docs + [doc], inverted)
    {
      hide Mentions, DocWeight, Partly, Inverts, Post, Weighs;
      NothingPosted(tx, docs, doc, inverted);
      var rest := wordMap.Keys;
      ghost var posted: set<Str> := {};
      while rest != {}
        invariant posted + rest == wordMap.Keys && posted !! rest
        invariant Partly(tx, docs, doc, inverted, posted)
        decreases rest
      {
        var w :| w in rest;
        WeighsWord(tx, doc, wordMap, w);
        PostWord(tx, docs, doc, inverted, posted, w);
        inverted := Post(inverted, InvertedElem(doc.docId, w, Weight(wordMap[w])));
        posted, rest := posted + {w}, rest - {w};
      }
      AllPosted(tx, docs, doc, inverted, wordMap);
    }
  }

  function Weight(c: WordCnt): nat {
    TITLE_FACTOR * c.titleCnt + CONTENT_FACTOR * c.contentCnt
  }

  /** The map holds the words that a document mentions, with counters that give their weight. */
  ghost predicate Weighs(tx: Text, doc: DocInfo, wordMap: map<Str, WordCnt>) {
    forall w :: (w in wordMap <==> Mentions(tx, doc, w)) && (w in wordMap ==> Weight(wordMap[w]) == DocWeight(tx, doc, w))
  }

  lemma WeighsWord(tx: Text, doc: DocInfo, wordMap: map<Str, WordCnt>, w: Str)
    requires Weighs(tx, doc, wordMap) && w in wordMap
    ensures Mentions(tx, doc, w) && Weight(wordMap[w]) == DocWeight(tx, doc, w)
  {
    hide Mentions, DocWeight;
  }

  /** One more entry for the list of its word. */
  function Post(inverted: map<Str, seq<InvertedElem>>, item: InvertedElem): map<Str, seq<InvertedElem>> {
    inverted[item.word := (if item.word in inverted then inverted[item.word] else []) + [item]]
  }

  /** The words in `posted` have lists that cover `doc` as well, the others do not yet. */
  ghost predicate Partly(tx: Text, docs: seq<DocInfo>, doc: DocInfo, inverted: map<Str, seq<InvertedElem>>, posted: set<Str>) {
    forall w :: InvertsWord(tx, if w in posted then docs + [doc] else docs, inverted, w)
  }

  lemma NothingPosted(tx: Text, docs: seq<DocInfo>, doc: DocInfo, inverted: map<Str, seq<InvertedElem>>)
    requires Inverts(tx, docs, inverted)
    ensures Partly(tx, docs, doc, inverted, {})
  {
    hide InvertsWord;
  }

  lemma AllPosted(tx: Text, docs: seq<DocInfo>, doc: DocInfo, inverted: map<Str, seq<InvertedElem>>, wordMap: map<Str, WordCnt>)
    requires Partly(tx, docs, doc, inverted, wordMap.Keys) && Weighs(tx, doc, wordMap)
    ensures Inverts(tx, docs + [doc], inverted)
  {
    hide InvertsWord, Mentions;
    forall w
      ensures InvertsWord(tx, docs + [doc], inverted, w)
    {
      assert InvertsWord(tx, if w in wordMap.Keys then docs + [doc] else docs, inverted, w);
      if !Mentions(tx, doc, w) {
        SkipWord(tx, docs, doc, inverted, w);
      }
    }
  }

  lemma PostingsSnoc(tx: Text, docs: seq<DocInfo>, doc: DocInfo, w: Str)
    ensures Postings(tx, docs + [doc], w) == Postings(tx, docs, w)
      + (if Mentions(tx, doc, w) then [InvertedElem(doc.docId, w, DocWeight(tx, doc, w))] else [])
  {
    assert (docs + [doc])[..|docs|] == docs;
  }

  lemma PostWord(tx: Text, docs: seq<DocInfo>, doc: DocInfo, inverted: map<Str, seq<InvertedElem>>, posted: set<Str>, w: Str)
    requires Partly(tx, docs, doc, inverted, posted) && w !in posted && Mentions(tx, doc, w)
    ensures Partly(tx, docs, doc, Post(inverted, InvertedElem(doc.docId, w, DocWeight(tx, doc, w))), posted + {w})
  {
    hide Mentions, DocWeight, Postings;
    var inverted' := Post(inverted, InvertedElem(doc.docId, w, DocWeight(tx, doc, w)));
    forall v
      ensures InvertsWord(tx, if v in posted + {w} then docs + [doc] else docs, inverted', v)
    {
      assert InvertsWord(tx, if v in posted then docs + [doc] else docs, inverted, v);
      PostingsSnoc(tx, docs, doc, w);
    }
  }

  lemma SkipWord(tx: Text, docs: seq<DocInfo>, doc: DocInfo, inverted: map<Str, seq<InvertedElem>>, w: Str)
    requires InvertsWord(tx, docs, inverted, w) && !Mentions(tx, doc, w)
    ensures InvertsWord(tx, docs + [doc], inverted, w)
  {
    hide Mentions, DocWeight, Postings;
    PostingsSnoc(tx, docs, doc, w);
    assert Postings(tx, docs, w) + [] == Postings(tx, docs, w);
  }

  // ---------------------------------------------------------------- what a list holds

  /** Some entry among the first `k` is for document `d`. */
  ghost predicate Posted(list: seq<InvertedElem>, k: nat, d: nat) {
    k <= |list| && exists m :: 0 <= m < k && list[m].docId == d
  }

  /** Entries are for documents that mention the word, carry its weight there, and come in the order of the documents. */
  lemma {:induction false} PostingsSound(tx: Text, docs: seq<DocInfo>, w: Str, m: nat)
    requires Numbered(docs) && m < |Postings(tx, docs, w)|
    ensures var e := Postings(tx, docs, w)[m];
            && e.docId < |docs| && e.word == w && Mentions(tx, docs[e.docId], w)
            && e.weight == 10 * multiset(Words(tx, docs[e.docId].title))[w] + multiset(Words(tx, docs[e.docId].content))[w]
            && e.weight == DocWeight(tx, docs[e.docId], w)
            && forall m' :: 0 <= m' < m ==> Postings(tx, docs, w)[m'].docId < e.docId
    decreases |docs|, m
  {
    hide Mentions, DocWeight, Words;
    var n := |docs| - 1;
    var before := Postings(tx, docs[..n], w);
    WeightInNumbers(tx, docs[n], w);
    if m < |before| {
      PostingsSound(tx, docs[..n], w, m);
    } else {
      forall m' | 0 <= m' < m
        ensures Postings(tx, docs, w)[m'].docId < n
      {
        PostingsSound(tx, docs[..n], w, m');
      }
    }
  }

  /** Every document that mentions the word has an entry. */
  lemma {:induction false} PostingsComplete(tx: Text, docs: seq<DocInfo>, w: Str, d: nat)
    requires Numbered(docs) && d < |docs| && Mentions(tx, docs[d], w)
    ensures Posted(Postings(tx, docs, w), |Postings(tx, docs, w)|, d)
    decreases |docs|
  {
    hide Mentions, DocWeight;
    var n := |docs| - 1;
    var list, before := Postings(tx, docs, w), Postings(tx, docs[..n], w);
    if d < n {
      PostingsComplete(tx, docs[..n], w, d);
      var m :| 0 <= m < |before| && before[m].docId == d;
      assert list[m] == before[m];
    } else {
      assert list[|before|].docId == d;
    }
  }
}
