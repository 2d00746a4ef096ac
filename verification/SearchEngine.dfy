/** Boost_Searcher/util.hpp and parser.cpp: the text functions the search engine gives to its index, from the bytes of a file
    of documents to ranked answers: the line format the parser saves and the index splits again, lowering in the C
    locale, and cutting with the query segmentation. */
module SearchEngine {
  import opened Wrappers
  import opened Unicode
  import opened PreFilter
  import opened MixSegment
  import opened QuerySegment
  import I = Index
  import S = Searcher

  type Str = I.Str

  // ---------------------------------------------------------------- the line format

  const SEP: Byte := 3
  const NEWLINE: Byte := 10

  /** What the parser saves of an HTML file. */
  datatype Page = Page(title: Str, content: Str, url: Str)

  predicate EndsWith(s: Str, c: Byte) {
    s != [] && s[|s| - 1] == c
  }

  /** The last string of a list, with one more byte. */
  function Extended(ss: seq<Str>, b: Byte): seq<Str>
    requires ss != []
  {
    ss[|ss| - 1 := ss[|ss| - 1] + [b]]
  }

  /** `boost::split` at `\3` with `token_compress_on`: separators that follow one another count as one. */
  function Split(s: Str): (fields: seq<Str>)
    ensures fields != []
  {
    if s == [] then [[]]
    else
      var before, b := s[..|s| - 1], s[|s| - 1];
      if b != SEP then Extended(Split(before), b)
      else if EndsWith(before, SEP) then Split(before)
      else Split(before) + [[]]
  }

  function Line(p: Page): Str {
    p.title + [SEP] + p.content + [SEP] + p.url
  }

  /** What the line format can carry. */
  predicate Clean(p: Page) {
    SEP !in p.title && SEP !in p.content && SEP !in p.url && p.content != []
  }

  lemma {:induction false} SplitNone(a: Str)
    requires SEP !in a
    ensures Split(a) == [a]
  {
    if a != [] {
      var n := |a| - 1;
      SplitNone(a[..n]);
      assert a == a[..n] + [a[n]];
    }
  }

  lemma SplitSnoc(s: Str, b: Byte)
    ensures Split(s + [b]) == if b != SEP then Extended(Split(s), b) else if EndsWith(s, SEP) then Split(s) else Split(s) + [[]]
  {
    assert (s + [b])[..|s|] == s;
  }

  /** One separator, with something else in front of it and behind it. */
  lemma {:induction false} SplitAppend(a: Str, b: Str)
    requires !EndsWith(a, SEP) && (b != [] ==> b[0] != SEP)
    ensures Split(a + [SEP] + b) == Split(a) + Split(b)
    decreases |b|
  {
    hide Split, EndsWith, Extended;
    if b == [] {
      SplitSnoc(a, SEP);
      SplitNone(b);
      assert a + [SEP] + b == a + [SEP];
    } else {
      var n := |b| - 1;
      SplitAppend(a, b[..n]);
      SplitSnoc(a + [SEP] + b[..n], b[n]);
      SplitSnoc(b[..n], b[n]);
      assert b == b[..n] + [b[n]] && a + [SEP] + b == a + [SEP] + b[..n] + [b[n]];
      LastOf(a, b[..n]);
      ExtendedAppend(Split(a), Split(b[..n]), b[n]);
      Associates(Split(a), Split(b[..n]), [[]]);
    }
  }

  lemma ExtendedAppend(a: seq<Str>, b: seq<Str>, x: Byte)
    requires b != []
    ensures Extended(a + b, x) == a + Extended(b, x)
  {
  }

  lemma Associates(a: seq<Str>, b: seq<Str>, c: seq<Str>)
    ensures a + b + c == a + (b + c)
  {
  }

  lemma LastOf(a: Str, b: Str)
    ensures EndsWith(a + [SEP] + b, SEP) <==> b == [] || EndsWith(b, SEP)
  {
  }

  /** No field holds a separator, and only the first and the last can be empty. */
  ghost predicate FieldsOk(s: Str, fields: seq<Str>) {
    && fields != []
    && (forall k :: 0 <= k < |fields| ==> SEP !in fields[k])
    && (forall k :: 0 < k < |fields| - 1 ==> fields[k] != [])
    && (fields[|fields| - 1] == [] <==> s == [] || EndsWith(s, SEP))
  }

  lemma {:induction false} FieldsAreClean(s: Str)
    ensures FieldsOk(s, Split(s))
  {
    if s != [] {
      FieldsAreClean(s[..|s| - 1]);
    }
  }

  lemma {:induction false} FieldsAreParts(s: Str, b: Byte)
    requires b !in s
    ensures forall k :: 0 <= k < |Split(s)| ==> b !in Split(s)[k]
  {
    if s != [] {
      FieldsAreParts(s[..|s| - 1], b);
    }
  }

  /** The index reads back what the parser saved if and only if no field holds the separator and the content is not empty. */
  lemma LineRoundTripExactly(p: Page)
    ensures Split(Line(p)) == [p.title, p.content, p.url] <==> Clean(p)
  {
    hide Split, Line, Clean, FieldsOk;
    if Clean(p) {
      CleanRoundTrip(p);
    }
    FieldsAreClean(Line(p));
    FieldsMakeCleanPage(Line(p));
  }

  lemma FieldsMakeCleanPage(s: Str)
    requires FieldsOk(s, Split(s))
    ensures var fields := Split(s); |fields| == 3 ==> Clean(Page(fields[0], fields[1], fields[2]))
  {
    hide Split;
  }

  lemma CleanRoundTrip(p: Page)
    requires Clean(p)
    ensures Split(Line(p)) == [p.title, p.content, p.url]
  {
    hide Split;
    SplitNone(p.title);
    SplitNone(p.content);
    SplitNone(p.url);
    SplitAppend(p.title, p.content);
    LastOfLine(p);
    SplitAppend(p.title + [SEP] + p.content, p.url);
  }

  lemma LastOfLine(p: Page)
    requires Clean(p)
    ensures !EndsWith(p.title, SEP) && !EndsWith(p.title + [SEP] + p.content, SEP)
    ensures p.content[0] != SEP && (p.url != [] ==> p.url[0] != SEP)
  {
    LastOf(p.title, p.content);
    assert p.content[|p.content| - 1] in p.content;
  }

  // ---------------------------------------------------------------- the file

  /** The next byte begins a line. */
  predicate AtStart(file: Str) {
    file == [] || EndsWith(file, NEWLINE)
  }

  /** What `getline` reads: a newline ends a line, and the last line needs none. */
  function Lines(file: Str): (lines: seq<Str>)
    ensures file != [] ==> lines != []
  {
    if file == [] then []
    else
      var before, b := file[..|file| - 1], file[|file| - 1];
      if b != NEWLINE then (if AtStart(before) then Lines(before) + [[b]] else Extended(Lines(before), b))
      else if AtStart(before) then Lines(before) + [[]]
      else Lines(before)
  }

  /** What `SaveHtml` writes. */
  function Save(pages: seq<Page>): Str {
    if pages == [] then [] else Save(pages[..|pages| - 1]) + Line(pages[|pages| - 1]) + [NEWLINE]
  }

  predicate OneLine(p: Page) {
    NEWLINE !in p.title && NEWLINE !in p.content && NEWLINE !in p.url
  }

  function LinesOf(pages: seq<Page>): (lines: seq<Str>)
    ensures |lines| == |pages| && forall k :: 0 <= k < |lines| ==> lines[k] == Line(pages[k])
  {
    seq(|pages|, k requires 0 <= k < |pages| => Line(pages[k]))
  }

  /** The documents that the pages should become. */
  function DocsOf(pages: seq<Page>): (docs: seq<I.DocInfo>)
    ensures |docs| == |pages|
    ensures forall k :: 0 <= k < |docs| ==> docs[k] == I.DocInfo(pages[k].title, pages[k].content, pages[k].url, k)
  {
    seq(|pages|, k requires 0 <= k < |pages| => I.DocInfo(pages[k].title, pages[k].content, pages[k].url, k))
  }

  lemma LinesSnoc(file: Str, b: Byte)
    ensures Lines(file + [b]) ==
            if b != NEWLINE then (if AtStart(file) then Lines(file) + [[b]] else Extended(Lines(file), b))
            else if AtStart(file) then Lines(file) + [[]] else Lines(file)
  {
    assert (file + [b])[..|file|] == file;
  }

  /** A line that is being read. */
  lemma {:induction false} LinePart(file: Str, a: Str)
    requires AtStart(file) && NEWLINE !in a && a != []
    ensures Lines(file + a) == Lines(file) + [a]
    decreases |a|
  {
    hide Lines;
    var n := |a| - 1;
    assert file + a == file + a[..n] + [a[n]];
    LinesSnoc(file + a[..n], a[n]);
    if n > 0 {
      LinePart(file, a[..n]);
      assert a[n - 1] in a;
      assert a == a[..n] + [a[n]];
    } else {
      assert a[..n] == [] && file + [] == file && a == [a[n]];
    }
  }

  lemma LineAppend(file: Str, a: Str)
    requires AtStart(file) && NEWLINE !in a
    ensures Lines(file + a + [NEWLINE]) == Lines(file) + [a]
  {
    hide Lines;
    LinesSnoc(file + a, NEWLINE);
    if a == [] {
      assert file + a == file;
    } else {
      LinePart(file, a);
      assert a[|a| - 1] in a;
    }
  }

  /** The bytes of a saved page: `\3` behind the title and behind the content, and a newline at the end. */
  lemma SavedBytes(pages: seq<Page>, p: Page)
    ensures Save(pages + [p]) == Save(pages) + p.title + [3] + p.content + [3] + p.url + [10]
  {
    var a, b, c, d, e := Save(pages), p.title, p.content, p.url, [3];
    assert (pages + [p])[..|pages|] == pages;
    assert a + (b + e + c + e + d) + [10] == a + b + e + c + e + d + [10];
  }

  lemma SaveEnds(pages: seq<Page>)
    ensures AtStart(Save(pages))
  {
  }

  lemma OneLineLine(p: Page)
    requires OneLine(p)
    ensures NEWLINE !in Line(p)
  {
  }

  lemma {:induction false} SavedLines(pages: seq<Page>)
    requires forall p :: p in pages ==> OneLine(p)
    ensures Lines(Save(pages)) == LinesOf(pages)
    decreases |pages|
  {
    hide Lines, OneLine, Line;
    if pages == [] {
      NoLines();
    } else {
      var n := |pages| - 1;
      assert pages[n] in pages;
      SavedLines(pages[..n]);
      SaveEnds(pages[..n]);
      OneLineLine(pages[n]);
      LineAppend(Save(pages[..n]), Line(pages[n]));
      assert LinesOf(pages) == LinesOf(pages[..n]) + [Line(pages[n])];
    }
  }

  lemma NoLines()
    ensures Lines([]) == []
  {
  }

  lemma {:induction false} CleanLinesAreAccepted(tx: I.Text, pages: seq<Page>)
    requires tx.split == Split && forall p :: p in pages ==> Clean(p)
    ensures I.Documents(tx, [], LinesOf(pages)) == DocsOf(pages)
    decreases |pages|
  {
    hide Clean, Line, Split;
    if pages != [] {
      var n := |pages| - 1;
      assert LinesOf(pages)[..n] == LinesOf(pages[..n]);
      CleanLinesAreAccepted(tx, pages[..n]);
      assert pages[n] in pages;
      LineRoundTripExactly(pages[n]);
      assert DocsOf(pages) == DocsOf(pages[..n]) + [DocsOf(pages)[n]];
    }
  }

  lemma {:induction false} LinesHoldNoNewline(file: Str)
    ensures forall k :: 0 <= k < |Lines(file)| ==> NEWLINE !in Lines(file)[k]
  {
    if file != [] {
      LinesHoldNoNewline(file[..|file| - 1]);
    }
  }

  /** Whatever the index accepts from a file could be saved in one line of it. */
  lemma {:induction false} AcceptedIsStorable(tx: I.Text, lines: seq<Str>, d: nat)
    requires tx.split == Split && d < |I.Documents(tx, [], lines)| && forall k :: 0 <= k < |lines| ==> NEWLINE !in lines[k]
    ensures var doc := I.Documents(tx, [], lines)[d];
            var p := Page(doc.title, doc.content, doc.url);
            Clean(p) && OneLine(p)
    decreases |lines|
  {
    hide Split;
    if lines != [] {
      var n := |lines| - 1;
      if d < |I.Documents(tx, [], lines[..n])| {
        AcceptedIsStorable(tx, lines[..n], d);
      } else {
        FieldsAreStorable(lines[n]);
      }
    }
  }

  lemma FieldsAreStorable(line: Str)
    requires NEWLINE !in line && |Split(line)| == 3
    ensures var p := Page(Split(line)[0], Split(line)[1], Split(line)[2]); Clean(p) && OneLine(p)
  {
    hide Split;
    FieldsAreClean(line);
    FieldsAreParts(line, NEWLINE);
  }

  /** The index holds the pages that the parser saved, all of them and in order, if and only if every page fits the
      format: no separator and no newline in any field, and some content. */
  lemma FileRoundTripExactly(tx: I.Text, pages: seq<Page>)
    requires tx.split == Split
    ensures I.Documents(tx, [], Lines(Save(pages))) == DocsOf(pages) <==> forall p :: p in pages ==> Clean(p) && OneLine(p)
  {
    hide Clean, OneLine, Split, Lines, Save, I.Documents;
    if forall p :: p in pages ==> Clean(p) && OneLine(p) {
      SavedLines(pages);
      CleanLinesAreAccepted(tx, pages);
    }
    if I.Documents(tx, [], Lines(Save(pages))) == DocsOf(pages) {
      LinesHoldNoNewline(Save(pages));
      forall p | p in pages
        ensures Clean(p) && OneLine(p)
      {
        var d :| 0 <= d < |pages| && pages[d] == p;
        AcceptedIsStorable(tx, Lines(Save(pages)), d);
      }
    }
  }

  // ---------------------------------------------------------------- the words

  /** `boost::to_lower` in the C locale. */
  function Lower(s: Str): (r: Str)
    ensures |r| == |s|
    ensures forall i :: 0 <= i < |r| ==> r[i] == if 'A' as int <= s[i] <= 'Z' as int then s[i] + 32 else s[i]
  {
    seq(|s|, i requires 0 <= i < |s| => if 'A' as int <= s[i] <= 'Z' as int then s[i] + 32 else s[i])
  }

  /** What `CutForSearch` makes of a text; from 2^32 bytes on, where its 32-bit offsets end, nothing is said of it. */
  function CutForSearch(lex: Lexicon, symbols: set<Rune>, s: Str): (out: seq<Str>)
    requires lex.Valid()
  {
    if |s| >= UINT32 then []
    else
      QueryTextDraws(lex, s, symbols, true);
      Strings(s, QueryText(lex, RunesOf(TextOf(s)), symbols, 0, true))
  }

  function Strings(s: Str, wrs: seq<WordRange>): (out: seq<Str>)
    requires Drawable(s, TextOf(s), wrs)
    ensures |out| == |wrs|
    ensures forall k :: 0 <= k < |out| ==> out[k] == GetWordFromRunes(s, TextOf(s), wrs[k]).word
  {
    seq(|wrs|, k requires 0 <= k < |wrs| => GetWordFromRunes(s, TextOf(s), wrs[k]).word)
  }

  function EngineText(lex: Lexicon, symbols: set<Rune>): I.Text
    requires lex.Valid()
  {
    I.Text(s => CutForSearch(lex, symbols, s), Lower, Split)
  }

  /** The words of a text, for index and query alike, are those of the query segmentation with the model, in order, and with
      the capital letters made small. */
  lemma EngineWords(lex: Lexicon, symbols: set<Rune>, s: Str)
    requires lex.Valid() && |s| < 0x1_0000_0000
    ensures var ws, wrs := I.Words(EngineText(lex, symbols), s), QueryText(lex, RunesOf(TextOf(s)), symbols, 0, true);
            && Drawable(s, TextOf(s), wrs) && |ws| == |wrs|
            && forall k :: 0 <= k < |ws| ==>
                 var w := GetWordFromRunes(s, TextOf(s), wrs[k]).word;
                 |ws[k]| == |w| && forall i :: 0 <= i < |w| ==> ws[k][i] == if 65 <= w[i] <= 90 then w[i] + 32 else w[i]
  {
    hide QueryText, GetWordFromRunes, Lower;
    var ws, wrs := I.Words(EngineText(lex, symbols), s), QueryText(lex, RunesOf(TextOf(s)), symbols, 0, true);
    QueryTextDraws(lex, s, symbols, true);
    assert EngineText(lex, symbols).cut(s) == Strings(s, wrs);
    forall k | 0 <= k < |ws|
      ensures ws[k] == Lower(GetWordFromRunes(s, TextOf(s), wrs[k]).word)
    {
      assert ws[k] == Lower(Strings(s, wrs)[k]);
    }
  }

  /** The segmenter computes the cut that the index is given. */
  method CutString(seg: QuerySegment, s: Str) returns (out: seq<Str>)
    requires seg.Valid() && |s| < UINT32
    ensures seg.mixSeg.Lex().Valid()
    ensures out == EngineText(seg.mixSeg.Lex(), seg.symbols).cut(s)
  {
    hide QueryText, GetWordFromRunes, Drawable, QuerySegment.Valid;
    var words := seg.CutSentence(s, true);
    out := [];
    for i := 0 to |words|
      invariant |out| == i && forall k :: 0 <= k < i ==> out[k] == words[k].word
    {
      out := out + [words[i].word];
    }
    assert out == CutForSearch(seg.mixSeg.Lex(), seg.symbols, s);
  }

  // ---------------------------------------------------------------- from bytes to answers

  /** A text that decodes and is not empty has words. */
  lemma CutFindsWords(lex: Lexicon, symbols: set<Rune>, s: Str)
    requires lex.Valid() && 0 < |s| < UINT32 && Decode(s).Some?
    ensures CutForSearch(lex, symbols, s) != []
  {
    var text := RunesOf(TextOf(s));
    TextCovers(s);
    assert text != [];
    var end := RangeEnd(text, symbols, 0);
    QueryTextNext(lex, text, symbols, 0, true);
    var mix := MixWords(lex, text, 0, end, true);
    assert mix != [];
    QueryCutExact(lex, text, 0, end, true, mix[0]);
  }

  /** Indexing a saved file and searching it is scanning its documents. */
  method SearchFile(lex: Lexicon, symbols: set<Rune>, file: Str, query: Str) returns (hits: seq<S.Hit>)
    requires lex.Valid()
    ensures var tx := EngineText(lex, symbols);
            S.Answers(tx, I.Documents(tx, [], Lines(file)), I.Words(tx, query), hits)
  {
    hits := S.IndexAndSearch(EngineText(lex, symbols), Lines(file), query);
  }

  /** Whoever searches for the title of a saved page finds that page. */
  lemma TitleFindsPage(lex: Lexicon, symbols: set<Rune>, pages: seq<Page>, d: nat, hits: seq<S.Hit>)
    requires lex.Valid() && d < |pages| && forall p :: p in pages ==> Clean(p) && OneLine(p)
    requires 0 < |pages[d].title| < UINT32 && Decode(pages[d].title).Some?
    requires var tx := EngineText(lex, symbols);
             S.Answers(tx, I.Documents(tx, [], Lines(Save(pages))), I.Words(tx, pages[d].title), hits)
    ensures exists k :: 0 <= k < |hits| && hits[k].doc == DocsOf(pages)[d]
  {
    var tx := EngineText(lex, symbols);
    var doc, tokens := DocsOf(pages)[d], I.Words(tx, pages[d].title);
    FileRoundTripExactly(tx, pages);
    CutFindsWords(lex, symbols, pages[d].title);
    assert tokens[0] in tokens && I.Mentions(tx, doc, tokens[0]);
    S.ScorePositive(tx, doc, tokens);
  }
}
