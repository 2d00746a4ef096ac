/** Boost_Searcher/cppjieba/PreFilter.hpp: splits a decoded sentence at its separators. */
module PreFilter {
  import opened Wrappers
  import opened Unicode

  /** Half open, as in the source. */
  datatype Range = Range(begin: nat, end: nat)

  /** The first separator at or after `k`, or the end of the text. */
  function NextSymbol(text: seq<Rune>, symbols: set<Rune>, k: nat): (r: nat)
    requires k <= |text|
    ensures k <= r <= |text|
    ensures forall i :: k <= i < r ==> text[i] !in symbols
    ensures r < |text| ==> text[r] in symbols
    decreases |text| - k
  {
    if k == |text| || text[k] in symbols then k else NextSymbol(text, symbols, k + 1)
  }

  /** Where the range that starts at `cursor` ends: a separator is a range of its own. */
  function RangeEnd(text: seq<Rune>, symbols: set<Rune>, cursor: nat): (r: nat)
    requires cursor <= |text|
    ensures cursor <= r <= |text|
    ensures cursor < |text| ==> cursor < r
  {
    if cursor < |text| && text[cursor] in symbols then cursor + 1 else NextSymbol(text, symbols, cursor)
  }

  /** A range of two or more runes holds no separator. */
  lemma LongRangeHoldsNoSymbol(text: seq<Rune>, symbols: set<Rune>, cursor: nat)
    requires cursor <= |text| && cursor + 1 < RangeEnd(text, symbols, cursor)
    ensures forall i :: cursor <= i < RangeEnd(text, symbols, cursor) ==> text[i] !in symbols
  {
  }

  /** `[a, b)` is one separator, or everything between two of them. */
  ghost predicate IsRange(text: seq<Rune>, symbols: set<Rune>, a: nat, b: nat) {
    && a < b <= |text|
    && (text[a] in symbols ==> b == a + 1)
    && (text[a] !in symbols ==>
          && (forall k :: a <= k < b ==> text[k] !in symbols)
          && (b < |text| ==> text[b] in symbols)
          && (a > 0 ==> text[a - 1] in symbols))
  }

  /** A range can begin here. */
  ghost predicate Begins(text: seq<Rune>, symbols: set<Rune>, cursor: nat) {
    0 < cursor < |text| ==> text[cursor] in symbols || text[cursor - 1] in symbols
  }

  /** Where a range begins exactly one does, it ends where the source ends it, and the next one begins there. */
  lemma RangeEndExactly(text: seq<Rune>, symbols: set<Rune>, cursor: nat, b: nat)
    requires cursor < |text| && Begins(text, symbols, cursor)
    ensures b == RangeEnd(text, symbols, cursor) <==>
              && cursor < b <= |text|
              && (text[cursor] in symbols ==> b == cursor + 1)
              && (text[cursor] !in symbols ==>
                    && (forall k :: cursor <= k < b ==> text[k] !in symbols)
                    && (b < |text| ==> text[b] in symbols))
    ensures IsRange(text, symbols, cursor, RangeEnd(text, symbols, cursor))
    ensures Begins(text, symbols, RangeEnd(text, symbols, cursor))
  {
  }

  lemma RangeIsInside(text: seq<Rune>, symbols: set<Rune>, a: nat, b: nat)
    requires IsRange(text, symbols, a, b)
    ensures a < b <= |text|
  {
  }

  lemma RangeIsUnique(text: seq<Rune>, symbols: set<Rune>, a: nat, b: nat)
    requires IsRange(text, symbols, a, b)
    ensures b == RangeEnd(text, symbols, a)
  {
  }

  /** No range begins inside another. */
  lemma RangesApart(text: seq<Rune>, symbols: set<Rune>, cursor: nat, a: nat, b: nat)
    requires cursor < a && IsRange(text, symbols, a, b)
    ensures RangeEnd(text, symbols, cursor) <= a
  {
  }

  /** A sentence that does not decode is treated as empty. */
  function TextOf(sentence: seq<Byte>): seq<RuneStr> {
    match Decode(sentence)
    case None => []
    case Some(runes) => runes
  }

  class PreFilter {
    var cursor: nat
    const sentence: seq<RuneStr>
    const symbols: set<Rune>

    constructor (symbols: set<Rune>, sentence: seq<Byte>)
      requires |sentence| < UINT32
      ensures this.symbols == symbols && this.sentence == TextOf(sentence) && cursor == 0
    {
      var ok, runes := DecodeUTF8RunesInString(sentence);
      this.sentence, this.symbols, cursor := runes, symbols, 0;
    }

    predicate HasNext()
      reads this
    {
      cursor != |sentence|
    }

    method Next() returns (range: Range)
      requires cursor <= |sentence|
      modifies this
      ensures range == Range(old(cursor), RangeEnd(RunesOf(sentence), symbols, old(cursor)))
      ensures cursor == range.end
    {
      var begin := cursor;
      while cursor != |sentence|
        invariant begin <= cursor <= |sentence|
        invariant begin < cursor ==> RunesOf(sentence)[begin] !in symbols
        invariant NextSymbol(RunesOf(sentence), symbols, begin) == NextSymbol(RunesOf(sentence), symbols, cursor)
        decreases |sentence| - cursor
      {
        if sentence[cursor].rune in symbols {
          if begin == cursor {
            cursor := cursor + 1;
          }
          return Range(begin, cursor);
        }
        cursor := cursor + 1;
      }
      range := Range(begin, |sentence|);
    }
  }
}
