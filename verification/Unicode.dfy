/** Boost_Searcher/cppjieba/Unicode.hpp: UTF-8 decoding into runes that remember
    their byte and rune offsets, and the way back from rune ranges to words.

    Bytes and runes are integers of the source's width. A mask of the low `n` bits is written
    `% 2^n`, a shift by `n` is written `* 2^n` or `/ 2^n`, and an `|` of values
    with no common bit is written `+`. */
module Unicode {
  import opened Wrappers

  const UINT32: int := 0x1_0000_0000

  type Byte = b: int | 0 <= b < 0x100
  type Rune = r: int | 0 <= r < 0x1_0000_0000

  datatype RuneStr = RuneStr(rune: Rune, offset: nat, len: nat, unicodeOffset: nat, unicodeLength: nat)
  datatype RuneStrLite = RuneStrLite(rune: Rune, len: nat)
  datatype Word = Word(word: seq<Byte>, offset: nat, unicodeOffset: nat, unicodeLength: nat)

  /** Both ends belong to the range, as in the source. */
  datatype WordRange = WordRange(left: nat, right: nat) {
    function Length(): int { right - left + 1 }
  }

  function RunesOf(runes: seq<RuneStr>): (t: seq<Rune>)
    ensures |t| == |runes|
    ensures forall i :: 0 <= i < |t| ==> t[i] == runes[i].rune
  {
    seq(|runes|, i requires 0 <= i < |runes| => runes[i].rune)
  }

  // ---------------------------------------------------------------- decoding

  /** The six payload bits of a continuation byte, shifted in from the right. */
  function Join(high: nat, b: Byte): nat {
    high * 0x40 + b % 0x40
  }

  /** One rune from the front of `s`; length 0 reports a malformed or truncated rune. */
  function DecodeUTF8ToRune(s: seq<Byte>): (r: RuneStrLite)
    ensures r.len <= |s|
    ensures r.len == 1 ==> r.rune < 0x80
    ensures r.len == 2 ==> r.rune < 0x800
    ensures r.len == 3 ==> r.rune < 0x1_0000
    ensures r.len <= 4 && r.rune < 0x20_0000
  {
    if |s| == 0 then RuneStrLite(0, 0)
    else if s[0] < 0x80 then
      RuneStrLite(s[0], 1)
    else if s[0] <= 0xdf && 1 < |s| then
      RuneStrLite(Join(s[0] % 0x20, s[1]), 2)
    else if s[0] <= 0xef && 2 < |s| then
      RuneStrLite(Join(Join(s[0] % 0x10, s[1]), s[2]), 3)
    else if s[0] <= 0xf7 && 3 < |s| then
      RuneStrLite(Join(Join(Join(s[0] % 8, s[1]), s[2]), s[3]), 4)
    else
      RuneStrLite(0, 0)
  }

  function Low(b: Byte, n: nat): (r: nat)
    requires n > 0
    ensures exists q: nat :: b as nat == n * q + r && r < n
  {
    var r: nat := b as nat % n;
    assert b as nat == n * (b as nat / n) + r;
    r
  }

  /** How many bytes a rune takes is read off its first byte, which need not be one that can lead and need not be followed by
      continuation bytes; its value is made of the low 7, 5, 4 or 3 bits of the first byte and six of each other byte. */
  lemma RuneInNumbers(s: seq<Byte>)
    requires s != []
    ensures s[0] < 128 ==> DecodeUTF8ToRune(s) == RuneStrLite(s[0], 1)
    ensures 128 <= s[0] < 224 && |s| >= 2 ==> DecodeUTF8ToRune(s) == RuneStrLite(64 * Low(s[0], 32) + Low(s[1], 64), 2)
    ensures 224 <= s[0] < 240 && |s| >= 3 ==>
              DecodeUTF8ToRune(s) == RuneStrLite(4096 * Low(s[0], 16) + 64 * Low(s[1], 64) + Low(s[2], 64), 3)
    ensures 240 <= s[0] < 248 && |s| >= 4 ==>
              DecodeUTF8ToRune(s) ==
              RuneStrLite(262144 * Low(s[0], 8) + 4096 * Low(s[1], 64) + 64 * Low(s[2], 64) + Low(s[3], 64), 4)
    ensures s[0] >= 248 || (s[0] >= 128 && |s| < 2) || (s[0] >= 224 && |s| < 3) || (s[0] >= 240 && |s| < 4) ==>
              DecodeUTF8ToRune(s) == RuneStrLite(0, 0)
  {
  }

  /** The runes of `s` from byte `i` on, the first of them being rune number `j`. */
  function DecodeFrom(s: seq<Byte>, i: nat, j: nat): Option<seq<RuneStr>>
    requires i <= |s|
    decreases |s| - i
  {
    if i == |s| then Some([])
    else
      var rp := DecodeUTF8ToRune(s[i..]);
      if rp.len == 0 then None
      else match DecodeFrom(s, i + rp.len, j + 1)
        case None => None
        case Some(rest) => Some([RuneStr(rp.rune, i, rp.len, j, 1)] + rest)
  }

  function Decode(s: seq<Byte>): Option<seq<RuneStr>> {
    DecodeFrom(s, 0, 0)
  }

  /** The source counts bytes in a `uint32_t`, so it leaves longer strings undefined. */
  method DecodeUTF8RunesInString(s: seq<Byte>) returns (ok: bool, runes: seq<RuneStr>)
    requires |s| < UINT32
    ensures ok == Decode(s).Some?
    ensures runes == if ok then Decode(s).value else []
  {
    hide DecodeUTF8ToRune;
    runes := [];
    var i, j := 0, 0;
    while i < |s|
      invariant 0 <= i <= |s|
      invariant DecodeFrom(s, i, j).Some? == Decode(s).Some?
      invariant Decode(s).Some? ==> Decode(s).value == runes + DecodeFrom(s, i, j).value
    {
      var rp := DecodeUTF8ToRune(s[i..]);
      if rp.len == 0 {
        return false, [];
      }
      runes := runes + [RuneStr(rp.rune, i, rp.len, j, 1)];
      i, j := i + rp.len, j + 1;
    }
    ok := true;
  }

  /** The byte at which rune `k` starts; the end of the string for `k == |runes|`. */
  function ByteOffset(runes: seq<RuneStr>, k: nat, n: nat): nat
    requires k <= |runes|
  {
    if k < |runes| then runes[k].offset else n
  }

  /** Rune `k` is non-empty, ends where rune `k + 1` starts, and is numbered `j + k`. */
  ghost predicate Fits(runes: seq<RuneStr>, k: nat, j: nat, n: nat)
    requires k < |runes|
  {
    && runes[k].len >= 1
    && runes[k].offset + runes[k].len == ByteOffset(runes, k + 1, n)
    && runes[k].unicodeOffset == j + k
    && runes[k].unicodeLength == 1
  }

  /** The runes cover the bytes `i..n` without a gap and are numbered from `j`. */
  ghost predicate Covers(runes: seq<RuneStr>, i: nat, j: nat, n: nat) {
    && ByteOffset(runes, 0, n) == i
    && forall k :: 0 <= k < |runes| ==> Fits(runes, k, j, n)
  }

  lemma {:induction false} DecodeCovers(s: seq<Byte>, i: nat, j: nat)
    requires i <= |s| && DecodeFrom(s, i, j).Some?
    ensures Covers(DecodeFrom(s, i, j).value, i, j, |s|)
    decreases |s| - i
  {
    hide DecodeUTF8ToRune;
    if i < |s| {
      var rp := DecodeUTF8ToRune(s[i..]);
      DecodeCovers(s, i + rp.len, j + 1);
      var rest := DecodeFrom(s, i + rp.len, j + 1).value;
      var runes := DecodeFrom(s, i, j).value;
      assert runes == [runes[0]] + rest;
      assert ByteOffset(rest, 0, |s|) == ByteOffset(runes, 1, |s|);
      forall k | 0 <= k < |runes|
        ensures Fits(runes, k, j, |s|)
      {
        if k > 0 {
          assert Fits(rest, k - 1, j + 1, |s|);
          assert ByteOffset(rest, k, |s|) == ByteOffset(runes, k + 1, |s|);
        }
      }
    }
  }

  lemma {:induction false} ByteOffsetMonotone(runes: seq<RuneStr>, a: nat, b: nat, n: nat)
    requires Covers(runes, 0, 0, n) && a <= b <= |runes|
    ensures ByteOffset(runes, a, n) <= ByteOffset(runes, b, n) <= n
    ensures b - a <= ByteOffset(runes, b, n) - ByteOffset(runes, a, n)
    decreases |runes| - a
  {
    if a < |runes| {
      assert Fits(runes, a, 0, n);
      ByteOffsetMonotone(runes, a + 1, if a == b then |runes| else b, n);
    }
  }

  // ---------------------------------------------------------------- words

  /** `std::string::substr` for a start inside the string. */
  function Substr(s: seq<Byte>, pos: nat, len: nat): seq<Byte>
    requires pos <= |s|
  {
    if pos + len <= |s| then s[pos..pos + len] else s[pos..]
  }

  function GetWordFromRunes(s: seq<Byte>, runes: seq<RuneStr>, wr: WordRange): Word
    requires wr.left < |runes| && wr.right < |runes|
    requires runes[wr.left].offset <= runes[wr.right].offset && runes[wr.left].offset <= |s|
  {
    var left, right := runes[wr.left], runes[wr.right];
    var len := (right.offset - left.offset + right.len) % UINT32;
    var unicodeLength := (right.unicodeOffset - left.unicodeOffset + right.unicodeLength) % UINT32;
    Word(Substr(s, left.offset, len), left.offset, left.unicodeOffset, unicodeLength)
  }

  /** Lengths are of 32 bits: a word of exactly 2^32 bytes would come out empty. */
  lemma LongWordIsEmpty(s: seq<Byte>, runes: seq<RuneStr>, wr: WordRange)
    requires wr.left <= wr.right < |runes|
    requires runes[wr.left].offset <= runes[wr.right].offset && runes[wr.left].offset <= |s|
    requires runes[wr.right].offset + runes[wr.right].len == runes[wr.left].offset + 0x1_0000_0000
    ensures GetWordFromRunes(s, runes, wr).word == []
  {
  }

  /** What `GetWordFromRunes` demands of every range it is given. */
  predicate Drawable(s: seq<Byte>, runes: seq<RuneStr>, wrs: seq<WordRange>) {
    forall k :: 0 <= k < |wrs| ==>
      && wrs[k].left < |runes| && wrs[k].right < |runes|
      && runes[wrs[k].left].offset <= runes[wrs[k].right].offset
      && runes[wrs[k].left].offset <= |s|
  }

  method GetWordsFromWordRanges(s: seq<Byte>, runes: seq<RuneStr>, wrs: seq<WordRange>) returns (words: seq<Word>)
    requires Drawable(s, runes, wrs)
    ensures |words| == |wrs|
    ensures forall k :: 0 <= k < |words| ==> words[k] == GetWordFromRunes(s, runes, wrs[k])
  {
    words := [];
    for i := 0 to |wrs|
      invariant |words| == i
      invariant forall k :: 0 <= k < i ==> words[k] == GetWordFromRunes(s, runes, wrs[k])
    {
      words := words + [GetWordFromRunes(s, runes, wrs[i])];
    }
  }

  // ---------------------------------------------------------------- tilings

  /** The ranges are non-empty, follow each other and cover exactly `[from, to)`. */
  ghost predicate Tiles(wrs: seq<WordRange>, from: nat, to: nat) {
    if wrs == [] then from == to
    else
      var w := wrs[|wrs| - 1];
      w.left <= w.right && w.right + 1 == to && Tiles(wrs[..|wrs| - 1], from, w.left)
  }

  lemma {:induction false} TilesAppend(a: seq<WordRange>, b: seq<WordRange>, from: nat, mid: nat, to: nat)
    requires Tiles(a, from, mid) && Tiles(b, mid, to)
    ensures Tiles(a + b, from, to)
    decreases |b|
  {
    if b == [] {
      assert a + b == a;
    } else {
      TilesAppend(a, b[..|b| - 1], from, mid, b[|b| - 1].left);
      assert (a + b)[..|a + b| - 1] == a + b[..|b| - 1];
    }
  }

  lemma TilesCons(w: WordRange, b: seq<WordRange>, to: nat)
    requires w.left <= w.right && Tiles(b, w.right + 1, to)
    ensures Tiles([w] + b, w.left, to)
  {
    assert [w][..0] == [];
    TilesAppend([w], b, w.left, w.right + 1, to);
  }

  lemma {:induction false} TilesBounds(wrs: seq<WordRange>, from: nat, to: nat)
    requires Tiles(wrs, from, to)
    ensures from <= to
    ensures forall k :: 0 <= k < |wrs| ==> from <= wrs[k].left <= wrs[k].right < to
    decreases |wrs|
  {
    if wrs != [] {
      TilesBounds(wrs[..|wrs| - 1], from, wrs[|wrs| - 1].left);
      assert forall k :: 0 <= k < |wrs| - 1 ==> wrs[k] == wrs[..|wrs| - 1][k];
    }
  }

  /** A tiling cut after word `k` gives two tilings that meet at that word's end. */
  lemma {:induction false} TilesSplit(wrs: seq<WordRange>, k: nat, from: nat, to: nat)
    requires Tiles(wrs, from, to) && k < |wrs|
    ensures Tiles(wrs[..k], from, wrs[k].left)
    ensures wrs[k].left <= wrs[k].right
    ensures Tiles(wrs[k + 1..], wrs[k].right + 1, to)
    decreases |wrs|
  {
    var n := |wrs| - 1;
    if k < n {
      TilesSplit(wrs[..n], k, from, wrs[n].left);
      assert wrs[..n][..k] == wrs[..k];
      assert wrs[k + 1..][..|wrs[k + 1..]| - 1] == wrs[..n][k + 1..];
    } else {
      assert wrs[k + 1..] == [];
    }
  }

  function Bytes(words: seq<Word>): seq<Byte> {
    if words == [] then [] else Bytes(words[..|words| - 1]) + words[|words| - 1].word
  }

  function RuneCount(words: seq<Word>): nat {
    if words == [] then 0 else RuneCount(words[..|words| - 1]) + words[|words| - 1].unicodeLength
  }

  lemma WordOfRange(s: seq<Byte>, runes: seq<RuneStr>, w: WordRange)
    requires |s| < UINT32 && Covers(runes, 0, 0, |s|) && w.left <= w.right < |runes|
    ensures runes[w.left].offset <= runes[w.right].offset < ByteOffset(runes, w.right + 1, |s|) <= |s|
    ensures GetWordFromRunes(s, runes, w) ==
            Word(s[runes[w.left].offset..ByteOffset(runes, w.right + 1, |s|)], runes[w.left].offset, w.left, w.right + 1 - w.left)
  {
    ByteOffsetMonotone(runes, w.left, w.right, |s|);
    ByteOffsetMonotone(runes, w.right, w.right + 1, |s|);
    assert Fits(runes, w.left, 0, |s|) && Fits(runes, w.right, 0, |s|);
  }

  /** Words read off a tiling of the first runes of a decoded string concatenate to the bytes
      under them, and each one records how many bytes and runes come before it. */
  lemma {:induction false} TilingWords(s: seq<Byte>, runes: seq<RuneStr>, wrs: seq<WordRange>, to: nat, words: seq<Word>)
    requires |s| < UINT32 && Covers(runes, 0, 0, |s|) && to <= |runes|
    requires Tiles(wrs, 0, to) && Drawable(s, runes, wrs)
    requires |words| == |wrs|
    requires forall k :: 0 <= k < |words| ==> words[k] == GetWordFromRunes(s, runes, wrs[k])
    ensures ByteOffset(runes, to, |s|) <= |s|
    ensures Bytes(words) == s[..ByteOffset(runes, to, |s|)]
    ensures RuneCount(words) == to
    decreases |wrs|
  {
    ByteOffsetMonotone(runes, to, to, |s|);
    NoWords(words);
    hide GetWordFromRunes, Covers, Bytes, RuneCount;
    if wrs != [] {
      var n := |wrs| - 1;
      var w := wrs[n];
      TilesBounds(wrs, 0, to);
      assert wrs[..n] == wrs[..|wrs| - 1];
      TilingWords(s, runes, wrs[..n], w.left, words[..n]);
      WordOfRange(s, runes, w);
      WordsSnoc(words);
      PrefixAppend(s, runes[w.left].offset, ByteOffset(runes, to, |s|));
    }
  }

  lemma NoWords(words: seq<Word>)
    ensures words == [] ==> Bytes(words) == [] && RuneCount(words) == 0
  {
  }

  lemma WordsSnoc(words: seq<Word>)
    requires words != []
    ensures Bytes(words) == Bytes(words[..|words| - 1]) + words[|words| - 1].word
    ensures RuneCount(words) == RuneCount(words[..|words| - 1]) + words[|words| - 1].unicodeLength
  {
  }

  lemma PrefixAppend<T>(s: seq<T>, i: nat, j: nat)
    requires i <= j <= |s|
    ensures s[..j] == s[..i] + s[i..j]
  {
  }

  lemma {:induction false} TilingOffsets(s: seq<Byte>, runes: seq<RuneStr>, wrs: seq<WordRange>, to: nat, words: seq<Word>, k: nat)
    requires |s| < UINT32 && Covers(runes, 0, 0, |s|) && to <= |runes|
    requires Tiles(wrs, 0, to) && Drawable(s, runes, wrs)
    requires |words| == |wrs| && k < |words|
    requires forall i :: 0 <= i < |words| ==> words[i] == GetWordFromRunes(s, runes, wrs[i])
    ensures words[k].offset == |Bytes(words[..k])|
    ensures words[k].unicodeOffset == RuneCount(words[..k])
    ensures words[k].word != []
  {
    hide GetWordFromRunes, Covers;
    TilesBounds(wrs, 0, to);
    TilesSplit(wrs, k, 0, to);
    TilingWords(s, runes, wrs[..k], wrs[k].left, words[..k]);
    WordOfRange(s, runes, wrs[k]);
  }

  lemma DrawTiling(s: seq<Byte>, runes: seq<RuneStr>, wrs: seq<WordRange>, to: nat)
    requires Covers(runes, 0, 0, |s|) && to <= |runes| && Tiles(wrs, 0, to)
    ensures Drawable(s, runes, wrs)
  {
    TilesBounds(wrs, 0, to);
    forall k | 0 <= k < |wrs|
      ensures wrs[k].left < |runes| && wrs[k].right < |runes|
      ensures runes[wrs[k].left].offset <= runes[wrs[k].right].offset
      ensures runes[wrs[k].left].offset <= |s|
    {
      ByteOffsetMonotone(runes, wrs[k].left, wrs[k].right, |s|);
    }
  }
}
