/** Boost_Searcher/cppjieba/MPSegment.hpp: the cut of greatest total weight, found by a dynamic
    program over the word graph. Doubles are reals; the clamp at `MIN_DOUBLE` is kept. */
module MPSegment {
  import opened Wrappers
  import opened Unicode
  import opened DictTrie
  import T = Trie

  type Graph = seq<seq<T.Edge>>

  /** Every edge ends inside the graph, at or after the position it leaves. */
  ghost predicate Forward(g: Graph) {
    forall i, k :: 0 <= i < |g| && 0 <= k < |g[i]| ==> i <= g[i][k].nextPos < |g|
  }

  function GraphOf(d: Dict, t: seq<Rune>, maxLen: nat): (g: Graph)
    ensures |g| == |t|
    ensures forall i :: 0 <= i < |t| ==> g[i] == T.EdgesAt(d.words, t, i, maxLen)
    ensures Forward(g)
  {
    var g := seq(|t|, i requires 0 <= i < |t| => T.EdgesAt(d.words, t, i, maxLen));
    assert Forward(g) by {
      forall i, k | 0 <= i < |g| && 0 <= k < |g[i]|
        ensures i <= g[i][k].nextPos < |g|
      {
        T.EdgesExact(d.words, t, i, maxLen);
        assert g[i][k] in g[i];
      }
    }
    g
  }

  function Cost(e: T.Edge, minWeight: real): real {
    if e.unit.Some? then e.unit.value.weight else minWeight
  }

  // ---------------------------------------------------------------- the dynamic program

  datatype Choice = Choice(pInfo: Option<T.DictUnit>, weight: real)

  /** The table entry for position `i`: 0 behind the last rune. */
  function Best(g: Graph, minWeight: real, i: nat): Choice
    requires Forward(g) && i <= |g|
    decreases |g| - i, if i < |g| then |g[i]| + 1 else 0
  {
    if i == |g| then Choice(None, 0.0) else Relaxed(g, minWeight, i, |g[i]|)
  }

  /** The entry for `i` after its first `k` edges: an edge replaces the choice only if it is better. */
  function Relaxed(g: Graph, minWeight: real, i: nat, k: nat): Choice
    requires Forward(g) && i < |g| && k <= |g[i]|
    decreases |g| - i, k
  {
    if k == 0 then Choice(None, MIN_DOUBLE)
    else
      var c := Relaxed(g, minWeight, i, k - 1);
      var val := EdgeValue(g, minWeight, i, k - 1);
      if val > c.weight then Choice(g[i][k - 1].unit, val) else c
  }

  /** The best weight from `i` on if edge `k` is taken first. */
  function EdgeValue(g: Graph, minWeight: real, i: nat, k: nat): real
    requires Forward(g) && i < |g| && k < |g[i]|
    decreases |g| - i, k
  {
    Best(g, minWeight, g[i][k].nextPos + 1).weight + Cost(g[i][k], minWeight)
  }

  /** The entries from `from` on hold the table's values. */
  ghost predicate Solved(dags: seq<T.Dag>, g: Graph, minWeight: real, from: nat)
    requires Forward(g) && |dags| == |g|
  {
    forall k :: from <= k < |g| ==> Choice(dags[k].pInfo, dags[k].weight) == Best(g, minWeight, k)
  }

  ghost predicate SameText(a: seq<T.Dag>, b: seq<T.Dag>) {
    |a| == |b| && forall k :: 0 <= k < |a| ==> a[k].nexts == b[k].nexts && a[k].runestr == b[k].runestr
  }

  /** Fills the table from its last entry back to its first. */
  method CalcDP(dags: array<T.Dag>, minWeight: real)
    requires Forward(Nexts(dags[..]))
    modifies dags
    ensures SameText(dags[..], old(dags[..]))
    ensures Nexts(dags[..]) == old(Nexts(dags[..]))
    ensures Solved(dags[..], Nexts(dags[..]), minWeight, 0)
  {
    ghost var g := Nexts(dags[..]);
    var i := dags.Length;
    while i > 0
      invariant 0 <= i <= dags.Length
      invariant SameText(dags[..], old(dags[..]))
      invariant Solved(dags[..], g, minWeight, i)
    {
      i := i - 1;
      assert Nexts(dags[..]) == g;
      CalcEntry(dags, minWeight, i);
    }
    assert Nexts(dags[..]) == g;
  }

  /** The inner loop: the best of the edges that leave `i`. */
  method CalcEntry(dags: array<T.Dag>, minWeight: real, i: nat)
    requires Forward(Nexts(dags[..])) && i < dags.Length
    requires Solved(dags[..], Nexts(dags[..]), minWeight, i + 1)
    modifies dags
    ensures SameText(dags[..], old(dags[..]))
    ensures Solved(dags[..], old(Nexts(dags[..])), minWeight, i)
  {
    ghost var g := Nexts(dags[..]);
    dags[i] := dags[i].(pInfo := None, weight := MIN_DOUBLE);
    for k := 0 to |dags[i].nexts|
      invariant SameText(dags[..], old(dags[..]))
      invariant Solved(dags[..], g, minWeight, i + 1)
      invariant Choice(dags[i].pInfo, dags[i].weight) == Relaxed(g, minWeight, i, k)
    {
      assert dags[..][i].nexts == g[i];
      var nextPos := dags[i].nexts[k].nextPos;
      var p := dags[i].nexts[k].unit;
      var val := 0.0;
      if nextPos + 1 < dags.Length {
        assert Choice(dags[..][nextPos + 1].pInfo, dags[..][nextPos + 1].weight) == Best(g, minWeight, nextPos + 1);
        val := val + dags[nextPos + 1].weight;
      }
      if p.Some? {
        val := val + p.value.weight;
      } else {
        val := val + minWeight;
      }
      assert val == EdgeValue(g, minWeight, i, k);
      if val > dags[i].weight {
        dags[i] := dags[i].(pInfo := p, weight := val);
      }
    }
  }

  function Nexts(dags: seq<T.Dag>): (g: Graph)
    ensures |g| == |dags|
    ensures forall i :: 0 <= i < |g| ==> g[i] == dags[i].nexts
  {
    seq(|dags|, i requires 0 <= i < |dags| => dags[i].nexts)
  }

  // ---------------------------------------------------------------- what the table holds

  lemma {:induction false} RelaxedIsMaximum(g: Graph, minWeight: real, i: nat, k: nat)
    requires Forward(g) && i < |g| && k <= |g[i]|
    ensures var c := Relaxed(g, minWeight, i, k);
            && c.weight >= MIN_DOUBLE
            && (forall m :: 0 <= m < k ==> c.weight >= EdgeValue(g, minWeight, i, m))
            && (c.weight > MIN_DOUBLE ==>
                  exists m :: 0 <= m < k && c == Choice(g[i][m].unit, EdgeValue(g, minWeight, i, m)))
            && (c.weight == MIN_DOUBLE ==> c.pInfo == None)
  {
    if k > 0 {
      RelaxedIsMaximum(g, minWeight, i, k - 1);
    }
  }

  /** Edge `m` is the first that attains the weight of the entry. */
  ghost predicate FirstBest(g: Graph, minWeight: real, i: nat, c: Choice, m: int)
    requires Forward(g) && i < |g| && 0 <= m < |g[i]|
  {
    && c == Choice(g[i][m].unit, EdgeValue(g, minWeight, i, m))
    && forall n :: 0 <= n < m ==> EdgeValue(g, minWeight, i, n) < c.weight
  }

  lemma {:induction false} SomeIsFirstBest(g: Graph, minWeight: real, i: nat, k: nat) returns (m: nat)
    requires Forward(g) && i < |g| && k <= |g[i]| && Relaxed(g, minWeight, i, k).weight > MIN_DOUBLE
    ensures m < k && FirstBest(g, minWeight, i, Relaxed(g, minWeight, i, k), m)
  {
    RelaxedIsMaximum(g, minWeight, i, k - 1);
    hide EdgeValue;
    m := k - 1;
    if EdgeValue(g, minWeight, i, k - 1) <= Relaxed(g, minWeight, i, k - 1).weight {
      m := SomeIsFirstBest(g, minWeight, i, k - 1);
    }
  }

  /** The edge that is taken is better than all edges before it. */
  lemma RelaxedTakesFirst(g: Graph, minWeight: real, i: nat, k: nat) returns (m: nat)
    requires Forward(g) && i < |g| && k <= |g[i]| && Relaxed(g, minWeight, i, k).weight > MIN_DOUBLE
    ensures m < k && Relaxed(g, minWeight, i, k) == Choice(g[i][m].unit, EdgeValue(g, minWeight, i, m))
    ensures forall n :: 0 <= n < m ==> EdgeValue(g, minWeight, i, n) < Relaxed(g, minWeight, i, k).weight
  {
    hide EdgeValue, Relaxed;
    m := SomeIsFirstBest(g, minWeight, i, k);
  }

  // ---------------------------------------------------------------- cuts of a text

  /** A word of a cut: one rune, or a dictionary word of at most `maxLen` runes. */
  ghost predicate IsTile(d: Dict, t: seq<Rune>, maxLen: nat, w: WordRange) {
    && w.left <= w.right < |t|
    && (w.left < w.right ==> w.Length() <= maxLen && t[w.left..w.right + 1] in d.words)
  }

  /** The words cover `t` from `i` to its end, in order. */
  ghost predicate Cuts(d: Dict, t: seq<Rune>, maxLen: nat, i: nat, wrs: seq<WordRange>)
    decreases |wrs|
  {
    if wrs == [] then i == |t|
    else wrs[0].left == i && IsTile(d, t, maxLen, wrs[0]) && Cuts(d, t, maxLen, wrs[0].right + 1, wrs[1..])
  }

  /** A single rune that is not in the dictionary costs the least weight in it. */
  function TileWeight(d: Dict, t: seq<Rune>, w: WordRange): real
    requires w.left <= w.right < |t|
  {
    var word := t[w.left..w.right + 1];
    if word in d.words then d.words[word].weight else d.minWeight
  }

  ghost function CutWeight(d: Dict, t: seq<Rune>, maxLen: nat, i: nat, wrs: seq<WordRange>): real
    requires Cuts(d, t, maxLen, i, wrs)
    decreases |wrs|
  {
    if wrs == [] then 0.0
    else TileWeight(d, t, wrs[0]) + CutWeight(d, t, maxLen, wrs[0].right + 1, wrs[1..])
  }

  lemma {:induction false} CutsAreTiles(d: Dict, t: seq<Rune>, maxLen: nat, i: nat, wrs: seq<WordRange>)
    ensures Cuts(d, t, maxLen, i, wrs) <==>
            && (if wrs == [] then i == |t| else wrs[0].left == i && wrs[|wrs| - 1].right == |t| - 1)
            && (forall k :: 0 <= k < |wrs| - 1 ==> wrs[k + 1].left == wrs[k].right + 1)
            && forall k :: 0 <= k < |wrs| ==> IsTile(d, t, maxLen, wrs[k])
    decreases |wrs|
  {
    hide IsTile;
    if wrs != [] {
      var rest := wrs[1..];
      CutsAreTiles(d, t, maxLen, wrs[0].right + 1, rest);
      assert forall k :: 0 <= k < |rest| ==> rest[k] == wrs[k + 1];
      assert forall k :: 1 <= k < |wrs| ==> wrs[k] == rest[k - 1];
      assert |wrs| > 1 ==> wrs[|wrs| - 1] == rest[|rest| - 1];
    }
  }

  /** What a cut is, word by word: from `i` to the end of the text without gap or overlap, each word one rune or a word of the
      dictionary of at most `maxLen` runes. */
  lemma CutsExactly(d: Dict, t: seq<Rune>, maxLen: nat, i: nat, wrs: seq<WordRange>)
    ensures Cuts(d, t, maxLen, i, wrs) <==>
            && (if wrs == [] then i == |t| else wrs[0].left == i && wrs[|wrs| - 1].right == |t| - 1)
            && (forall k :: 0 <= k < |wrs| - 1 ==> wrs[k + 1].left == wrs[k].right + 1)
            && forall k :: 0 <= k < |wrs| ==>
                 && wrs[k].left <= wrs[k].right < |t|
                 && (wrs[k].left == wrs[k].right
                     || (wrs[k].right - wrs[k].left < maxLen && t[wrs[k].left..wrs[k].right + 1] in d.words))
  {
    hide Cuts;
    CutsAreTiles(d, t, maxLen, i, wrs);
  }

  function Total(xs: seq<real>): real {
    if xs == [] then 0.0 else xs[0] + Total(xs[1..])
  }

  /** A cut weighs what its words weigh: a word of the dictionary its own weight, an unknown rune the least one. */
  lemma {:induction false} CutWeightIsTotal(d: Dict, t: seq<Rune>, maxLen: nat, i: nat, wrs: seq<WordRange>, xs: seq<real>)
    requires Cuts(d, t, maxLen, i, wrs) && |xs| == |wrs|
    requires forall k :: 0 <= k < |wrs| ==> wrs[k].left <= wrs[k].right < |t|
    requires forall k :: 0 <= k < |wrs| ==>
               var word := t[wrs[k].left..wrs[k].right + 1];
               xs[k] == if word in d.words then d.words[word].weight else d.minWeight
    ensures CutWeight(d, t, maxLen, i, wrs) == Total(xs)
    decreases |wrs|
  {
    hide IsTile;
    if wrs != [] {
      CutWeightIsTotal(d, t, maxLen, wrs[0].right + 1, wrs[1..], xs[1..]);
    }
  }

  lemma CutsCons(d: Dict, t: seq<Rune>, maxLen: nat, w: WordRange, rest: seq<WordRange>)
    requires IsTile(d, t, maxLen, w) && Cuts(d, t, maxLen, w.right + 1, rest)
    ensures Cuts(d, t, maxLen, w.left, [w] + rest)
    ensures CutWeight(d, t, maxLen, w.left, [w] + rest) == TileWeight(d, t, w) + CutWeight(d, t, maxLen, w.right + 1, rest)
  {
    hide IsTile, TileWeight;
    assert ([w] + rest)[1..] == rest;
  }

  /** A tile is an edge of the word graph that costs as much. */
  lemma TileIsEdge(d: Dict, t: seq<Rune>, maxLen: nat, w: WordRange) returns (k: nat)
    requires IsTile(d, t, maxLen, w)
    ensures var es := T.EdgesAt(d.words, t, w.left, maxLen);
            k < |es| && es[k].nextPos == w.right && Cost(es[k], d.minWeight) == TileWeight(d, t, w)
  {
    var e := T.Edge(w.right, T.Lookup(d.words, t[w.left..w.right + 1]));
    T.EdgesExact(d.words, t, w.left, maxLen);
    assert T.IsEdge(d.words, t, w.left, maxLen, e);
    var es := T.EdgesAt(d.words, t, w.left, maxLen);
    assert e in es;
    k :| 0 <= k < |es| && es[k] == e;
  }

  /** No cut weighs more than the table says. */
  lemma {:induction false} TableIsUpperBound(d: Dict, t: seq<Rune>, maxLen: nat, i: nat, wrs: seq<WordRange>)
    requires i <= |t| && Cuts(d, t, maxLen, i, wrs)
    ensures CutWeight(d, t, maxLen, i, wrs) <= Best(GraphOf(d, t, maxLen), d.minWeight, i).weight
    decreases |wrs|
  {
    if wrs != [] {
      var g := GraphOf(d, t, maxLen);
      var k := TileIsEdge(d, t, maxLen, wrs[0]);
      TableIsUpperBound(d, t, maxLen, wrs[0].right + 1, wrs[1..]);
      RelaxedIsMaximum(g, d.minWeight, i, |g[i]|);
      assert EdgeValue(g, d.minWeight, i, k) <= Best(g, d.minWeight, i).weight;
    }
  }

  /** The range that a table entry for `i` makes `CutByDag` push. */
  function Chosen(c: Choice, i: nat): (w: WordRange)
    requires c.pInfo.Some? ==> i + |c.pInfo.value.word| > 0
    ensures w.left == i
  {
    WordRange(i, i + (if c.pInfo.Some? then |c.pInfo.value.word| else 1) - 1)
  }

  /** The word that a table entry stands for fits the text where it stands. */
  lemma ChoiceFits(d: Dict, t: seq<Rune>, maxLen: nat, i: nat)
    requires Spells(d.words) && i < |t|
    ensures var g := GraphOf(d, t, maxLen);
            var c := Best(g, d.minWeight, i);
            && (c.pInfo.Some? ==> c.pInfo.value.word != [])
            && var w := Chosen(c, i);
            && IsTile(d, t, maxLen, w)
            && (c.weight > MIN_DOUBLE ==> c.weight == Best(g, d.minWeight, w.right + 1).weight + TileWeight(d, t, w))
  {
    var g := GraphOf(d, t, maxLen);
    var c := Best(g, d.minWeight, i);
    RelaxedIsMaximum(g, d.minWeight, i, |g[i]|);
    hide GraphOf, Relaxed, IsTile, TileWeight, Cost, Chosen, Spells;
    if c.weight > MIN_DOUBLE {
      var m :| 0 <= m < |g[i]| && c == Choice(g[i][m].unit, EdgeValue(g, d.minWeight, i, m));
      EdgeFits(d, t, maxLen, i, m, c);
    } else {
      SingleFits(d, t, maxLen, i, c);
    }
  }

  /** An edge is a tile that costs as much, and the unit that it carries makes the cut jump to its end. */
  lemma EdgeFits(d: Dict, t: seq<Rune>, maxLen: nat, i: nat, m: nat, c: Choice)
    requires Spells(d.words) && i < |t| && m < |T.EdgesAt(d.words, t, i, maxLen)|
    requires c.pInfo == T.EdgesAt(d.words, t, i, maxLen)[m].unit
    ensures var e := T.EdgesAt(d.words, t, i, maxLen)[m];
            && (c.pInfo.Some? ==> c.pInfo.value.word != [])
            && Chosen(c, i) == WordRange(i, e.nextPos) && IsTile(d, t, maxLen, Chosen(c, i))
            && Cost(e, d.minWeight) == TileWeight(d, t, Chosen(c, i))
  {
    T.EdgesExact(d.words, t, i, maxLen);
    var e := T.EdgesAt(d.words, t, i, maxLen)[m];
    assert T.IsEdge(d.words, t, i, maxLen, e);
  }

  lemma SingleFits(d: Dict, t: seq<Rune>, maxLen: nat, i: nat, c: Choice)
    requires i < |t| && c.pInfo == None
    ensures Chosen(c, i) == WordRange(i, i) && IsTile(d, t, maxLen, Chosen(c, i))
  {
  }

  /** The cut that the table's choices spell out from position `i` on. */
  function CutFrom(d: Dict, t: seq<Rune>, maxLen: nat, i: nat): seq<WordRange>
    requires Spells(d.words) && i <= |t|
    decreases |t| - i
  {
    if i == |t| then []
    else
      ChoiceFits(d, t, maxLen, i);
      var w := Chosen(Best(GraphOf(d, t, maxLen), d.minWeight, i), i);
      [w] + CutFrom(d, t, maxLen, w.right + 1)
  }

  lemma CutFromHead(d: Dict, t: seq<Rune>, maxLen: nat, i: nat)
    requires Spells(d.words) && i < |t|
    ensures var c := Best(GraphOf(d, t, maxLen), d.minWeight, i);
            && (c.pInfo.Some? ==> c.pInfo.value.word != [])
            && var w := Chosen(c, i);
            && IsTile(d, t, maxLen, w)
            && CutFrom(d, t, maxLen, i) == [w] + CutFrom(d, t, maxLen, w.right + 1)
  {
    hide Best, GraphOf;
    ChoiceFits(d, t, maxLen, i);
  }

  lemma {:induction false} CutFromCuts(d: Dict, t: seq<Rune>, maxLen: nat, i: nat)
    requires Spells(d.words) && i <= |t|
    ensures Cuts(d, t, maxLen, i, CutFrom(d, t, maxLen, i))
    decreases |t| - i
  {
    if i < |t| {
      ChoiceFits(d, t, maxLen, i);
      var right := Chosen(Best(GraphOf(d, t, maxLen), d.minWeight, i), i).right;
      CutFromCuts(d, t, maxLen, right + 1);
    }
  }

  /** No word of the cut starts where the table was clamped. */
  ghost predicate Unclamped(d: Dict, t: seq<Rune>, maxLen: nat, wrs: seq<WordRange>) {
    forall w :: w in wrs ==> w.left <= |t| && IsLive(d, t, maxLen, w.left)
  }

  ghost predicate IsLive(d: Dict, t: seq<Rune>, maxLen: nat, i: nat)
    requires i <= |t|
  {
    Best(GraphOf(d, t, maxLen), d.minWeight, i).weight > MIN_DOUBLE
  }

  lemma {:induction false} CutAttainsTable(d: Dict, t: seq<Rune>, maxLen: nat, i: nat)
    requires Spells(d.words) && i <= |t| && Unclamped(d, t, maxLen, CutFrom(d, t, maxLen, i))
    ensures Cuts(d, t, maxLen, i, CutFrom(d, t, maxLen, i))
    ensures CutWeight(d, t, maxLen, i, CutFrom(d, t, maxLen, i)) == Best(GraphOf(d, t, maxLen), d.minWeight, i).weight
    decreases |t| - i
  {
    hide CutFrom, Best, GraphOf, Cuts, CutWeight, IsTile, Unclamped, IsLive, Spells;
    CutFromCuts(d, t, maxLen, i);
    if i == |t| {
      EmptyCutAttains(d, t, maxLen);
    } else {
      var w, rest := HeadAttains(d, t, maxLen, i);
      CutAttainsTable(d, t, maxLen, w.right + 1);
      CutsCons(d, t, maxLen, w, rest);
    }
  }

  /** The first word of an unclamped cut carries the difference between its two entries. */
  lemma HeadAttains(d: Dict, t: seq<Rune>, maxLen: nat, i: nat) returns (w: WordRange, rest: seq<WordRange>)
    requires Spells(d.words) && i < |t| && Unclamped(d, t, maxLen, CutFrom(d, t, maxLen, i))
    ensures w.left == i <= w.right < |t| && IsTile(d, t, maxLen, w)
    ensures rest == CutFrom(d, t, maxLen, w.right + 1) && CutFrom(d, t, maxLen, i) == [w] + rest
    ensures Unclamped(d, t, maxLen, rest)
    ensures Best(GraphOf(d, t, maxLen), d.minWeight, i).weight ==
            TileWeight(d, t, w) + Best(GraphOf(d, t, maxLen), d.minWeight, w.right + 1).weight
  {
    hide CutFrom, Best, GraphOf, Cuts, CutWeight, Unclamped, IsLive;
    CutFromHead(d, t, maxLen, i);
    ChoiceFits(d, t, maxLen, i);
    w := Chosen(Best(GraphOf(d, t, maxLen), d.minWeight, i), i);
    rest := CutFrom(d, t, maxLen, w.right + 1);
    TailUnclamped(d, t, maxLen, w, rest);
  }

  lemma EmptyCutAttains(d: Dict, t: seq<Rune>, maxLen: nat)
    requires Spells(d.words)
    ensures CutFrom(d, t, maxLen, |t|) == [] && Cuts(d, t, maxLen, |t|, [])
    ensures CutWeight(d, t, maxLen, |t|, []) == Best(GraphOf(d, t, maxLen), d.minWeight, |t|).weight
  {
  }

  lemma TailUnclamped(d: Dict, t: seq<Rune>, maxLen: nat, w: WordRange, rest: seq<WordRange>)
    requires w.left <= |t| && Unclamped(d, t, maxLen, [w] + rest)
    ensures Unclamped(d, t, maxLen, rest)
    ensures Best(GraphOf(d, t, maxLen), d.minWeight, w.left).weight > MIN_DOUBLE
  {
    hide GraphOf, Best;
    assert w in [w] + rest;
  }

  /** `wrs` is a cut of `t` from `i` on and no cut from there weighs more. */
  ghost predicate IsBestCut(d: Dict, t: seq<Rune>, maxLen: nat, i: nat, wrs: seq<WordRange>) {
    && Cuts(d, t, maxLen, i, wrs)
    && forall other :: Cuts(d, t, maxLen, i, other) ==>
         CutWeight(d, t, maxLen, i, other) <= CutWeight(d, t, maxLen, i, wrs)
  }

  /** The entry for `i` is the greatest weight of a cut from `i` on. */
  ghost predicate IsExact(d: Dict, t: seq<Rune>, maxLen: nat, i: nat)
    requires i <= |t|
  {
    exists wrs :: IsBestCut(d, t, maxLen, i, wrs)
      && CutWeight(d, t, maxLen, i, wrs) == Best(GraphOf(d, t, maxLen), d.minWeight, i).weight
  }

  lemma AttainingIsExact(d: Dict, t: seq<Rune>, maxLen: nat, i: nat, wrs: seq<WordRange>)
    requires i <= |t| && Cuts(d, t, maxLen, i, wrs)
    requires CutWeight(d, t, maxLen, i, wrs) == Best(GraphOf(d, t, maxLen), d.minWeight, i).weight
    ensures IsBestCut(d, t, maxLen, i, wrs) && IsExact(d, t, maxLen, i)
  {
    forall other | Cuts(d, t, maxLen, i, other)
      ensures CutWeight(d, t, maxLen, i, other) <= CutWeight(d, t, maxLen, i, wrs)
    {
      TableIsUpperBound(d, t, maxLen, i, other);
    }
  }

  /** Where the clamp does not strike, the cut is one of greatest weight. */
  lemma CutIsBest(d: Dict, t: seq<Rune>, maxLen: nat)
    requires Spells(d.words) && Unclamped(d, t, maxLen, CutFrom(d, t, maxLen, 0))
    ensures IsBestCut(d, t, maxLen, 0, CutFrom(d, t, maxLen, 0))
  {
    CutAttainsTable(d, t, maxLen, 0);
    AttainingIsExact(d, t, maxLen, 0, CutFrom(d, t, maxLen, 0));
  }

  // ---------------------------------------------------------------- when the clamp cannot strike

  /** The cut into single runes. */
  function Singles(i: nat, n: nat): seq<WordRange>
    requires i <= n
    decreases n - i
  {
    if i == n then [] else [WordRange(i, i)] + Singles(i + 1, n)
  }

  /** No word of the dictionary, and no unknown rune, weighs less than `least`. */
  ghost predicate AtLeast(d: Dict, least: real) {
    Spells(d.words) && least <= d.minWeight && forall p :: p in d.words ==> least <= d.words[p].weight
  }

  lemma {:induction false} SinglesCut(d: Dict, t: seq<Rune>, maxLen: nat, i: nat)
    requires i <= |t|
    ensures Cuts(d, t, maxLen, i, Singles(i, |t|)) && |Singles(i, |t|)| == |t| - i
    decreases |t| - i
  {
    if i < |t| {
      SinglesCut(d, t, maxLen, i + 1);
      assert Singles(i, |t|)[1..] == Singles(i + 1, |t|);
    }
  }

  /** A cut has at most as many words as the text has runes, and as many only if it cuts everywhere. */
  lemma {:induction false} CutCounts(d: Dict, t: seq<Rune>, maxLen: nat, i: nat, wrs: seq<WordRange>, least: real)
    requires Cuts(d, t, maxLen, i, wrs) && i <= |t| && AtLeast(d, least)
    ensures |wrs| <= |t| - i
    ensures |wrs| == |t| - i ==> wrs == Singles(i, |t|)
    ensures CutWeight(d, t, maxLen, i, wrs) >= Times(least, |wrs|)
    decreases |wrs|
  {
    hide Times;
    TimesNext(least, 0);
    if wrs != [] {
      CutCounts(d, t, maxLen, wrs[0].right + 1, wrs[1..], least);
      assert TileWeight(d, t, wrs[0]) >= least;
      TimesNext(least, |wrs| - 1);
      assert wrs == [wrs[0]] + wrs[1..];
    }
  }

  /** A bound that a caller can check: if the worst weight, taken once less than there are runes, stays above
      the clamp, the cut is one of greatest weight. */
  lemma ModerateWeightsGiveBestCut(d: Dict, t: seq<Rune>, maxLen: nat, least: real)
    requires AtLeast(d, least) && least <= 0.0 && t != []
    requires Times(least, |t| - 1) > MIN_DOUBLE
    ensures IsBestCut(d, t, maxLen, 0, CutFrom(d, t, maxLen, 0))
  {
    var cut := CutFrom(d, t, maxLen, 0);
    CutFromCuts(d, t, maxLen, 0);
    if IsLive(d, t, maxLen, 0) {
      forall w | w in cut
        ensures w.left <= |t| && IsLive(d, t, maxLen, w.left)
      {
        CutStaysInside(d, t, maxLen, 0, cut, w);
        if w.left > 0 {
          LaterIsLive(d, t, maxLen, w.left, least);
        }
      }
      CutIsBest(d, t, maxLen);
    } else {
      forall other | Cuts(d, t, maxLen, 0, other)
        ensures other == Singles(0, |t|)
      {
        OnlySingles(d, t, maxLen, other, least);
      }
    }
  }

  lemma LaterIsLive(d: Dict, t: seq<Rune>, maxLen: nat, i: nat, least: real)
    requires AtLeast(d, least) && least <= 0.0 && 0 < i <= |t|
    requires Times(least, |t| - 1) > MIN_DOUBLE
    ensures IsLive(d, t, maxLen, i)
  {
    hide Cuts, CutWeight, Best, GraphOf, Times;
    SinglesCut(d, t, maxLen, i);
    CutCounts(d, t, maxLen, i, Singles(i, |t|), least);
    TableIsUpperBound(d, t, maxLen, i, Singles(i, |t|));
    LessOfANegative(least, |t| - i, |t| - 1);
  }

  /** If even the first entry is clamped, no cut can have fewer words than runes. */
  lemma OnlySingles(d: Dict, t: seq<Rune>, maxLen: nat, other: seq<WordRange>, least: real)
    requires AtLeast(d, least) && least <= 0.0 && t != [] && Cuts(d, t, maxLen, 0, other)
    requires Times(least, |t| - 1) > MIN_DOUBLE && !IsLive(d, t, maxLen, 0)
    ensures other == Singles(0, |t|)
  {
    hide Cuts, CutWeight, Best, GraphOf, Times;
    CutCounts(d, t, maxLen, 0, other, least);
    TableIsUpperBound(d, t, maxLen, 0, other);
    if |other| < |t| {
      LessOfANegative(least, |other|, |t| - 1);
    }
  }

  lemma LessOfANegative(x: real, m: nat, n: nat)
    requires x <= 0.0 && m <= n
    ensures Times(x, m) >= Times(x, n)
  {
  }

  lemma {:induction false} CutStaysInside(d: Dict, t: seq<Rune>, maxLen: nat, i: nat, wrs: seq<WordRange>, w: WordRange)
    requires Cuts(d, t, maxLen, i, wrs) && w in wrs
    ensures w.left < |t|
    decreases |wrs|
  {
    if w != wrs[0] {
      CutStaysInside(d, t, maxLen, wrs[0].right + 1, wrs[1..], w);
    }
  }

  /** Some cut from `i` on weighs at least the clamp. */
  ghost predicate ClampReached(d: Dict, t: seq<Rune>, maxLen: nat, i: nat) {
    exists wrs :: Cuts(d, t, maxLen, i, wrs) && CutWeight(d, t, maxLen, i, wrs) >= MIN_DOUBLE
  }

  /** The whole table is exact if and only if no text end is too heavy for the clamp. */
  lemma TableIsExactExactly(d: Dict, t: seq<Rune>, maxLen: nat)
    requires Spells(d.words)
    ensures (forall i :: 0 <= i <= |t| ==> IsExact(d, t, maxLen, i))
       <==> (forall i :: 0 <= i < |t| ==> ClampReached(d, t, maxLen, i))
  {
    if forall i :: 0 <= i <= |t| ==> IsExact(d, t, maxLen, i) {
      forall i | 0 <= i < |t|
        ensures ClampReached(d, t, maxLen, i)
      {
        var g := GraphOf(d, t, maxLen);
        assert IsExact(d, t, maxLen, i);
        RelaxedIsMaximum(g, d.minWeight, i, |g[i]|);
      }
    }
    if forall i :: 0 <= i < |t| ==> ClampReached(d, t, maxLen, i) {
      forall i | 0 <= i <= |t|
        ensures IsExact(d, t, maxLen, i)
      {
        EntryIsExact(d, t, maxLen, i);
      }
    }
  }

  lemma {:induction false} EntryIsExact(d: Dict, t: seq<Rune>, maxLen: nat, i: nat)
    requires Spells(d.words) && i <= |t|
    requires forall j :: i <= j < |t| ==> ClampReached(d, t, maxLen, j)
    ensures IsExact(d, t, maxLen, i)
    decreases |t| - i
  {
    var g := GraphOf(d, t, maxLen);
    if i == |t| {
      AttainingIsExact(d, t, maxLen, i, []);
    } else if Best(g, d.minWeight, i).weight > MIN_DOUBLE {
      hide Best, GraphOf, CutWeight, Cuts;
      ChoiceFits(d, t, maxLen, i);
      var w := Chosen(Best(g, d.minWeight, i), i);
      EntryIsExact(d, t, maxLen, w.right + 1);
      assert IsExact(d, t, maxLen, w.right + 1);
      var rest :| IsBestCut(d, t, maxLen, w.right + 1, rest)
        && CutWeight(d, t, maxLen, w.right + 1, rest) == Best(g, d.minWeight, w.right + 1).weight;
      CutsCons(d, t, maxLen, w, rest);
      AttainingIsExact(d, t, maxLen, i, [w] + rest);
    } else {
      assert ClampReached(d, t, maxLen, i);
      var wrs :| Cuts(d, t, maxLen, i, wrs) && CutWeight(d, t, maxLen, i, wrs) >= MIN_DOUBLE;
      RelaxedIsMaximum(g, d.minWeight, i, |g[i]|);
      TableIsUpperBound(d, t, maxLen, i, wrs);
      AttainingIsExact(d, t, maxLen, i, wrs);
    }
  }

  // ---------------------------------------------------------------- the clamp strikes

  /** One word of two runes, as light as an unknown rune. */
  function PairDict(least: real): Dict {
    Dict(map[[1, 2] := T.DictUnit([1, 2], least, [])], least, {})
  }

  /** The word, and then runes the dictionary does not know. */
  function PairText(n: nat): (t: seq<Rune>)
    requires n >= 2
    ensures |t| == n && t[0] == 1 && forall i :: 0 < i < n ==> t[i] == 2
  {
    [1] + seq(n - 1, _ => 2)
  }

  lemma PairEdge(n: nat, least: real, maxLen: nat, i: nat, e: T.Edge)
    requires 2 <= n && i < n && e in T.EdgesAt(PairDict(least).words, PairText(n), i, maxLen)
    ensures e == T.Edge(i, None) || (i == 0 && e.nextPos == 1 && e.unit.Some? && e.unit.value.weight == least)
  {
    var d, t := PairDict(least), PairText(n);
    T.EdgesExact(d.words, t, i, maxLen);
    assert T.IsEdge(d.words, t, i, maxLen, e);
    var word := t[i..e.nextPos + 1];
    assert |word| == e.nextPos + 1 - i && word[0] == t[i];
  }

  function Clamp(x: real): real {
    if x > MIN_DOUBLE then x else MIN_DOUBLE
  }

  /** Behind the first rune the table counts single runes, down to the clamp. */
  lemma {:induction false} PairTable(n: nat, least: real, maxLen: nat, i: nat)
    requires 2 <= n && 0 < i <= n && least < 0.0
    ensures Best(GraphOf(PairDict(least), PairText(n), maxLen), least, i) == Choice(None, Clamp(Times(least, n - i)))
    decreases n - i
  {
    var g := GraphOf(PairDict(least), PairText(n), maxLen);
    hide Times;
    if i == n {
      TimesNext(least, 0);
    } else {
      PairTable(n, least, maxLen, i + 1);
      TimesNext(least, n - i - 1);
      hide GraphOf, PairDict, PairText;
      RelaxedIsMaximum(g, least, i, |g[i]|);
      forall k | 0 <= k < |g[i]|
        ensures g[i][k] == T.Edge(i, None)
      {
        PairEdge(n, least, maxLen, i, g[i][k]);
      }
      assert g[i][0] == T.Edge(i, None);
      assert EdgeValue(g, least, i, 0) == Clamp(Times(least, n - i - 1)) + least;
    }
  }

  lemma PairClamped(n: nat, least: real, maxLen: nat)
    requires 2 <= n && least < 0.0 && Times(least, n - 1) <= MIN_DOUBLE
    ensures Best(GraphOf(PairDict(least), PairText(n), maxLen), least, 0) == Choice(None, MIN_DOUBLE)
  {
    var g := GraphOf(PairDict(least), PairText(n), maxLen);
    PairTable(n, least, maxLen, 1);
    PairTable(n, least, maxLen, 2);
    TimesNext(least, n - 2);
    hide GraphOf, PairDict, PairText, Times;
    RelaxedIsMaximum(g, least, 0, |g[0]|);
    forall k | 0 <= k < |g[0]|
      ensures EdgeValue(g, least, 0, k) <= MIN_DOUBLE
    {
      PairEdge(n, least, maxLen, 0, g[0][k]);
    }
  }

  lemma {:induction false} PairCut(n: nat, least: real, maxLen: nat, i: nat)
    requires 2 <= n && i <= n && least < 0.0 && Times(least, n - 1) <= MIN_DOUBLE
    ensures Spells(PairDict(least).words)
    ensures CutFrom(PairDict(least), PairText(n), maxLen, i) == Singles(i, n)
    decreases n - i
  {
    if i < n {
      if i == 0 {
        PairClamped(n, least, maxLen);
      } else {
        PairTable(n, least, maxLen, i);
      }
      PairCut(n, least, maxLen, i + 1);
      hide Best, GraphOf, PairText;
      CutFromHead(PairDict(least), PairText(n), maxLen, i);
    }
  }

  lemma {:induction false} PairSinglesWeigh(n: nat, least: real, maxLen: nat, i: nat)
    requires 2 <= n && i <= n
    ensures Cuts(PairDict(least), PairText(n), maxLen, i, Singles(i, n))
    ensures CutWeight(PairDict(least), PairText(n), maxLen, i, Singles(i, n)) == Times(least, n - i)
    decreases n - i
  {
    hide Times;
    TimesNext(least, 0);
    SinglesCut(PairDict(least), PairText(n), maxLen, i);
    if i < n {
      PairSinglesWeigh(n, least, maxLen, i + 1);
      TimesNext(least, n - (i + 1));
      assert Singles(i, n)[1..] == Singles(i + 1, n);
      hide PairText;
      assert |PairText(n)[i..i + 1]| == 1;
    }
  }

  /** Once the bound is reached the cut can be wrong: the word is passed over for two single runes that weigh more
      against it, whatever the length of the text. */
  lemma ClampLosesABetterCut(n: nat, least: real, maxLen: nat)
    requires 2 <= n && 2 <= maxLen && least < 0.0 && Times(least, n - 1) <= MIN_DOUBLE
    ensures AtLeast(PairDict(least), least)
    ensures !IsBestCut(PairDict(least), PairText(n), maxLen, 0, CutFrom(PairDict(least), PairText(n), maxLen, 0))
  {
    var d, t := PairDict(least), PairText(n);
    PairCut(n, least, maxLen, 0);
    PairSinglesWeigh(n, least, maxLen, 0);
    PairSinglesWeigh(n, least, maxLen, 2);
    var word, rest := WordRange(0, 1), Singles(2, n);
    assert t[0..2] == [1, 2];
    hide Cuts, CutWeight, Best, GraphOf, CutFrom, Singles, PairText;
    CutsCons(d, t, maxLen, word, rest);
    hide Times;
    TimesNext(least, n - 2);
    TimesNext(least, n - 1);
  }

  /** Every text of `n` runes is cut best, under every dictionary with weights of at least `least`. */
  ghost predicate AlwaysBest(n: nat, least: real, maxLen: nat) {
    forall d: Dict, t: seq<Rune> :: |t| == n && AtLeast(d, least) ==> IsBestCut(d, t, maxLen, 0, CutFrom(d, t, maxLen, 0))
  }

  /** The bound is exact: it holds if and only if no dictionary within it and no text of that length is cut wrongly. */
  lemma BestCutExactly(n: nat, least: real, maxLen: nat)
    requires 0 < n && 2 <= maxLen && least <= 0.0
    ensures AlwaysBest(n, least, maxLen) <==> least * (n - 1) as real > -3.14e100
  {
    hide IsBestCut, CutFrom;
    assert n == 1 || least == 0.0 ==> Times(least, n - 1) == 0.0;
    hide Times;
    if Times(least, n - 1) > MIN_DOUBLE {
      forall d: Dict, t: seq<Rune> | |t| == n && AtLeast(d, least)
        ensures IsBestCut(d, t, maxLen, 0, CutFrom(d, t, maxLen, 0))
      {
        ModerateWeightsGiveBestCut(d, t, maxLen, least);
      }
    } else {
      ClampLosesABetterCut(n, least, maxLen);
    }
  }

  // ---------------------------------------------------------------- from table to word ranges

  /** A cut of a text that starts at rune `base`. */
  function Shifted(wrs: seq<WordRange>, base: nat): (r: seq<WordRange>)
    ensures |r| == |wrs|
    ensures forall k :: 0 <= k < |r| ==> r[k] == WordRange(base + wrs[k].left, base + wrs[k].right)
  {
    seq(|wrs|, k requires 0 <= k < |wrs| => WordRange(base + wrs[k].left, base + wrs[k].right))
  }

  lemma ShiftedCons(w: WordRange, rest: seq<WordRange>, base: nat)
    ensures Shifted([w] + rest, base) == [WordRange(base + w.left, base + w.right)] + Shifted(rest, base)
  {
  }

  /** What maximum-probability segmentation makes of the runes `[begin, end)`. */
  function MpCut(d: Dict, text: seq<Rune>, begin: nat, end: nat, maxLen: nat): seq<WordRange>
    requires Spells(d.words) && begin <= end <= |text|
  {
    Shifted(CutFrom(d, text[begin..end], maxLen, 0), begin)
  }

  lemma NothingTiles(i: nat, base: nat)
    ensures Tiles(Shifted([], base), i, i)
  {
  }

  lemma TileIsOrdered(d: Dict, t: seq<Rune>, maxLen: nat, w: WordRange)
    requires IsTile(d, t, maxLen, w)
    ensures w.left <= w.right < |t|
  {
  }

  lemma {:induction false} CutsTile(d: Dict, t: seq<Rune>, maxLen: nat, i: nat, wrs: seq<WordRange>, base: nat)
    requires Cuts(d, t, maxLen, i, wrs)
    ensures Tiles(Shifted(wrs, base), base + i, base + |t|)
    decreases |wrs|
  {
    hide Shifted, Tiles, IsTile;
    if wrs == [] {
      NothingTiles(base + i, base);
    } else {
      CutsTile(d, t, maxLen, wrs[0].right + 1, wrs[1..], base);
      TileIsOrdered(d, t, maxLen, wrs[0]);
      assert wrs == [wrs[0]] + wrs[1..];
      ShiftedCons(wrs[0], wrs[1..], base);
      var w := WordRange(base + wrs[0].left, base + wrs[0].right);
      TilesCons(w, Shifted(wrs[1..], base), base + |t|);
    }
  }

  lemma MpCutTiles(d: Dict, text: seq<Rune>, begin: nat, end: nat, maxLen: nat)
    requires Spells(d.words) && begin <= end <= |text|
    ensures Tiles(MpCut(d, text, begin, end, maxLen), begin, end)
  {
    hide CutFrom, Cuts, Shifted, Tiles, Spells;
    var t := text[begin..end];
    CutFromCuts(d, t, maxLen, 0);
    CutsTile(d, t, maxLen, 0, CutFrom(d, t, maxLen, 0), begin);
  }

  /** Under the bound of `BestCutExactly`, `n + 1` runes are cut into the words of a cut of greatest weight, moved to where the
      range starts. */
  lemma MpCutIsBest(d: Dict, text: seq<Rune>, begin: nat, end: nat, maxLen: nat, least: real, n: nat)
    requires AtLeast(d, least) && begin + n + 1 == end <= |text| && least <= 0.0 && least * n as real > -3.14e100
    ensures exists wrs: seq<WordRange> ::
              && IsBestCut(d, text[begin..end], maxLen, 0, wrs)
              && |MpCut(d, text, begin, end, maxLen)| == |wrs|
              && forall k :: 0 <= k < |wrs| ==>
                   MpCut(d, text, begin, end, maxLen)[k] == WordRange(begin + wrs[k].left, begin + wrs[k].right)
  {
    assert Times(least, n) > MIN_DOUBLE;
    hide IsBestCut, CutFrom, Times;
    var t := text[begin..end];
    assert |t| - 1 == n;
    ModerateWeightsGiveBestCut(d, t, maxLen, least);
    assert IsBestCut(d, text[begin..end], maxLen, 0, CutFrom(d, text[begin..end], maxLen, 0));
  }

  lemma CutFromEnd(d: Dict, t: seq<Rune>, maxLen: nat, base: nat)
    requires Spells(d.words)
    ensures Shifted(CutFrom(d, t, maxLen, |t|), base) == []
  {
  }

  class MPSegment {
    const dictTrie: DictTrie

    constructor (dictTrie: DictTrie)
      ensures this.dictTrie == dictTrie
    {
      this.dictTrie := dictTrie;
    }

    method CutByDag(begin: nat, dags: array<T.Dag>, words: seq<WordRange>, ghost d: Dict, ghost t: seq<Rune>, ghost maxLen: nat)
      returns (res: seq<WordRange>)
      requires Spells(d.words) && dags.Length == |t|
      requires Solved(dags[..], GraphOf(d, t, maxLen), d.minWeight, 0)
      ensures res == words + Shifted(CutFrom(d, t, maxLen, 0), begin)
    {
      hide Best, GraphOf, Shifted, IsTile, CutFrom;
      res := words;
      var i := 0;
      while i < dags.Length
        invariant 0 <= i <= dags.Length
        invariant res + Shifted(CutFrom(d, t, maxLen, i), begin) == words + Shifted(CutFrom(d, t, maxLen, 0), begin)
      {
        CutFromHead(d, t, maxLen, i);
        ghost var c := Best(GraphOf(d, t, maxLen), d.minWeight, i);
        ghost var w := Chosen(c, i);
        assert Choice(dags[..][i].pInfo, dags[..][i].weight) == c;
        var p := dags[i].pInfo;
        TileIsOrdered(d, t, maxLen, w);
        ShiftedCons(w, CutFrom(d, t, maxLen, w.right + 1), begin);
        if p.Some? {
          res := res + [WordRange(begin + i, begin + i + |p.value.word| - 1)];
          i := i + |p.value.word|;
        } else {
          res := res + [WordRange(begin + i, begin + i)];
          i := i + 1;
        }
      }
      CutFromEnd(d, t, maxLen, begin);
      assert res + [] == res;
    }

    method Cut(runes: seq<RuneStr>, begin: nat, end: nat, words: seq<WordRange>, maxLen: nat)
      returns (res: seq<WordRange>)
      requires dictTrie.Valid() && begin <= end <= |runes|
      ensures res == words + MpCut(dictTrie.View(), RunesOf(runes), begin, end, maxLen)
    {
      ghost var d, t := dictTrie.View(), RunesOf(runes)[begin..end];
      var dags := dictTrie.trie.FindDag(runes, begin, end, maxLen);
      assert Nexts(dags[..]) == GraphOf(d, t, maxLen);
      CalcDP(dags, dictTrie.minWeight);
      res := CutByDag(begin, dags, words, d, t, maxLen);
    }

    predicate IsUserDictSingleChineseWord(value: Rune) {
      dictTrie.IsUserDictSingleChineseWord(value)
    }
  }
}
