/** Boost_Searcher/cppjieba/Trie.hpp: a heap trie over runes, refining the finite map from
    words to dictionary units, and the edges of the word graph read off it. */
module Trie {
  import opened Wrappers
  import opened Unicode

  datatype DictUnit = DictUnit(word: seq<Rune>, weight: real, tag: seq<Byte>)

  /** `Edge(j, u)` leaving position `i` covers `[i, j]`; no unit is the source's NULL pointer. */
  datatype Edge = Edge(nextPos: nat, unit: Option<DictUnit>)

  datatype Dag = Dag(runestr: RuneStr, nexts: seq<Edge>, pInfo: Option<DictUnit>, weight: real)

  type Dictionary = map<seq<Rune>, DictUnit>

  function Lookup(d: Dictionary, word: seq<Rune>): Option<DictUnit> {
    if word in d then Some(d[word]) else None
  }

  // ---------------------------------------------------------------- the word graph

  /** The edges that leave `i` and end at `j` or later: one for each dictionary word. */
  function LongerEdges(d: Dictionary, t: seq<Rune>, i: nat, j: nat, maxLen: nat): seq<Edge>
    requires i < j
    decreases |t| - j
  {
    if j >= |t| || j - i + 1 > maxLen then []
    else
      (if t[i..j + 1] in d then [Edge(j, Some(d[t[i..j + 1]]))] else [])
      + LongerEdges(d, t, i, j + 1, maxLen)
  }

  function EdgesAt(d: Dictionary, t: seq<Rune>, i: nat, maxLen: nat): seq<Edge>
    requires i < |t|
  {
    [Edge(i, Lookup(d, t[i..i + 1]))] + LongerEdges(d, t, i, i + 1, maxLen)
  }

  lemma LongerEdgesEnd(d: Dictionary, t: seq<Rune>, i: nat, j: nat, maxLen: nat)
    requires i < j && (j >= |t| || j - i + 1 > maxLen)
    ensures LongerEdges(d, t, i, j, maxLen) == []
  {
  }

  /** One round of the search for longer words: an edge for the word that ends at `j`, if there is one. */
  lemma EdgeAdded(d: Dictionary, t: seq<Rune>, i: nat, j: nat, maxLen: nat, nexts: seq<Edge>, unit: Option<DictUnit>)
    requires i < j < |t| && j - i + 1 <= maxLen && unit == Lookup(d, t[i..j + 1])
    ensures (if unit != None then nexts + [Edge(j, unit)] else nexts) + LongerEdges(d, t, i, j + 1, maxLen)
            == nexts + LongerEdges(d, t, i, j, maxLen)
  {
    var rest := LongerEdges(d, t, i, j + 1, maxLen);
    assert [] + rest == rest;
    assert unit != None ==> (nexts + [Edge(j, unit)]) + rest == nexts + ([Edge(j, unit)] + rest);
  }

  /** The edges at `i` that the graph should have, said without an order of enumeration. */
  ghost predicate IsEdge(d: Dictionary, t: seq<Rune>, i: nat, maxLen: nat, e: Edge) {
    && i <= e.nextPos < |t|
    && e.unit == Lookup(d, t[i..e.nextPos + 1])
    && (i < e.nextPos ==> e.unit.Some? && e.nextPos - i + 1 <= maxLen)
  }

  lemma {:induction false} LongerEdgesExact(d: Dictionary, t: seq<Rune>, i: nat, j: nat, maxLen: nat, e: Edge)
    requires i < j
    ensures e in LongerEdges(d, t, i, j, maxLen) <==> IsEdge(d, t, i, maxLen, e) && j <= e.nextPos
    decreases |t| - j
  {
    if j < |t| && j - i + 1 <= maxLen {
      LongerEdgesExact(d, t, i, j + 1, maxLen, e);
    }
  }

  ghost predicate Increasing(es: seq<Edge>, from: nat) {
    && (forall a :: 0 <= a < |es| ==> from <= es[a].nextPos)
    && forall a, b :: 0 <= a < b < |es| ==> es[a].nextPos < es[b].nextPos
  }

  lemma {:induction false} LongerEdgesIncrease(d: Dictionary, t: seq<Rune>, i: nat, j: nat, maxLen: nat)
    requires i < j
    ensures Increasing(LongerEdges(d, t, i, j, maxLen), j)
    decreases |t| - j
  {
    if j < |t| && j - i + 1 <= maxLen {
      LongerEdgesIncrease(d, t, i, j + 1, maxLen);
      var rest := LongerEdges(d, t, i, j + 1, maxLen);
      IncreasingCons(Edge(j, Lookup(d, t[i..j + 1])), rest);
      assert [] + rest == rest;
    }
  }

  lemma IncreasingCons(e: Edge, rest: seq<Edge>)
    requires Increasing(rest, e.nextPos + 1)
    ensures Increasing([e] + rest, e.nextPos) && Increasing(rest, e.nextPos)
  {
  }

  /** The edges at `i` are the single rune and the longer dictionary words of at most `maxLen`
      runes that start there: all of them, nothing else, shortest first and none twice. */
  lemma EdgesExact(d: Dictionary, t: seq<Rune>, i: nat, maxLen: nat)
    requires i < |t|
    ensures var es := EdgesAt(d, t, i, maxLen);
            && (forall e :: e in es <==> IsEdge(d, t, i, maxLen, e))
            && es[0].nextPos == i
            && Increasing(es, i)
  {
    var longer := LongerEdges(d, t, i, i + 1, maxLen);
    LongerEdgesIncrease(d, t, i, i + 1, maxLen);
    forall e
      ensures e in EdgesAt(d, t, i, maxLen) <==> IsEdge(d, t, i, maxLen, e)
    {
      LongerEdgesExact(d, t, i, i + 1, maxLen, e);
      assert e in EdgesAt(d, t, i, maxLen) <==> e == Edge(i, Lookup(d, t[i..i + 1])) || e in longer;
    }
  }

  /** In words: an edge leads from `i` to `j` for the rune at `i` alone, whether the dictionary knows it or not, and for every
      longer word of the dictionary; it carries what the dictionary has for these runes. Edges stand shortest first. */
  lemma EdgesAreWords(d: Dictionary, t: seq<Rune>, i: nat, maxLen: nat, j: nat, unit: Option<DictUnit>)
    requires i < |t|
    ensures Edge(j, unit) in EdgesAt(d, t, i, maxLen) <==>
            && i <= j < |t|
            && (i < j ==> j - i < maxLen && t[i..j + 1] in d)
            && (t[i..j + 1] in d ==> unit == Some(d[t[i..j + 1]]))
            && (t[i..j + 1] !in d ==> unit == None)
    ensures var es := EdgesAt(d, t, i, maxLen); forall a, b :: 0 <= a < b < |es| ==> es[a].nextPos < es[b].nextPos
  {
    EdgesExact(d, t, i, maxLen);
  }

  // ---------------------------------------------------------------- insertion

  /** What a sequence of insertions leaves in the dictionary. */
  function InsertAll(keys: seq<seq<Rune>>, units: seq<DictUnit>): Dictionary
    requires |keys| == |units|
  {
    if keys == [] then map[]
    else
      var n := |keys| - 1;
      Insert(InsertAll(keys[..n], units[..n]), keys[n], units[n])
  }

  lemma InsertAllNext(keys: seq<seq<Rune>>, units: seq<DictUnit>, i: nat)
    requires |keys| == |units| && i < |keys|
    ensures InsertAll(keys[..i + 1], units[..i + 1]) == Insert(InsertAll(keys[..i], units[..i]), keys[i], units[i])
  {
    assert keys[..i + 1][..i] == keys[..i] && units[..i + 1][..i] == units[..i];
  }

  /** The empty key is ignored. */
  function Insert(d: Dictionary, key: seq<Rune>, unit: DictUnit): Dictionary {
    if key == [] then d else d[key := unit]
  }

  /** The position of the last insertion under `key`. */
  ghost predicate LastInserted(keys: seq<seq<Rune>>, key: seq<Rune>, k: nat) {
    k < |keys| && keys[k] == key && forall j :: k < j < |keys| ==> keys[j] != key
  }

  lemma {:induction false} InsertAllKeepsLast(keys: seq<seq<Rune>>, units: seq<DictUnit>, key: seq<Rune>)
    requires |keys| == |units|
    ensures key in InsertAll(keys, units) <==> key != [] && key in keys
    ensures forall k: nat :: key != [] && LastInserted(keys, key, k) ==> InsertAll(keys, units)[key] == units[k]
  {
    if keys != [] {
      var n := |keys| - 1;
      InsertAllKeepsLast(keys[..n], units[..n], key);
      assert keys == keys[..n] + [keys[n]];
      forall k: nat | key != [] && LastInserted(keys, key, k)
        ensures InsertAll(keys, units)[key] == units[k]
      {
        if k < n {
          assert keys[n] != key;
          assert forall j :: 0 <= j < n ==> keys[..n][j] == keys[j];
          assert LastInserted(keys[..n], key, k);
          assert units[..n][k] == units[k];
        }
      }
    }
  }

  /** A key has the value of its last insertion. */
  lemma LastInsertionWins(keys: seq<seq<Rune>>, units: seq<DictUnit>, k: nat)
    requires |keys| == |units| && k < |keys| && keys[k] != []
    requires forall j :: k < j < |keys| ==> keys[j] != keys[k]
    ensures keys[k] in InsertAll(keys, units) && InsertAll(keys, units)[keys[k]] == units[k]
  {
    InsertAllKeepsLast(keys, units, keys[k]);
    assert LastInserted(keys, keys[k], k);
  }

  lemma SliceSnoc<T>(t: seq<T>, i: nat, j: nat)
    requires i <= j < |t|
    ensures t[i..j + 1] == t[i..j] + [t[j]]
  {
  }

  // ---------------------------------------------------------------- the heap trie

  /** An empty `next` stands for the source's NULL as well: the map is allocated on first use.
      The ghost `path` is where the node hangs. */
  class TrieNode {
    var next: map<Rune, TrieNode>
    var ptValue: Option<DictUnit>
    ghost const path: seq<Rune>

    constructor (ghost path: seq<Rune>)
      ensures next == map[] && ptValue == None && this.path == path
    {
      next, ptValue := map[], None;
      this.path := path;
    }
  }

  class Trie {
    const root: TrieNode
    /** The node at the end of every path from the root. */
    ghost var nodes: map<seq<Rune>, TrieNode>
    ghost var repr: set<TrieNode>
    /** The abstract value: the words at whose end a unit is stored. */
    ghost var contents: Dictionary

    /** The nodes form a tree whose edges spell the paths. */
    ghost predicate Shape()
      reads this`nodes, this`repr, repr`next
    {
      && [] in nodes && nodes[[]] == root
      && (forall p :: p in nodes ==> nodes[p] in repr && nodes[p].path == p)
      && (forall p, c {:trigger Descends(p, c)} :: p in nodes && c in nodes[p].next ==> Descends(p, c))
      && (forall p {:trigger HasParent(p)} :: p in nodes && p != [] ==> HasParent(p))
    }

    ghost predicate Descends(p: seq<Rune>, c: Rune)
      requires p in nodes && nodes[p] in repr && c in nodes[p].next
      reads this`nodes, this`repr, repr`next
    {
      p + [c] in nodes && nodes[p + [c]] == nodes[p].next[c]
    }

    ghost predicate HasParent(p: seq<Rune>)
      requires p != []
      reads this`nodes, this`repr, repr`next
    {
      var q := p[..|p| - 1];
      q in nodes && nodes[q] in repr && p[|p| - 1] in nodes[q].next
    }

    /** Every word is stored at the end of its path, and nothing else is stored. */
    ghost predicate Valid()
      reads this, repr
    {
      && Shape()
      && [] !in contents
      && (forall p :: p in nodes ==> nodes[p].ptValue == Lookup(contents, p))
      && (forall p :: p in contents ==> p in nodes)
    }

    constructor ()
      ensures Valid() && fresh(repr)
      ensures contents == map[]
    {
      root := new TrieNode([]);
      nodes, contents, repr := map[[] := root], map[], {root};
    }

    /** A child exists for `c` exactly when the longer path does. */
    lemma ChildIffPath(p: seq<Rune>, c: Rune)
      requires Valid() && p in nodes
      ensures c in nodes[p].next <==> p + [c] in nodes
    {
      if c in nodes[p].next {
        assert Descends(p, c);
      }
      if p + [c] in nodes {
        assert HasParent(p + [c]);
        assert (p + [c])[..|p|] == p;
      }
    }

    lemma {:induction false} PrefixClosed(p: seq<Rune>, k: nat)
      requires Valid() && p in nodes && k <= |p|
      ensures p[..k] in nodes
      decreases |p| - k
    {
      if k < |p| {
        PrefixClosed(p, k + 1);
        assert HasParent(p[..k + 1]);
        assert p[..k + 1][..k] == p[..k];
      } else {
        assert p[..k] == p;
      }
    }

    lemma NoWordBeyond(t: seq<Rune>, k: nat)
      requires Valid() && k <= |t| && t[..k] !in nodes
      ensures t !in contents
    {
      if t in nodes {
        PrefixClosed(t, k);
      }
    }

    /** What hanging a fresh node at path `pc` does to the heap. */
    twostate predicate Hung(pc: seq<Rune>)
      reads this`nodes, this`repr, repr`next
    {
      && old(Shape()) && pc != [] && pc !in old(nodes) && pc in nodes
      && var p, c := pc[..|pc| - 1], pc[|pc| - 1];
      && p in old(nodes)
      && var ptNode, nextNode := old(nodes[p]), nodes[pc];
      && nextNode !in old(repr) && nextNode.path == pc
      && nodes == old(nodes)[pc := nextNode] && repr == old(repr) + {nextNode}
      && nextNode.next == map[] && ptNode.next == old(ptNode.next)[c := nextNode]
      && forall n :: n in old(repr) && n != ptNode ==> n.next == old(n.next)
    }

    twostate lemma ShapeKept(pc: seq<Rune>)
      requires Hung(pc)
      ensures Shape()
    {
      var p, c := pc[..|pc| - 1], pc[|pc| - 1];
      assert p + [c] == pc;
      forall q, x | q in nodes && x in nodes[q].next
        ensures Descends(q, x)
      {
        if q == p && x == c {
        } else if q != pc {
          assert old(Descends(q, x));
        }
      }
      forall q | q in nodes && q != []
        ensures HasParent(q)
      {
        if q != pc {
          assert old(HasParent(q));
        }
      }
    }

    /** Hangs a fresh node under path `p`. */
    method AddChild(ptNode: TrieNode, ghost p: seq<Rune>, c: Rune, nextNode: TrieNode)
      requires Valid() && p in nodes && nodes[p] == ptNode && p + [c] !in nodes
      requires nextNode !in repr && nextNode.next == map[] && nextNode.ptValue == None
      requires nextNode.path == p + [c]
      modifies this`nodes, this`repr, ptNode`next
      ensures Valid() && nodes == old(nodes)[p + [c] := nextNode] && repr == old(repr) + {nextNode}
    {
      ChildIffPath(p, c);
      ptNode.next := ptNode.next[c := nextNode];
      nodes, repr := nodes[p + [c] := nextNode], repr + {nextNode};
      assert (p + [c])[..|p|] == p;
      ShapeKept(p + [c]);
    }

    ghost function NodeAt(p: seq<Rune>): TrieNode?
      reads this`nodes
    {
      if p in nodes then nodes[p] else null
    }

    /** Follows one rune down the trie. */
    method Step(ptNode: TrieNode, ghost p: seq<Rune>, c: Rune) returns (r: TrieNode?)
      requires Valid() && p in nodes && nodes[p] == ptNode
      ensures r == if p + [c] in nodes then nodes[p + [c]] else null
      ensures Lookup(contents, p + [c]) == if r == null then None else r.ptValue
    {
      ChildIffPath(p, c);
      if c in ptNode.next {
        assert Descends(p, c);
        return ptNode.next[c];
      }
      return null;
    }

    /** Follows one rune down the trie, hanging a new node there if there is none. */
    method StepOrAdd(ptNode: TrieNode, ghost p: seq<Rune>, c: Rune) returns (child: TrieNode)
      requires Valid() && NodeAt(p) == ptNode
      modifies this`nodes, this`repr, ptNode`next
      ensures Valid() && NodeAt(p + [c]) == child && contents == old(contents)
      ensures old(repr) <= repr && fresh(repr - old(repr))
    {
      hide Valid, Shape;
      var found: TrieNode? := Step(ptNode, p, c);
      if found == null {
        child := new TrieNode(p + [c]);
        AddChild(ptNode, p, c, child);
      } else {
        child := found;
      }
    }

    method InsertNode(key: seq<Rune>, unit: DictUnit)
      requires Valid()
      modifies this, repr
      ensures Valid() && fresh(repr - old(repr))
      ensures contents == Insert(old(contents), key, unit)
    {
      if key == [] {
        return;
      }
      hide Valid, Shape;
      EmptyPath();
      var ptNode := root;
      var k := 0;
      assert key[..0] == [];
      while k < |key|
        invariant 0 <= k <= |key|
        invariant Valid() && old(repr) <= repr && fresh(repr - old(repr))
        invariant NodeAt(key[..k]) == ptNode && contents == old(contents)
      {
        SliceSnoc(key, 0, k);
        NodeIsOwned(key[..k]);
        ptNode := StepOrAdd(ptNode, key[..k], key[k]);
        k := k + 1;
      }
      assert key[..k] == key;
      NodeIsOwned(key);
      SetValue(ptNode, key, unit);
    }

    lemma NodeIsOwned(p: seq<Rune>)
      requires Valid() && NodeAt(p) != null
      ensures NodeAt(p) in repr
    {
    }

    lemma EmptyPath()
      requires Valid()
      ensures [] in nodes && nodes[[]] == root
    {
    }

    method SetValue(ptNode: TrieNode, ghost p: seq<Rune>, unit: DictUnit)
      requires Valid() && p != [] && NodeAt(p) == ptNode
      modifies ptNode, this`contents
      ensures Valid() && contents == old(contents)[p := unit]
    {
      ptNode.ptValue := Some(unit);
      contents := contents[p := unit];
    }

    /** The source's constructor from parallel vectors of keys and values; nothing is inserted if one of them is empty. */
    constructor Create(keys: seq<seq<Rune>>, units: seq<DictUnit>)
      requires |keys| == |units| || keys == [] || units == []
      ensures Valid() && fresh(repr)
      ensures contents == if keys == [] || units == [] then map[] else InsertAll(keys, units)
    {
      root := new TrieNode([]);
      nodes, contents, repr := map[[] := root], map[], {root};
      new;
      if keys == [] || units == [] {
        return;
      }
      for i := 0 to |keys|
        invariant Valid() && fresh(repr)
        invariant contents == InsertAll(keys[..i], units[..i])
      {
        hide Valid, Shape, InsertAll, Insert;
        InsertNode(keys[i], units[i]);
        InsertAllNext(keys, units, i);
      }
      assert keys[..|keys|] == keys && units[..|units|] == units;
    }

    /** Exact search for the runes `[begin, end)`. */
    method Find(runes: seq<RuneStr>, begin: nat, end: nat) returns (r: Option<DictUnit>)
      requires Valid() && begin <= end <= |runes|
      ensures r == Lookup(contents, RunesOf(runes)[begin..end])
    {
      if begin == end {
        return None;
      }
      ghost var word := RunesOf(runes)[begin..end];
      var ptNode := root;
      assert word[..0] == [];
      for it := begin to end
        invariant word[..it - begin] in nodes && nodes[word[..it - begin]] == ptNode
      {
        ghost var k := it - begin;
        assert runes[it].rune == word[k];
        assert word[..k + 1] == word[..k] + [word[k]];
        ChildIffPath(word[..k], word[k]);
        if runes[it].rune !in ptNode.next {
          NoWordBeyond(word, k + 1);
          return None;
        }
        assert Descends(word[..k], word[k]);
        ptNode := ptNode.next[runes[it].rune];
      }
      assert word[..end - begin] == word;
      r := ptNode.ptValue;
    }

    lemma {:induction false} NoEdgesBeyond(t: seq<Rune>, i: nat, j: nat, maxLen: nat)
      requires Valid() && i < j <= |t| && t[i..j] !in nodes
      ensures LongerEdges(contents, t, i, j, maxLen) == []
      decreases |t| - j
    {
      if j < |t| && j - i + 1 <= maxLen {
        var longer := t[i..j + 1];
        assert longer[..j - i] == t[i..j];
        NoWordBeyond(longer, j - i);
        if longer in nodes {
          PrefixClosed(longer, j - i);
        }
        NoEdgesBeyond(t, i, j + 1, maxLen);
      }
    }

    /** The longer edges that leave position `i`, from the node of the single rune there. */
    method LongerNexts(runes: seq<RuneStr>, begin: nat, end: nat, i: nat, maxLen: nat, first: TrieNode?) returns (nexts: seq<Edge>)
      requires Valid() && begin <= end <= |runes| && i < end - begin
      requires first == NodeAt(RunesOf(runes)[begin..end][i..i + 1])
      ensures nexts == LongerEdges(contents, RunesOf(runes)[begin..end], i, i + 1, maxLen)
    {
      hide Valid, Shape, LongerEdges, Lookup;
      ghost var t := RunesOf(runes)[begin..end];
      ghost var goal := LongerEdges(contents, t, i, i + 1, maxLen);
      nexts := [];
      var ptNode := first;
      var j := i + 1;
      assert [] + goal == goal;
      while j < end - begin && j - i + 1 <= maxLen
        invariant i < j <= |t| && ptNode == NodeAt(t[i..j])
        invariant nexts + LongerEdges(contents, t, i, j, maxLen) == goal
      {
        if ptNode == null {
          break;
        }
        ghost var from := nexts;
        SliceSnoc(t, i, j);
        ptNode := Step(ptNode, t[i..j], runes[begin + j].rune);
        if ptNode != null && ptNode.ptValue != None {
          nexts := nexts + [Edge(j, ptNode.ptValue)];
        }
        EdgeAdded(contents, t, i, j, maxLen, from, if ptNode == null then None else ptNode.ptValue);
        j := j + 1;
      }
      if ptNode == null {
        NoEdgesBeyond(t, i, j, maxLen);
      } else {
        LongerEdgesEnd(contents, t, i, j, maxLen);
      }
      assert nexts + [] == nexts;
    }

    /** The edges that leave position `i` of the range that starts at `begin`. */
    method NextsAt(runes: seq<RuneStr>, begin: nat, end: nat, i: nat, maxLen: nat) returns (nexts: seq<Edge>)
      requires Valid() && begin <= end <= |runes| && i < end - begin
      ensures nexts == EdgesAt(contents, RunesOf(runes)[begin..end], i, maxLen)
    {
      ghost var t := RunesOf(runes)[begin..end];
      assert t[i..i + 1] == [] + [runes[begin + i].rune];
      EmptyPath();
      var ptNode: TrieNode? := Step(root, [], runes[begin + i].rune);
      if ptNode != null {
        nexts := [Edge(i, ptNode.ptValue)];
      } else {
        nexts := [Edge(i, None)];
      }
      var longer := LongerNexts(runes, begin, end, i, maxLen, ptNode);
      nexts := nexts + longer;
    }

    /** The word graph of the runes `[begin, end)`. */
    method FindDag(runes: seq<RuneStr>, begin: nat, end: nat, maxLen: nat) returns (res: array<Dag>)
      requires Valid() && begin <= end <= |runes|
      ensures fresh(res) && res.Length == end - begin
      ensures forall i :: 0 <= i < res.Length ==>
                res[i].nexts == EdgesAt(contents, RunesOf(runes)[begin..end], i, maxLen)
      ensures forall i :: 0 <= i < res.Length ==> res[i].runestr == runes[begin + i]
    {
      hide Valid, Shape, EdgesAt;
      res := new Dag[end - begin];
      for i := 0 to end - begin
        invariant forall k :: 0 <= k < i ==>
                    res[k].nexts == EdgesAt(contents, RunesOf(runes)[begin..end], k, maxLen)
        invariant forall k :: 0 <= k < i ==> res[k].runestr == runes[begin + k]
      {
        var nexts := NextsAt(runes, begin, end, i, maxLen);
        res[i] := Dag(runes[begin + i], nexts, None, 0.0);
      }
    }
  }
}
