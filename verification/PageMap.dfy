/** ConcurrentMemoryPool/PageMap.h: three radix trees from page numbers to pointers, refining the same map. */
module PageMap {

  /** A pointer is a number; 0 is the source's NULL. Page numbers are 64-bit. */
  type Ptr = nat
  const NULL: Ptr := 0
  const WORD_BITS: nat := 64
  const WORD: nat := 0x1_0000_0000_0000_0000
  type Number = k: nat | k < 0x1_0000_0000_0000_0000

  /** The map that all three trees represent: NULL where nothing was set. */
  function Image(m: map<nat, Ptr>, k: nat): Ptr {
    if k in m then m[k] else NULL
  }

  // ---------------------------------------------------------------- bits

  function Pow2(n: nat): (p: nat)
    ensures p > 0
  {
    if n == 0 then 1 else 2 * Pow2(n - 1)
  }

  /** `k >> n` */
  function Shr(k: nat, n: nat): nat
    decreases n
  {
    if n == 0 then k else Shr(k / 2, n - 1)
  }

  /** `k << n`, without loss of bits. */
  function Shl(k: nat, n: nat): nat {
    if n == 0 then k else 2 * Shl(k, n - 1)
  }

  /** `k & (2^n - 1)` */
  function Low(k: nat, n: nat): (r: nat)
    ensures r < Pow2(n)
    decreases n
  {
    if n == 0 then 0 else k % 2 + 2 * Low(k / 2, n - 1)
  }

  lemma {:induction false} ShrBound(k: nat, a: nat, b: nat)
    ensures Shr(k, a) < Pow2(b) <==> k < Pow2(a + b)
    decreases a
  {
    if a > 0 {
      ShrBound(k / 2, a - 1, b);
    }
  }

  lemma {:induction false} ShrShr(k: nat, a: nat, b: nat)
    ensures Shr(Shr(k, a), b) == Shr(k, a + b)
    decreases a
  {
    if a > 0 {
      ShrShr(k / 2, a - 1, b);
    }
  }

  /** A number is determined by its low bits and the rest. */
  lemma {:induction false} HighAndLow(k: nat, k': nat, n: nat)
    requires Shr(k, n) == Shr(k', n) && Low(k, n) == Low(k', n)
    ensures k == k'
    decreases n
  {
    if n > 0 {
      HighAndLow(k / 2, k' / 2, n - 1);
    }
  }

  lemma {:induction false} ShrInterval(k: nat, q: nat, n: nat)
    ensures Shr(k, n) == q <==> Shl(q, n) <= k < Shl(q + 1, n)
    decreases n
  {
    if n > 0 {
      ShrInterval(k / 2, q, n - 1);
    }
  }

  lemma {:induction false} ShrMonotone(k: nat, k': nat, n: nat)
    requires k <= k'
    ensures Shr(k, n) <= Shr(k', n)
    decreases n
  {
    if n > 0 {
      ShrMonotone(k / 2, k' / 2, n - 1);
    }
  }

  lemma {:induction false} ShlGrows(q: nat, n: nat)
    ensures Shl(q, n) < Shl(q + 1, n)
  {
    if n > 0 {
      ShlGrows(q, n - 1);
    }
  }

  lemma {:induction false} ShlBound(q: nat, n: nat, b: nat)
    requires q <= Pow2(b)
    ensures Shl(q, n) <= Pow2(n + b)
  {
    if n > 0 {
      ShlBound(q, n - 1, b);
    }
  }

  lemma {:induction false} Pow2Below(a: nat, b: nat)
    requires a <= b
    ensures Pow2(a) <= Pow2(b)
    decreases b - a
  {
    if a < b {
      Pow2Below(a, b - 1);
    }
  }

  lemma Pow2Plus8(n: nat)
    ensures Pow2(n + 8) == 0x100 * Pow2(n)
  {
    assert Pow2(n + 2) == 4 * Pow2(n);
    assert Pow2(n + 4) == 4 * Pow2(n + 2);
    assert Pow2(n + 6) == 4 * Pow2(n + 4);
  }

  lemma Pow2Of64()
    ensures Pow2(WORD_BITS) == WORD
  {
    Pow2Plus8(0);
    Pow2Plus8(8);
    Pow2Plus8(16);
    Pow2Plus8(24);
    Pow2Plus8(32);
    Pow2Plus8(40);
    Pow2Plus8(48);
    Pow2Plus8(56);
  }

  lemma Pow2Fits(bits: nat)
    requires bits < WORD_BITS
    ensures 2 * Pow2(bits) <= WORD
  {
    Pow2Of64();
    Pow2Below(bits + 1, WORD_BITS);
  }

  /** The page `Ensure(start, n)` asks for last, in machine arithmetic. */
  function LastPage(start: Number, n: Number): Number {
    (start + n - 1) % WORD
  }

  /** Does the loop of `Ensure(start, n)` reach no page out of range? */
  predicate InRange(start: Number, n: Number, bits: nat) {
    start <= LastPage(start, n) ==> LastPage(start, n) < Pow2(bits)
  }

  /** For a range that does not wrap around, that is the question a caller asks. */
  lemma InRangeMeans(start: Number, n: Number, bits: nat)
    requires n >= 1 && start + n - 1 < WORD
    ensures InRange(start, n, bits) <==> start + n - 1 < Pow2(bits)
  {
    assert LastPage(start, n) == start + n - 1;
  }

  lemma NoWrap(x: nat)
    requires x < WORD
    ensures x % WORD == x
  {
  }

  /** The first page behind the leaf of `key`: how far it is, and that it is reached without overflow. */
  lemma NextLeafStart(key: nat, n: nat, bits: nat)
    requires n <= bits < WORD_BITS && key < Pow2(bits)
    ensures var next := Shl(Shr(key, n) + 1, n);
            && key < next <= Pow2(bits) && next < WORD && next % WORD == next
            && forall k :: key <= k < next ==> Shr(k, n) == Shr(key, n)
  {
    hide *;
    var q := Shr(key, n);
    var next := Shl(q + 1, n);
    ShrInterval(key, q, n);
    ShrBound(key, n, bits - n);
    ShlBound(q + 1, n, bits - n);
    Pow2Fits(bits);
    NoWrap(next);
    forall k | key <= k < next
      ensures Shr(k, n) == q
    {
      ShlGrows(q, n);
      ShrInterval(k, q, n);
    }
  }

  // ---------------------------------------------------------------- one level

  class PageMap1 {
    const BITS: nat
    const array_: array<Ptr>
    ghost var image: map<nat, Ptr>

    ghost predicate Valid()
      reads this, array_
    {
      && BITS < WORD_BITS && array_.Length == Pow2(BITS)
      && (forall k :: k in image ==> k < Pow2(BITS))
      && forall k :: 0 <= k < array_.Length ==> array_[k] == Image(image, k)
    }

    constructor (bits: nat)
      requires bits < WORD_BITS - 3
      ensures Valid() && BITS == bits && image == map[] && fresh(array_)
    {
      BITS := bits;
      array_ := new Ptr[Pow2(bits)](_ => NULL);
      image := map[];
    }

    method Get(k: Number) returns (v: Ptr)
      requires Valid()
      ensures v == Image(image, k)
    {
      ShrBound(k, BITS, 0);
      if Shr(k, BITS) > 0 {
        return NULL;
      }
      v := array_[k];
    }

    method Set(k: Number, v: Ptr)
      requires Valid() && k < Pow2(BITS)
      modifies this`image, array_
      ensures Valid() && image == old(image)[k := v]
    {
      array_[k] := v;
      image := image[k := v];
    }
  }

  // ---------------------------------------------------------------- two levels

  class PageMap2 {
    static const ROOT_BITS: nat := 5
    static const ROOT_LENGTH: nat := 32

    const BITS: nat
    const LEAF_BITS: nat
    const root: array<array?<Ptr>>
    /** The leaves, each with its number. */
    ghost var leaves: map<array<Ptr>, nat>
    ghost var image: map<nat, Ptr>

    ghost predicate Shape()
      reads this`leaves, root
    {
      && LEAF_BITS + ROOT_BITS == BITS < WORD_BITS
      && root.Length == ROOT_LENGTH
      && (forall i :: 0 <= i < ROOT_LENGTH && root[i] != null ==> root[i] in leaves && leaves[root[i]] == i)
      && (forall leaf :: leaf in leaves ==> leaf.Length == Pow2(LEAF_BITS))
    }

    lemma LeafExists(k: nat)
      requires Shape()
      ensures k < Pow2(BITS) <==> Shr(k, LEAF_BITS) < ROOT_LENGTH
      ensures Shr(k, BITS) > 0 <==> Pow2(BITS) <= k
    {
      ShrBound(k, LEAF_BITS, ROOT_BITS);
      assert Pow2(3) == 8 && Pow2(5) == 4 * Pow2(3);
      ShrBound(k, BITS, 0);
    }

    /** The pointer found by walking down from the root. */
    ghost function Stored(k: nat): Ptr
      requires Shape() && k < Pow2(BITS)
      reads this`leaves, root, leaves.Keys
    {
      LeafExists(k);
      var leaf := root[Shr(k, LEAF_BITS)];
      if leaf == null then NULL else leaf[Low(k, LEAF_BITS)]
    }

    ghost predicate Valid()
      reads this, root, leaves.Keys
    {
      && Shape()
      && (forall k :: k in image ==> k < Pow2(BITS))
      && (forall k: nat :: k < Pow2(BITS) ==> Stored(k) == Image(image, k))
    }

    /** There is a leaf for page `k`. */
    ghost predicate HasLeaf(k: nat)
      requires Shape() && k < Pow2(BITS)
      reads this`leaves, root
    {
      LeafExists(k);
      root[Shr(k, LEAF_BITS)] != null
    }

    method Get(k: Number) returns (v: Ptr)
      requires Valid()
      ensures v == Image(image, k)
    {
      hide Shr, Low, Pow2;
      LeafExists(k);
      var i1 := Shr(k, LEAF_BITS);
      var i2 := Low(k, LEAF_BITS);
      assert k < Pow2(BITS) ==> Stored(k) == Image(image, k);
      if Shr(k, BITS) > 0 || root[i1] == null {
        return NULL;
      }
      v := root[i1][i2];
    }

    method Set(k: Number, v: Ptr)
      requires Valid() && k < Pow2(BITS) && HasLeaf(k)
      modifies this`image, leaves.Keys
      ensures Valid() && leaves == old(leaves)
      ensures image == old(image)[k := v]
    {
      hide Shr, Low, Pow2;
      LeafExists(k);
      var i1 := Shr(k, LEAF_BITS);
      var i2 := Low(k, LEAF_BITS);
      var leaf := root[i1];
      leaf[i2] := v;
      image := image[k := v];
      forall k': nat | k' < Pow2(BITS)
        ensures Stored(k') == Image(image, k')
      {
        LeafExists(k');
        assert old(Stored(k')) == Image(old(image), k');
        if root[Shr(k', LEAF_BITS)] == leaf && Low(k', LEAF_BITS) == i2 {
          HighAndLow(k, k', LEAF_BITS);
        }
      }
    }

    /** The heap after a step has at least the leaves it had before. */
    twostate predicate LeavesKept()
      requires old(Shape()) && Shape()
      reads this`leaves, root
    {
      forall k: nat :: k < Pow2(BITS) && old(HasLeaf(k)) ==> HasLeaf(k)
    }

    /** A new leaf, all NULL, for the pages that share `i1`. */
    method NewLeaf(i1: nat)
      requires Valid() && i1 < ROOT_LENGTH && root[i1] == null
      modifies this`leaves, root
      ensures Valid() && image == old(image) && root[i1] != null
      ensures fresh(leaves.Keys - old(leaves.Keys)) && LeavesKept()
    {
      hide Shr, Low, Pow2;
      var leaf := new Ptr[Pow2(LEAF_BITS)](_ => NULL);
      root[i1] := leaf;
      leaves := leaves[leaf := i1];
      forall k: nat | k < Pow2(BITS)
        ensures Stored(k) == Image(image, k)
      {
        LeafExists(k);
        assert old(Stored(k)) == Image(image, k);
      }
      forall k: nat | k < Pow2(BITS) && old(HasLeaf(k))
        ensures HasLeaf(k)
      {
        LeafExists(k);
      }
    }

    /** Makes sure that there are leaves for the pages `[start, start + n - 1]`, looking at one page for each leaf. */
    method Ensure(start: Number, n: Number) returns (ok: bool)
      requires Valid()
      modifies this`leaves, root
      ensures Valid() && image == old(image) && fresh(leaves.Keys - old(leaves.Keys))
      ensures ok == InRange(start, n, BITS)
      ensures ok ==> forall k: nat :: start <= k <= LastPage(start, n) ==> k < Pow2(BITS) && HasLeaf(k)
      ensures LeavesKept()
    {
      hide Shr, Shl, Low, Pow2, LastPage;
      var last := LastPage(start, n);
      var key: Number := start;
      while key <= last
        invariant Valid() && image == old(image) && fresh(leaves.Keys - old(leaves.Keys))
        invariant key == start || start < key <= Pow2(BITS)
        invariant start <= key
        invariant forall k: nat :: start <= k < key ==> k < Pow2(BITS) && HasLeaf(k)
        invariant LeavesKept()
        decreases last - key
      {
        LeafExists(key);
        var i1 := Shr(key, LEAF_BITS);
        if i1 >= ROOT_LENGTH {
          return false;
        }
        if root[i1] == null {
          NewLeaf(i1);
        }
        NextLeafStart(key, LEAF_BITS, BITS);
        ghost var next := Shl(Shr(key, LEAF_BITS) + 1, LEAF_BITS);
        forall k: nat | key <= k < next
          ensures k < Pow2(BITS) && HasLeaf(k)
        {
          LeafExists(k);
        }
        key := Shl(Shr(key, LEAF_BITS) + 1, LEAF_BITS) % WORD;
      }
      ok := true;
    }

    /** All leaves are there from the start. */
    constructor (bits: nat)
      requires ROOT_BITS <= bits < 31
      ensures Valid() && BITS == bits && image == map[] && root.Length == 32 && LEAF_BITS + 5 == bits
      ensures forall k: nat :: k < Pow2(BITS) ==> HasLeaf(k)
      ensures fresh(root) && fresh(leaves.Keys)
    {
      BITS := bits;
      LEAF_BITS := bits - ROOT_BITS;
      root := new array?<Ptr>[ROOT_LENGTH](_ => null);
      leaves, image := map[], map[];
      new;
      hide Shr, Low, Pow2;
      forall k: nat | k < Pow2(BITS)
        ensures Stored(k) == NULL
      {
        LeafExists(k);
      }
      Pow2Fits(bits);
      assert LastPage(0, Pow2(bits)) == Pow2(bits) - 1;
      var ok := Ensure(0, Pow2(bits));
    }
  }

  // ---------------------------------------------------------------- three levels

  class PageMap3 {
    const BITS: nat
    const INTERIOR_BITS: nat
    const LEAF_BITS: nat
    const root: array<array?<array?<Ptr>>>
    /** The interior nodes with their index in the root, and the leaves with both indices that lead to them. */
    ghost var nodes: map<array<array?<Ptr>>, nat>
    ghost var leaves: map<array<Ptr>, (nat, nat)>
    ghost var image: map<nat, Ptr>

    ghost predicate Shape()
      reads this`nodes, this`leaves, root, nodes.Keys
    {
      && LEAF_BITS + INTERIOR_BITS + INTERIOR_BITS == BITS < WORD_BITS
      && root.Length == Pow2(INTERIOR_BITS)
      && (forall i :: 0 <= i < root.Length && root[i] != null ==> root[i] in nodes && nodes[root[i]] == i)
      && (forall node :: node in nodes ==> node.Length == Pow2(INTERIOR_BITS))
      && (forall node, j :: node in nodes && 0 <= j < node.Length && node[j] != null ==>
            node[j] in leaves && leaves[node[j]] == (nodes[node], j))
      && (forall leaf :: leaf in leaves ==> leaf.Length == Pow2(LEAF_BITS))
    }

    function I1(k: nat): nat {
      Shr(k, LEAF_BITS + INTERIOR_BITS)
    }

    function I2(k: nat): nat {
      Low(Shr(k, LEAF_BITS), INTERIOR_BITS)
    }

    lemma SlicesInRange(k: nat)
      requires Shape()
      ensures k < Pow2(BITS) <==> I1(k) < Pow2(INTERIOR_BITS)
      ensures I2(k) < Pow2(INTERIOR_BITS) && Low(k, LEAF_BITS) < Pow2(LEAF_BITS)
      ensures Shr(k, BITS) > 0 <==> Pow2(BITS) <= k
    {
      ShrBound(k, LEAF_BITS + INTERIOR_BITS, INTERIOR_BITS);
      ShrBound(k, BITS, 0);
    }

    lemma SlicesDetermine(k: nat, k': nat)
      requires I1(k) == I1(k') && I2(k) == I2(k') && Low(k, LEAF_BITS) == Low(k', LEAF_BITS)
      ensures k == k'
    {
      hide Shr, Low;
      ShrShr(k, LEAF_BITS, INTERIOR_BITS);
      ShrShr(k', LEAF_BITS, INTERIOR_BITS);
      HighAndLow(Shr(k, LEAF_BITS), Shr(k', LEAF_BITS), INTERIOR_BITS);
      HighAndLow(k, k', LEAF_BITS);
    }

    lemma SlicesOfLeaf(k: nat, k': nat)
      requires Shr(k, LEAF_BITS) == Shr(k', LEAF_BITS)
      ensures I1(k) == I1(k') && I2(k) == I2(k')
    {
      ShrShr(k, LEAF_BITS, INTERIOR_BITS);
      ShrShr(k', LEAF_BITS, INTERIOR_BITS);
    }

    /** The leaf for page `k`, if it was ever allocated. */
    ghost function LeafOf(k: nat): array?<Ptr>
      requires Shape() && k < Pow2(BITS)
      reads this`nodes, this`leaves, root, nodes.Keys
    {
      SlicesInRange(k);
      var node := root[I1(k)];
      if node == null then null else node[I2(k)]
    }

    /** The pointer found by walking down from the root. */
    ghost function Stored(k: nat): Ptr
      requires Shape() && k < Pow2(BITS)
      reads this`nodes, this`leaves, root, nodes.Keys, leaves.Keys
    {
      SlicesInRange(k);
      var leaf := LeafOf(k);
      if leaf == null then NULL else leaf[Low(k, LEAF_BITS)]
    }

    ghost predicate Valid()
      reads this, root, nodes.Keys, leaves.Keys
    {
      && Shape()
      && (forall k :: k in image ==> k < Pow2(BITS))
      && (forall k: nat :: k < Pow2(BITS) ==> Stored(k) == Image(image, k))
    }

    constructor (bits: nat)
      requires 2 * ((bits + 2) / 3) <= bits < WORD_BITS
      ensures Valid() && BITS == bits && image == map[]
      ensures INTERIOR_BITS == (bits + 2) / 3 && LEAF_BITS + 2 * INTERIOR_BITS == bits
      ensures nodes == map[] && leaves == map[] && forall k: nat :: k < Pow2(BITS) ==> LeafOf(k) == null
      ensures fresh(root) && fresh(nodes.Keys) && fresh(leaves.Keys)
    {
      BITS := bits;
      INTERIOR_BITS := (bits + 2) / 3;
      LEAF_BITS := bits - 2 * ((bits + 2) / 3);
      root := new array?<array?<Ptr>>[Pow2((bits + 2) / 3)](_ => null);
      nodes, leaves, image := map[], map[], map[];
      new;
      forall k: nat | k < Pow2(BITS)
        ensures Stored(k) == NULL && LeafOf(k) == null
      {
        SlicesInRange(k);
      }
    }

    method Get(k: Number) returns (v: Ptr)
      requires Valid()
      ensures v == Image(image, k)
    {
      hide Shr, Low, Pow2;
      SlicesInRange(k);
      var i1 := Shr(k, LEAF_BITS + INTERIOR_BITS);
      var i2 := Low(Shr(k, LEAF_BITS), INTERIOR_BITS);
      var i3 := Low(k, LEAF_BITS);
      assert k < Pow2(BITS) ==> Stored(k) == Image(image, k);
      if Shr(k, BITS) > 0 || root[i1] == null || root[i1][i2] == null {
        return NULL;
      }
      v := root[i1][i2][i3];
    }

    method Set(k: Number, v: Ptr)
      requires Valid() && k < Pow2(BITS)
      modifies this, root, nodes.Keys, leaves.Keys
      ensures Valid() && image == old(image)[k := v]
      ensures fresh(nodes.Keys - old(nodes.Keys)) && fresh(leaves.Keys - old(leaves.Keys))
    {
      hide Shr, Low, Pow2;
      var ok := Ensure(k, 1);
      assert LastPage(k, 1) == k;
      SlicesInRange(k);
      assert LeafOf(k) != null;
      Write(root[I1(k)][I2(k)], k, v);
    }

    /** Writes page `k` in its leaf. */
    method Write(leaf: array<Ptr>, k: Number, v: Ptr)
      requires Valid() && k < Pow2(BITS) && LeafOf(k) == leaf
      modifies this`image, leaf
      ensures Valid() && image == old(image)[k := v]
    {
      hide Shr, Low, Pow2;
      SlicesInRange(k);
      leaf[Low(k, LEAF_BITS)] := v;
      image := image[k := v];
      forall k': nat | k' < Pow2(BITS)
        ensures Stored(k') == Image(image, k')
      {
        SlicesInRange(k');
        assert old(Stored(k')) == Image(old(image), k');
        if LeafOf(k') == leaf && Low(k', LEAF_BITS) == Low(k, LEAF_BITS) {
          SlicesDetermine(k, k');
        }
      }
    }

    /** The heap after a step has at least the leaves it had before. */
    twostate predicate LeavesKept()
      requires old(Shape()) && Shape()
      reads this`nodes, this`leaves, root, nodes.Keys
    {
      forall k: nat :: k < Pow2(BITS) && old(LeafOf(k)) != null ==> LeafOf(k) == old(LeafOf(k))
    }

    /** A new interior node, all NULL. */
    method NewNode(i1: nat)
      requires Valid() && i1 < root.Length && root[i1] == null
      modifies this`nodes, root
      ensures Valid() && image == old(image) && leaves == old(leaves) && root[i1] != null
      ensures fresh(nodes.Keys - old(nodes.Keys)) && LeavesKept()
    {
      hide Shr, Low, Pow2, I1, I2, Image;
      var node := new array?<Ptr>[Pow2(INTERIOR_BITS)](_ => null);
      root[i1] := node;
      nodes := nodes[node := i1];
      assert Shape();
      forall k: nat | k < Pow2(BITS)
        ensures Stored(k) == Image(image, k)
        ensures old(LeafOf(k)) != null ==> LeafOf(k) == old(LeafOf(k))
      {
        SlicesInRange(k);
        assert old(Stored(k)) == Image(image, k);
      }
    }

    /** A new leaf, all NULL, hangs at index `at.1` of the interior node `at.0`; nothing else has changed. */
    twostate predicate LeafHung(at: (nat, nat))
      reads this`nodes, this`leaves, this`image, root, nodes.Keys, leaves.Keys
    {
      && old(Valid()) && nodes == old(nodes) && image == old(image) && root[..] == old(root[..])
      && at.0 < root.Length && root[at.0] != null && root[at.0] in nodes
      && var node := root[at.0];
      && at.1 < node.Length && old(node[at.1]) == null && node[at.1] != null
      && node[at.1] !in old(leaves) && leaves == old(leaves)[node[at.1] := at]
      && node[at.1].Length == Pow2(LEAF_BITS) && (forall j :: 0 <= j < node[at.1].Length ==> node[at.1][j] == NULL)
      && (forall n, j :: n in nodes && 0 <= j < n.Length && (n != node || j != at.1) ==> n[j] == old(n[j]))
      && (forall l :: l in old(leaves) ==> l[..] == old(l[..]))
    }

    twostate lemma HungLeafKeepsShape(at: (nat, nat))
      requires LeafHung(at)
      ensures Shape()
    {
      hide Pow2, Stored, Image;
    }

    twostate lemma HungLeafKeepsImage(at: (nat, nat))
      requires LeafHung(at) && Shape()
      ensures Valid() && LeavesKept()
    {
      hide Shr, Low, Pow2, I1, I2, Image;
      forall k: nat | k < Pow2(BITS)
        ensures Stored(k) == Image(image, k)
        ensures old(LeafOf(k)) != null ==> LeafOf(k) == old(LeafOf(k))
      {
        SlicesInRange(k);
        assert old(Stored(k)) == Image(image, k);
        assert old(LeafOf(k)) != null ==> old(LeafOf(k)) in old(leaves) && old(LeafOf(k))[..] == old(LeafOf(k)[..]);
      }
    }

    /** A new leaf, all NULL, below an interior node. */
    method NewLeaf(i1: nat, i2: nat)
      requires Valid() && i1 < root.Length && root[i1] != null && i2 < root[i1].Length && root[i1][i2] == null
      modifies this`leaves, root[i1]
      ensures Valid() && image == old(image) && nodes == old(nodes)
      ensures root[i1] != null && i2 < root[i1].Length && root[i1][i2] != null
      ensures fresh(leaves.Keys - old(leaves.Keys)) && LeavesKept()
    {
      hide Pow2, Stored, Image;
      var leaf := new Ptr[Pow2(LEAF_BITS)](_ => NULL);
      var node := root[i1];
      node[i2] := leaf;
      leaves := leaves[leaf := (i1, i2)];
      assert LeafHung((i1, i2));
      HungLeafKeepsShape((i1, i2));
      HungLeafKeepsImage((i1, i2));
    }

    /** Makes sure that there are leaves for the pages `[start, start + n - 1]`, looking at one page for each leaf. */
    method Ensure(start: Number, n: Number) returns (ok: bool)
      requires Valid()
      modifies this`nodes, this`leaves, root, nodes.Keys
      ensures Valid() && image == old(image)
      ensures fresh(nodes.Keys - old(nodes.Keys)) && fresh(leaves.Keys - old(leaves.Keys))
      ensures ok == InRange(start, n, BITS)
      ensures ok ==> forall k: nat :: start <= k <= LastPage(start, n) ==> k < Pow2(BITS) && LeafOf(k) != null
      ensures LeavesKept()
    {
      hide Shr, Shl, Low, Pow2, LastPage, Stored, LeafOf, Image;
      var last := LastPage(start, n);
      var key: Number := start;
      while key <= last
        invariant Valid() && image == old(image) && LeavesKept()
        invariant fresh(nodes.Keys - old(nodes.Keys)) && fresh(leaves.Keys - old(leaves.Keys))
        invariant start <= key && (key == start || key <= Pow2(BITS))
        invariant forall k: nat :: start <= k < key ==> k < Pow2(BITS) && LeafOf(k) != null
        decreases last - key
      {
        SlicesInRange(key);
        var i1 := Shr(key, LEAF_BITS + INTERIOR_BITS);
        var i2 := Low(Shr(key, LEAF_BITS), INTERIOR_BITS);
        if i1 >= Pow2(INTERIOR_BITS) || i2 >= Pow2(INTERIOR_BITS) {
          return false;
        }
        EnsureLeaf(key, i1, i2);
        NextLeafStart(key, LEAF_BITS, BITS);
        ghost var next := Shl(Shr(key, LEAF_BITS) + 1, LEAF_BITS);
        LeafShared(key, next);
        key := Shl(Shr(key, LEAF_BITS) + 1, LEAF_BITS) % WORD;
      }
      ok := true;
    }

    /** All pages up to the next leaf share the leaf of page `key`. */
    lemma LeafShared(key: nat, next: nat)
      requires Shape() && key < next <= Pow2(BITS) && LeafOf(key) != null
      requires forall k :: key <= k < next ==> Shr(k, LEAF_BITS) == Shr(key, LEAF_BITS)
      ensures forall k: nat :: key <= k < next ==> k < Pow2(BITS) && LeafOf(k) != null
    {
      hide Shape, Shr, Low, Pow2;
      forall k: nat | key <= k < next
        ensures k < Pow2(BITS) && LeafOf(k) != null
      {
        SlicesOfLeaf(k, key);
      }
    }

    method EnsureLeaf(key: Number, i1: nat, i2: nat)
      requires Valid() && key < Pow2(BITS) && i1 == I1(key) && i2 == I2(key)
      modifies this`nodes, this`leaves, root, nodes.Keys
      ensures Valid() && image == old(image) && LeafOf(key) != null && LeavesKept()
      ensures fresh(nodes.Keys - old(nodes.Keys)) && fresh(leaves.Keys - old(leaves.Keys))
    {
      hide Shr, Low, Pow2;
      SlicesInRange(key);
      if root[i1] == null {
        NewNode(i1);
      }
      if root[i1][i2] == null {
        NewLeaf(i1, i2);
      }
    }
  }

  // ---------------------------------------------------------------- the three maps agree

  datatype Op = Op(k: Number, v: Ptr)

  /** The map that a sequence of `set` calls leaves. */
  function Replay(ops: seq<Op>): map<nat, Ptr> {
    if ops == [] then map[]
    else
      var n := |ops| - 1;
      Replay(ops[..n])[ops[n].k := ops[n].v]
  }

  /** The value that was set last at `k`, or NULL. */
  function LastSet(ops: seq<Op>, k: nat): Ptr {
    if ops == [] then NULL
    else if ops[|ops| - 1].k == k then ops[|ops| - 1].v
    else LastSet(ops[..|ops| - 1], k)
  }

  /** No later call than number `i` is for its page; a page of no call has the null pointer. */
  lemma {:induction false} LastSetMeans(ops: seq<Op>, i: nat, k: nat)
    ensures i < |ops| && (forall j :: i < j < |ops| ==> ops[j].k != ops[i].k) ==> LastSet(ops, ops[i].k) == ops[i].v
    ensures (forall j :: 0 <= j < |ops| ==> ops[j].k != k) ==> LastSet(ops, k) == 0
  {
    if ops != [] {
      LastSetMeans(ops[..|ops| - 1], i, k);
    }
  }

  lemma {:induction false} ReplayIsLastSet(ops: seq<Op>, k: nat)
    ensures Image(Replay(ops), k) == LastSet(ops, k)
  {
    if ops != [] {
      ReplayIsLastSet(ops[..|ops| - 1], k);
    }
  }

  ghost predicate AllInRange(ops: seq<Op>, bits: nat) {
    forall i :: 0 <= i < |ops| ==> ops[i].k < Pow2(bits)
  }

  method Run1(ops: seq<Op>, bits: nat, k: Number) returns (v: Ptr)
    requires bits < WORD_BITS - 3 && AllInRange(ops, bits)
    ensures v == LastSet(ops, k)
  {
    var m := new PageMap1(bits);
    for i := 0 to |ops|
      invariant m.Valid() && m.BITS == bits && m.image == Replay(ops[..i]) && fresh(m.array_)
    {
      m.Set(ops[i].k, ops[i].v);
      assert ops[..i + 1][..i] == ops[..i];
    }
    assert ops[..|ops|] == ops;
    ReplayIsLastSet(ops, k);
    v := m.Get(k);
  }

  method Run2(ops: seq<Op>, bits: nat, k: Number) returns (v: Ptr)
    requires PageMap2.ROOT_BITS <= bits < 31 && AllInRange(ops, bits)
    ensures v == LastSet(ops, k)
  {
    var m := new PageMap2(bits);
    for i := 0 to |ops|
      invariant m.Valid() && m.BITS == bits && m.image == Replay(ops[..i]) && fresh(m.leaves.Keys)
      invariant forall p: nat :: p < Pow2(bits) ==> m.HasLeaf(p)
    {
      m.Set(ops[i].k, ops[i].v);
      assert ops[..i + 1][..i] == ops[..i];
    }
    assert ops[..|ops|] == ops;
    ReplayIsLastSet(ops, k);
    v := m.Get(k);
  }

  method Run3(ops: seq<Op>, bits: nat, k: Number) returns (v: Ptr)
    requires 2 * ((bits + 2) / 3) <= bits < WORD_BITS && AllInRange(ops, bits)
    ensures v == LastSet(ops, k)
  {
    var m := new PageMap3(bits);
    for i := 0 to |ops|
      invariant m.Valid() && m.BITS == bits && m.image == Replay(ops[..i])
      invariant fresh(m.root) && fresh(m.nodes.Keys) && fresh(m.leaves.Keys)
    {
      m.Set(ops[i].k, ops[i].v);
      assert ops[..i + 1][..i] == ops[..i];
    }
    assert ops[..|ops|] == ops;
    ReplayIsLastSet(ops, k);
    v := m.Get(k);
  }

  /** After the same `set` calls the three maps answer every `get` alike: the value last set there, or NULL. */
  method AllAgree(ops: seq<Op>, bits: nat, k: Number) returns (v1: Ptr, v2: Ptr, v3: Ptr)
    requires PageMap2.ROOT_BITS <= bits < 31 && AllInRange(ops, bits)
    ensures v1 == v2 == v3 == LastSet(ops, k)
  {
    v1 := Run1(ops, bits, k);
    v2 := Run2(ops, bits, k);
    v3 := Run3(ops, bits, k);
  }
}
