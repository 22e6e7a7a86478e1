/** The local Merkle log: root, inclusion proof and proof verification, with the odd
    node of a layer hashed with itself. The two hashes are parameters. */
module MerkleLog {
  import opened Bits

  /** `leaf` and `node` are SHA-256 behind the prefix bytes 0x00 and 0x01 (the domain
      separation of section 2.1 of RFC 6962); `zero` is the root of the empty log. */
  datatype Hasher<!D> = Hasher(leaf: D -> D, node: (D, D) -> D, zero: D)

  ghost predicate CollisionFree<D(!new)>(h: Hasher<D>) {
    && (forall x, y {:trigger h.leaf(x), h.leaf(y)} :: h.leaf(x) == h.leaf(y) ==> x == y)
    && (forall a, b, c, d {:trigger h.node(a, b), h.node(c, d)} :: h.node(a, b) == h.node(c, d) ==> a == c && b == d)
    && (forall x, a, b {:trigger h.leaf(x), h.node(a, b)} :: h.leaf(x) != h.node(a, b))
  }

  // ---- The tree ----

  function Half(n: nat): nat {
    (n + 1) / 2
  }

  /** The layer above a layer: neighbours paired, a lone last node paired with itself. */
  function Next<D>(h: Hasher<D>, layer: seq<D>): (up: seq<D>)
    ensures |up| == Half(|layer|)
  {
    seq(Half(|layer|), k requires 0 <= k < Half(|layer|) => Parent(h, layer, k))
  }

  function Parent<D>(h: Hasher<D>, layer: seq<D>, k: nat): D
    requires k < Half(|layer|)
  {
    h.node(layer[2 * k], layer[if 2 * k + 1 < |layer| then 2 * k + 1 else 2 * k])
  }

  function Leaves<D>(h: Hasher<D>, data: seq<D>): (layer: seq<D>)
    ensures |layer| == |data| && forall k | 0 <= k < |data| :: layer[k] == h.leaf(data[k])
  {
    seq(|data|, k requires 0 <= k < |data| => h.leaf(data[k]))
  }

  /** The top of the tree over a nonempty layer. */
  function Top<D>(h: Hasher<D>, layer: seq<D>): D
    requires layer != []
    decreases |layer|
  {
    if |layer| == 1 then layer[0] else Top(h, Next(h, layer))
  }

  function RootOf<D>(h: Hasher<D>, data: seq<D>): D {
    if data == [] then h.zero else Top(h, Leaves(h, data))
  }

  function Sibling(n: nat, i: nat): (s: nat)
    requires i < n
    ensures s < n
  {
    if i % 2 == 1 then i - 1 else if i + 1 < n then i + 1 else i
  }

  /** The siblings on the way from node `i` of a layer to the top. */
  function Path<D>(h: Hasher<D>, layer: seq<D>, i: nat): (p: seq<D>)
    requires i < |layer|
    decreases |layer|
  {
    if |layer| == 1 then [] else [layer[Sibling(|layer|, i)]] + Path(h, Next(h, layer), i / 2)
  }

  function ProofOf<D>(h: Hasher<D>, data: seq<D>, i: nat): seq<D>
    requires i < |data|
  {
    Path(h, Leaves(h, data), i)
  }

  function Combine<D>(h: Hasher<D>, x: D, sibling: D, i: nat): D {
    if i % 2 == 0 then h.node(x, sibling) else h.node(sibling, x)
  }

  /** Climb from a node along a path of siblings. */
  function Climb<D>(h: Hasher<D>, x: D, i: nat, path: seq<D>): D
    decreases |path|
  {
    if path == [] then x else Climb(h, Combine(h, x, path[0], i), i / 2, path[1..])
  }

  predicate Verifies<D(==)>(h: Hasher<D>, leaf: D, path: seq<D>, i: nat, root: D) {
    Climb(h, h.leaf(leaf), i, path) == root
  }

  // ---- Shape ----

  function Height(n: nat): nat {
    if n <= 1 then 0 else 1 + Height(Half(n))
  }

  /** The height is the ceiling of the binary logarithm. */
  lemma {:induction false} HeightIsCeilLog2(n: nat)
    requires n > 0
    ensures n <= Pow2(Height(n))
    ensures n > 1 ==> Pow2(Height(n) - 1) < n
  {
    if n > 1 {
      HeightIsCeilLog2(Half(n));
      if Half(n) == 1 { assert Height(n) == 1; } else { assert Pow2(Height(n) - 1) == 2 * Pow2(Height(Half(n)) - 1); }
    }
  }

  lemma {:induction false} PathLength<D>(h: Hasher<D>, layer: seq<D>, i: nat)
    requires i < |layer|
    ensures |Path(h, layer, i)| == Height(|layer|)
    decreases |layer|
  {
    if |layer| > 1 { PathLength(h, Next(h, layer), i / 2); }
  }

  /** The node that index `i` leads to in a layer of `n`: itself when it exists, and
      otherwise the last node standing in for its missing partner. */
  function Place(n: nat, i: nat): (p: nat)
    requires n > 0
    ensures p < n
  {
    if n == 1 then 0
    else
      var up := 2 * Place(Half(n), i / 2);
      if i % 2 == 1 && up + 1 < n then up + 1 else up
  }

  lemma {:induction false} PlaceInRange(n: nat, i: nat)
    requires i < n
    ensures Place(n, i) == i
  {
    if n > 1 { PlaceInRange(Half(n), i / 2); }
  }

  /** Joining a place with its sibling gives the place one layer up. */
  lemma JoinPlace<D>(h: Hasher<D>, layer: seq<D>, i: nat)
    requires |layer| > 1
    ensures var n := |layer|;
            var p := Place(n, i);
            && p / 2 == Place(Half(n), i / 2)
            && Next(h, layer)[p / 2] == Combine(h, layer[p], layer[Sibling(n, p)], i)
  {
    var q := Place(Half(|layer|), i / 2);
    assert Next(h, layer)[q] == Parent(h, layer, q);
  }

  // ---- Completeness ----

  /** Climbing from the node an index leads to, along that node's own path, reaches the top. */
  lemma {:induction false} ClimbReachesTop<D>(h: Hasher<D>, layer: seq<D>, i: nat)
    requires layer != []
    ensures Climb(h, layer[Place(|layer|, i)], i, Path(h, layer, Place(|layer|, i))) == Top(h, layer)
    decreases |layer|
  {
    var n := |layer|;
    if n > 1 {
      var p := Place(n, i);
      JoinPlace(h, layer, i);
      var path := Path(h, layer, p);
      assert path[1..] == Path(h, Next(h, layer), p / 2);
      ClimbReachesTop(h, Next(h, layer), i / 2);
    }
  }

  // ---- Soundness ----

  /** A path of the right length that climbs to the top starts at the node its index
      leads to and is that node's own path. */
  lemma {:induction false} ClimbDetermined<D(!new)>(h: Hasher<D>, layer: seq<D>, x: D, i: nat, path: seq<D>)
    requires CollisionFree(h) && layer != []
    requires |path| == Height(|layer|) && Climb(h, x, i, path) == Top(h, layer)
    ensures x == layer[Place(|layer|, i)] && path == Path(h, layer, Place(|layer|, i))
    decreases |layer|
  {
    var n := |layer|;
    if n > 1 {
      var up := Next(h, layer);
      ClimbDetermined(h, up, Combine(h, x, path[0], i), i / 2, path[1..]);
      JoinPlace(h, layer, i);
      assert path == [path[0]] + path[1..];
    }
  }

  ghost predicate IsNode<D(!new)>(h: Hasher<D>, x: D) {
    exists a, b :: x == h.node(a, b)
  }

  /** `k` layers up. */
  function Up<D>(h: Hasher<D>, layer: seq<D>, k: nat): (up: seq<D>)
    ensures layer != [] ==> up != []
    decreases k
  {
    if k == 0 then layer else Up(h, Next(h, layer), k - 1)
  }

  lemma {:induction false} UpShape<D(!new)>(h: Hasher<D>, layer: seq<D>, k: nat)
    requires layer != [] && k <= Height(|layer|)
    ensures Top(h, Up(h, layer, k)) == Top(h, layer)
    ensures Height(|Up(h, layer, k)|) == Height(|layer|) - k
    ensures k > 0 ==> forall j | 0 <= j < |Up(h, layer, k)| :: IsNode(h, Up(h, layer, k)[j])
    decreases k
  {
    if k > 0 {
      UpShape(h, Next(h, layer), k - 1);
      if k == 1 {
        var up := Next(h, layer);
        assert Up(h, layer, 1) == Up(h, up, 0);
        forall j | 0 <= j < |up| ensures IsNode(h, up[j]) {
          assert up[j] == Parent(h, layer, j);
        }
      }
    }
  }

  lemma {:induction false} ClimbSplit<D(!new)>(h: Hasher<D>, x: D, i: nat, path: seq<D>, k: nat)
    requires k <= |path|
    ensures exists j :: Climb(h, x, i, path) == Climb(h, Climb(h, x, i, path[..k]), j, path[k..])
    ensures k > 0 ==> IsNode(h, Climb(h, x, i, path[..k]))
    decreases k
  {
    if k == 0 {
      assert path[0..] == path;
      assert Climb(h, x, i, path) == Climb(h, Climb(h, x, i, path[..0]), i, path[0..]);
    } else {
      var y := Combine(h, x, path[0], i);
      ClimbSplit(h, y, i / 2, path[1..], k - 1);
      assert path[1..][..k - 1] == path[..k][1..];
      assert path[1..][k - 1..] == path[k..];
      var j :| Climb(h, y, i / 2, path[1..]) == Climb(h, Climb(h, y, i / 2, path[1..][..k - 1]), j, path[1..][k - 1..]);
      assert Climb(h, x, i, path) == Climb(h, Climb(h, x, i, path[..k]), j, path[k..]);
      if k == 1 {
        assert path[..k][1..] == [];
        assert IsNode(h, y) by {
          if i % 2 == 0 { assert y == h.node(x, path[0]); } else { assert y == h.node(path[0], x); }
        }
      }
    }
  }

  /** A leaf climbs to the root only along a path as long as the tree is high. */
  lemma LengthForced<D(!new)>(h: Hasher<D>, layer: seq<D>, leaf: D, i: nat, path: seq<D>)
    requires CollisionFree(h) && layer != []
    requires forall k | 0 <= k < |layer| :: exists d :: layer[k] == h.leaf(d)
    requires Climb(h, h.leaf(leaf), i, path) == Top(h, layer)
    ensures |path| == Height(|layer|)
  {
    var height := Height(|layer|);
    if |path| < height {
      var k := height - |path|;
      UpShape(h, layer, k);
      ClimbDetermined(h, Up(h, layer, k), h.leaf(leaf), i, path);
      assert false;
    } else if |path| > height {
      var k := |path| - height;
      ClimbSplit(h, h.leaf(leaf), i, path, k);
      var x := Climb(h, h.leaf(leaf), i, path[..k]);
      var j :| Climb(h, h.leaf(leaf), i, path) == Climb(h, x, j, path[k..]);
      ClimbDetermined(h, layer, x, j, path[k..]);
      assert false;
    }
  }

  /** Exactly what `verify_proof` accepts against the root of a nonempty log: the leaf
      the index leads to, with that leaf's own proof. No length check is needed, and an
      index past the end passes only as the last node's stand-in. */
  lemma VerifiesIff<D(!new)>(h: Hasher<D>, data: seq<D>, leaf: D, path: seq<D>, i: nat)
    requires CollisionFree(h) && data != []
    ensures Verifies(h, leaf, path, i, RootOf(h, data)) <==>
            leaf == data[Place(|data|, i)] && path == ProofOf(h, data, Place(|data|, i))
  {
    var layer := Leaves(h, data);
    ClimbReachesTop(h, layer, i);
    if Verifies(h, leaf, path, i, RootOf(h, data)) {
      LengthForced(h, layer, leaf, i, path);
      ClimbDetermined(h, layer, h.leaf(leaf), i, path);
    }
  }

  /** Every leaf's proof verifies, and its length is the ceiling of log2 of the size. */
  lemma ProofsVerify<D>(h: Hasher<D>, data: seq<D>, i: nat)
    requires i < |data|
    ensures Verifies(h, data[i], ProofOf(h, data, i), i, RootOf(h, data))
    ensures |ProofOf(h, data, i)| == Height(|data|)
  {
    PlaceInRange(|data|, i);
    ClimbReachesTop(h, Leaves(h, data), i);
    PathLength(h, Leaves(h, data), i);
  }

  // ---- Binding ----

  /** Both logs have the same leaf under every index of the full tree. */
  ghost predicate SamePadded<D(!new)>(a: seq<D>, b: seq<D>)
    requires a != [] && b != []
  {
    forall i: nat :: a[Place(|a|, i)] == b[Place(|b|, i)]
  }

  lemma ParentOfPlaces<D>(h: Hasher<D>, layer: seq<D>, i: nat)
    requires |layer| > 1
    ensures Next(h, layer)[Place(Half(|layer|), i)] ==
            h.node(layer[Place(|layer|, 2 * i)], layer[Place(|layer|, 2 * i + 1)])
  {
    assert 2 * i / 2 == i && (2 * i + 1) / 2 == i;
    assert Next(h, layer)[Place(Half(|layer|), i)] == Parent(h, layer, Place(Half(|layer|), i));
  }

  lemma {:induction false} SamePaddedSameTop<D(!new)>(h: Hasher<D>, a: seq<D>, b: seq<D>)
    requires a != [] && b != []
    requires Height(|a|) == Height(|b|) && SamePadded(a, b)
    ensures Top(h, a) == Top(h, b)
    decreases |a|
  {
    if |a| == 1 || |b| == 1 {
      assert Place(|a|, 0) == 0 && Place(|b|, 0) == 0;
    } else {
      var a', b' := Next(h, a), Next(h, b);
      forall i: nat ensures a'[Place(|a'|, i)] == b'[Place(|b'|, i)] {
        ParentOfPlaces(h, a, i);
        ParentOfPlaces(h, b, i);
        assert a[Place(|a|, 2 * i)] == b[Place(|b|, 2 * i)];
        assert a[Place(|a|, 2 * i + 1)] == b[Place(|b|, 2 * i + 1)];
      }
      SamePaddedSameTop(h, a', b');
    }
  }

  /** Two nonempty logs have the same root exactly when their trees have the same height
      and agree once the missing partners are filled in; `[a, b, c]` and `[a, b, c, c]` do. */
  lemma EqualRootsIff<D(!new)>(h: Hasher<D>, a: seq<D>, b: seq<D>)
    requires CollisionFree(h) && a != [] && b != []
    ensures RootOf(h, a) == RootOf(h, b) <==> Height(|a|) == Height(|b|) && SamePadded(a, b)
  {
    var la, lb := Leaves(h, a), Leaves(h, b);
    if RootOf(h, a) == RootOf(h, b) {
      forall i: nat ensures Height(|a|) == Height(|b|) && a[Place(|a|, i)] == b[Place(|b|, i)] {
        var p := Place(|a|, i);
        VerifiesIff(h, a, a[p], ProofOf(h, a, p), i);
        VerifiesIff(h, b, a[p], ProofOf(h, a, p), i);
        PathLength(h, la, p);
        PathLength(h, lb, Place(|b|, i));
      }
      assert Height(|a|) == Height(|b|) by { assert Place(|a|, 0) < |a|; }
    } else if Height(|a|) == Height(|b|) && SamePadded(a, b) {
      forall i: nat ensures la[Place(|la|, i)] == lb[Place(|lb|, i)] {
        assert a[Place(|a|, i)] == b[Place(|b|, i)];
      }
      SamePaddedSameTop(h, la, lb);
    }
  }

  /** Logs of equal length with equal roots hold the same leaves. */
  lemma EqualLengthBinding<D(!new)>(h: Hasher<D>, a: seq<D>, b: seq<D>)
    requires CollisionFree(h) && |a| == |b| && RootOf(h, a) == RootOf(h, b)
    ensures a == b
  {
    if a != [] {
      EqualRootsIff(h, a, b);
      forall i: nat | i < |a| ensures a[i] == b[i] {
        PlaceInRange(|a|, i);
        assert a[Place(|a|, i)] == b[Place(|b|, i)];
      }
    }
  }

  // ---- The tree from above ----

  /** The node over 2^k places: its left child covers the first half of them, its right child
      the rest, and with no leaf in the second half both are the same. */
  function Tree<D>(h: Hasher<D>, layer: seq<D>, k: nat): D
    requires layer != []
    decreases k
  {
    if k == 0 then layer[0]
    else
      var half := Pow2(k - 1);
      if |layer| <= half then h.node(Tree(h, layer, k - 1), Tree(h, layer, k - 1))
      else h.node(Tree(h, layer[..half], k - 1), Tree(h, layer[half..], k - 1))
  }

  lemma NextSplit<D>(h: Hasher<D>, a: seq<D>, b: seq<D>)
    requires |a| % 2 == 0
    ensures Next(h, a + b) == Next(h, a) + Next(h, b)
  {
    var n := |a| / 2;
    assert |Next(h, a)| == n && |Next(h, a + b)| == n + |Next(h, b)|;
    forall k | 0 <= k < |Next(h, a + b)| ensures Next(h, a + b)[k] == (Next(h, a) + Next(h, b))[k] {
      if k < n {
        assert Parent(h, a + b, k) == Parent(h, a, k);
      } else {
        assert (a + b)[2 * k] == b[2 * (k - n)];
        assert Parent(h, a + b, k) == Parent(h, b, k - n);
      }
    }
  }

  lemma {:induction false} UpSplit<D>(h: Hasher<D>, a: seq<D>, b: seq<D>, k: nat)
    requires |a| == Pow2(k)
    ensures Up(h, a + b, k) == Up(h, a, k) + Up(h, b, k) && |Up(h, a, k)| == 1
    decreases k
  {
    if k > 0 {
      NextSplit(h, a, b);
      UpSplit(h, Next(h, a), Next(h, b), k - 1);
    }
  }

  lemma {:induction false} UpLast<D>(h: Hasher<D>, layer: seq<D>, k: nat)
    requires k > 0
    ensures Up(h, layer, k) == Next(h, Up(h, layer, k - 1))
    decreases k
  {
    if k > 1 { UpLast(h, Next(h, layer), k - 1); }
  }

  lemma {:induction false} UpIsTree<D>(h: Hasher<D>, layer: seq<D>, k: nat)
    requires 0 < |layer| <= Pow2(k)
    ensures Up(h, layer, k) == [Tree(h, layer, k)]
    decreases k
  {
    if k > 0 {
      var half := Pow2(k - 1);
      UpLast(h, layer, k);
      if |layer| <= half {
        UpIsTree(h, layer, k - 1);
        PairOf(h, [Tree(h, layer, k - 1)]);
      } else {
        var left, right := layer[..half], layer[half..];
        UpIsTree(h, left, k - 1);
        UpIsTree(h, right, k - 1);
        assert Up(h, layer, k - 1) == [Tree(h, left, k - 1), Tree(h, right, k - 1)] by {
          UpSplit(h, left, right, k - 1);
          assert left + right == layer;
        }
        PairOf(h, [Tree(h, left, k - 1), Tree(h, right, k - 1)]);
      }
    }
  }

  lemma PairOf<D>(h: Hasher<D>, pair: seq<D>)
    requires 1 <= |pair| <= 2
    ensures Next(h, pair) == [h.node(pair[0], if |pair| == 2 then pair[1] else pair[0])]
  {
  }

  /** The layers from below give the tree from above: 32 zero bytes for the empty log, else the
      node over all leaf hashes, left before right, as high as needed. */
  lemma RootIsTree<D(!new)>(h: Hasher<D>, data: seq<D>)
    ensures data == [] ==> RootOf(h, data) == h.zero
    ensures data != [] ==> RootOf(h, data) == Tree(h, Leaves(h, data), Height(|data|))
  {
    if data != [] {
      var layer := Leaves(h, data);
      HeightIsCeilLog2(|data|);
      UpIsTree(h, layer, Height(|data|));
      UpShape(h, layer, Height(|data|));
    }
  }

  /** Appending a copy of the last leaf to a log of odd length above one keeps the root. */
  lemma OddLogRepeatsLast<D>(h: Hasher<D>, data: seq<D>)
    requires |data| % 2 == 1 && |data| > 1
    ensures RootOf(h, data + [data[|data| - 1]]) == RootOf(h, data)
  {
    var twice := data + [data[|data| - 1]];
    assert Next(h, Leaves(h, twice)) == Next(h, Leaves(h, data));
  }

  /** Collision-free hashers exist: the free one, whose digests are the terms themselves. */
  datatype Term = Zero | Atom(n: nat) | LeafTerm(x: Term) | NodeTerm(l: Term, r: Term)

  lemma FreeHasherCollisionFree()
    ensures CollisionFree(Hasher((x: Term) => LeafTerm(x), (l: Term, r: Term) => NodeTerm(l, r), Zero))
  {
  }

  // ---- The log ----

  method NextLayer<D>(h: Hasher<D>, layer: seq<D>) returns (next: seq<D>)
    ensures next == Next(h, layer)
  {
    next := [];
    var at := 0;
    while at < |layer|
      invariant at == 2 * |next| && |next| <= Half(|layer|)
      invariant forall k | 0 <= k < |next| :: next[k] == Next(h, layer)[k]
    {
      if at + 1 < |layer| {
        next := next + [h.node(layer[at], layer[at + 1])];
      } else {
        next := next + [h.node(layer[at], layer[at])];
      }
      at := at + 2;
    }
  }

  /** Moving one sibling from what is still to come to what is done. */
  lemma PathStep<D>(h: Hasher<D>, layer: seq<D>, i: nat, done: seq<D>)
    requires |layer| > 1 && i < |layer|
    ensures done + Path(h, layer, i) == (done + [layer[Sibling(|layer|, i)]]) + Path(h, Next(h, layer), i / 2)
  {
    var step, rest := layer[Sibling(|layer|, i)], Path(h, Next(h, layer), i / 2);
    assert done + ([step] + rest) == (done + [step]) + rest;
  }

  lemma SiblingAt(n: nat, i: nat)
    requires 1 < n && i < n
    ensures Sibling(n, i) == (if i % 2 == 1 then i - 1 else if i + 1 < n then i + 1 else i) && i / 2 < Half(n)
  {
  }

  method VerifyProof<D(==)>(h: Hasher<D>, leaf: D, proof: seq<D>, index: nat, root: D) returns (ok: bool)
    ensures ok == Verifies(h, leaf, proof, index, root)
  {
    var hash := h.leaf(leaf);
    var idx := index;
    for k := 0 to |proof|
      invariant Climb(h, hash, idx, proof[k..]) == Climb(h, h.leaf(leaf), index, proof)
    {
      assert proof[k..][0] == proof[k] && proof[k..][1..] == proof[k + 1..];
      var pair := if idx % 2 == 0 then h.node(hash, proof[k]) else h.node(proof[k], hash);
      hash := pair;
      idx := idx / 2;
    }
    return hash == root;
  }

  class Log<D> {
    const h: Hasher<D>
    var leaves: seq<D>

    constructor (h: Hasher<D>)
      ensures this.h == h && leaves == []
    {
      this.h := h;
      leaves := [];
    }

    method Append(leaf: D) returns (index: nat)
      modifies this
      ensures leaves == old(leaves) + [leaf]
      ensures index == |old(leaves)| && leaves[index] == leaf
    {
      index := |leaves|;
      leaves := leaves + [leaf];
    }

    method Root() returns (root: D)
      ensures root == RootOf(h, leaves)
    {
      if leaves == [] {
        return h.zero;
      }
      var layer := Leaves(h, leaves);
      while |layer| > 1
        invariant layer != [] && Top(h, layer) == RootOf(h, leaves)
        decreases |layer|
      {
        layer := NextLayer(h, layer);
      }
      return layer[0];
    }

    /** `found` is false for the out-of-range error. */
    method Proof(index: nat) returns (found: bool, path: seq<D>)
      ensures found == (index < |leaves|)
      ensures found ==> path == ProofOf(h, leaves, index)
    {
      path := [];
      if index >= |leaves| {
        return false, [];
      }
      var layer := Leaves(h, leaves);
      var idx: nat := index;
      ghost var whole := Path(h, layer, idx);
      while |layer| > 1
        invariant 0 <= idx < |layer| && path + Path(h, layer, idx) == whole
        decreases |layer|
      {
        var siblingIdx: int := if idx % 2 == 0 then idx + 1 else idx - 1;
        var step := if siblingIdx < |layer| then layer[siblingIdx] else layer[idx];
        SiblingAt(|layer|, idx);
        PathStep(h, layer, idx, path);
        path := path + [step];
        layer := NextLayer(h, layer);
        idx := idx / 2;
      }
      assert path + [] == path;
      return true, path;
    }
  }
}
