/** The Merkle root of a list of transaction ids (`Block::calculate_merkle_root`). */
module Merkle {
  import opened Crypto

  /** Number of nodes in layer `k` above `n` leaves. */
  function Width(n: nat, k: nat): nat {
    if k == 0 then n else (Width(n, k - 1) + 1) / 2
  }

  /** The last node of an odd layer is its own right sibling. */
  function RightChild(n: nat, k: nat, pos: nat): nat
    requires k > 0
  {
    if 2 * pos + 1 < Width(n, k - 1) then 2 * pos + 1 else 2 * pos
  }

  /** The node at position `pos` of layer `k`, as a tree read from the top. */
  function Node(c: Crypto, ids: seq<string>, k: nat, pos: nat): string
    requires pos < Width(|ids|, k)
    decreases k
  {
    if k == 0 then ids[pos]
    else DoubleSha256(c, Node(c, ids, k - 1, 2 * pos) + Node(c, ids, k - 1, RightChild(|ids|, k, pos)))
  }

  lemma ChildrenInRange(n: nat, k: nat, pos: nat)
    requires k > 0 && pos < Width(n, k)
    ensures 2 * pos < Width(n, k - 1) && RightChild(n, k, pos) < Width(n, k - 1)
  {
  }

  /** The first layer that has a single node. */
  function Height(n: nat): nat
    requires n > 0
  {
    if n == 1 then 0 else 1 + Height((n + 1) / 2)
  }

  lemma {:induction false} WidthShift(n: nat, k: nat)
    ensures Width(n, k + 1) == Width((n + 1) / 2, k)
  {
    if k > 0 {
      WidthShift(n, k - 1);
    }
  }

  lemma {:induction false} WidthAtHeight(n: nat)
    requires n > 0
    ensures Width(n, Height(n)) == 1
  {
    if n > 1 {
      WidthAtHeight((n + 1) / 2);
      WidthShift(n, Height(n) - 1);
    }
  }

  /** Every layer below `Height(n)` has at least two nodes. */
  lemma {:induction false} WidthBelowHeight(n: nat, k: nat)
    requires n > 0 && k < Height(n)
    ensures Width(n, k) > 1
  {
    if k > 0 {
      WidthBelowHeight((n + 1) / 2, k - 1);
      WidthShift(n, k - 1);
    }
  }

  function MerkleRoot(c: Crypto, ids: seq<string>): string {
    if ids == [] then DoubleSha256(c, "")
    else
      WidthAtHeight(|ids|);
      Node(c, ids, Height(|ids|), 0)
  }

  predicate IsLayer(c: Crypto, ids: seq<string>, k: nat, layer: seq<string>) {
    |layer| == Width(|ids|, k) && forall p :: 0 <= p < |layer| ==> layer[p] == Node(c, ids, k, p)
  }

  /** One pass over a layer, two nodes at a time. */
  method HashPairs(c: Crypto, ghost ids: seq<string>, ghost k: nat, layer: seq<string>) returns (nextLayer: seq<string>)
    requires IsLayer(c, ids, k, layer)
    ensures IsLayer(c, ids, k + 1, nextLayer)
  {
    nextLayer := [];
    var i := 0;
    while i < |layer|
      invariant i == 2 * |nextLayer| <= |layer| + 1
      invariant forall p :: 0 <= p < |nextLayer| ==>
                  p < Width(|ids|, k + 1) && nextLayer[p] == Node(c, ids, k + 1, p)
    {
      var sibling := if i + 1 < |layer| then i + 1 else i;
      ghost var p := |nextLayer|;
      assert RightChild(|ids|, k + 1, p) == sibling && p < Width(|ids|, k + 1);
      assert layer[i] == Node(c, ids, k, 2 * p) && layer[sibling] == Node(c, ids, k, sibling);
      assert Node(c, ids, k + 1, p) == DoubleSha256(c, layer[i] + layer[sibling]);
      nextLayer := nextLayer + [DoubleSha256(c, layer[i] + layer[sibling])];
      i := i + 2;
    }
  }

  /** The loop that replaces the layer by the layer above it until one node is left. */
  method CalculateMerkleRoot(c: Crypto, ids: seq<string>) returns (root: string)
    ensures root == MerkleRoot(c, ids)
  {
    if ids == [] {
      return DoubleSha256(c, "");
    }
    var layer := ids;
    ghost var k := 0;
    WidthAtHeight(|ids|);
    while |layer| > 1
      invariant IsLayer(c, ids, k, layer) && layer != []
      invariant k <= Height(|ids|)
      decreases |layer|
    {
      layer := HashPairs(c, ids, k, layer);
      k := k + 1;
    }
    if k < Height(|ids|) {
      WidthBelowHeight(|ids|, k);
    }
    root := layer[0];
  }

  predicate AllWidth64(ids: seq<string>) {
    forall i :: 0 <= i < |ids| ==> |ids[i]| == 64
  }

  /** Leaf `i` contributes to node `pos` of layer `k`. */
  predicate Covers(n: nat, k: nat, pos: nat, i: nat)
    decreases k
  {
    if k == 0 then pos == i
    else Covers(n, k - 1, 2 * pos, i) || Covers(n, k - 1, RightChild(n, k, pos), i)
  }

  lemma {:induction false} CoveredInLayer(n: nat, k: nat, i: nat) returns (pos: nat)
    requires i < n
    ensures pos < Width(n, k) && Covers(n, k, pos, i)
  {
    if k == 0 {
      pos := i;
    } else {
      var p := CoveredInLayer(n, k - 1, i);
      pos := p / 2;
      assert p == 2 * pos || p == RightChild(n, k, pos);
    }
  }

  /** Walk down two trees with the same root until two different preimages of one digest show up. */
  function FindCollision(c: Crypto, xs: seq<string>, ys: seq<string>, k: nat, pos: nat): (string, string)
    requires |xs| == |ys| && pos < Width(|xs|, k)
    decreases k
  {
    if k == 0 then ("", "")
    else
      var r := RightChild(|xs|, k, pos);
      var a := Node(c, xs, k - 1, 2 * pos) + Node(c, xs, k - 1, r);
      var b := Node(c, ys, k - 1, 2 * pos) + Node(c, ys, k - 1, r);
      if a != b then (a, b)
      else
        var left := FindCollision(c, xs, ys, k - 1, 2 * pos);
        if Collides(c, left) then left else FindCollision(c, xs, ys, k - 1, r)
  }

  lemma {:induction false} NodeWidth64(c: Crypto, ids: seq<string>, k: nat, pos: nat)
    requires AllWidth64(ids) && pos < Width(|ids|, k)
    ensures |Node(c, ids, k, pos)| == 64
  {
  }

  lemma SplitConcatenation(a: string, b: string, x: string, y: string)
    requires |a| == |x| && a + b == x + y
    ensures a == x && b == y
  {
    assert a == (a + b)[..|a|] && x == (x + y)[..|x|];
    assert b == (a + b)[|a|..] && y == (x + y)[|x|..];
  }

  predicate AgreeBelow(xs: seq<string>, ys: seq<string>, k: nat, pos: nat)
    requires |xs| == |ys|
  {
    forall i :: 0 <= i < |xs| && Covers(|xs|, k, pos, i) ==> xs[i] == ys[i]
  }

  lemma AgreeOnChildren(xs: seq<string>, ys: seq<string>, k: nat, pos: nat)
    requires |xs| == |ys| && k > 0
    requires AgreeBelow(xs, ys, k - 1, 2 * pos) && AgreeBelow(xs, ys, k - 1, RightChild(|xs|, k, pos))
    ensures AgreeBelow(xs, ys, k, pos)
  {
  }

  predicate SameAt(c: Crypto, xs: seq<string>, ys: seq<string>, k: nat, pos: nat)
    requires |xs| == |ys|
  {
    pos < Width(|xs|, k) && Node(c, xs, k, pos) == Node(c, ys, k, pos)
  }

  /** Equal parents have equal children, or their texts collide. */
  lemma EqualChildren(c: Crypto, xs: seq<string>, ys: seq<string>, k: nat, pos: nat)
    requires |xs| == |ys| && AllWidth64(xs) && AllWidth64(ys) && k > 0 && SameAt(c, xs, ys, k, pos)
    ensures Collides(c, FindCollision(c, xs, ys, k, pos)) ||
            (SameAt(c, xs, ys, k - 1, 2 * pos) && SameAt(c, xs, ys, k - 1, RightChild(|xs|, k, pos)))
  {
    ChildrenInRange(|xs|, k, pos);
    var l, r := 2 * pos, RightChild(|xs|, k, pos);
    var xl, xr := Node(c, xs, k - 1, l), Node(c, xs, k - 1, r);
    var yl, yr := Node(c, ys, k - 1, l), Node(c, ys, k - 1, r);
    if xl + xr == yl + yr {
      NodeWidth64(c, xs, k - 1, l);
      NodeWidth64(c, ys, k - 1, l);
      SplitConcatenation(xl, xr, yl, yr);
    }
  }

  /** Below equal children the search goes on to the left, then to the right. */
  lemma SearchChildren(c: Crypto, xs: seq<string>, ys: seq<string>, k: nat, pos: nat)
    requires |xs| == |ys| && k > 0 && pos < Width(|xs|, k)
    requires SameAt(c, xs, ys, k - 1, 2 * pos) && SameAt(c, xs, ys, k - 1, RightChild(|xs|, k, pos))
    ensures FindCollision(c, xs, ys, k, pos) ==
            var left := FindCollision(c, xs, ys, k - 1, 2 * pos);
            if Collides(c, left) then left else FindCollision(c, xs, ys, k - 1, RightChild(|xs|, k, pos))
  {
  }

  /** Equal nodes stand over equal leaves, or a collision is found below them. */
  lemma {:induction false} EqualNodes(c: Crypto, xs: seq<string>, ys: seq<string>, k: nat, pos: nat)
    requires |xs| == |ys| && AllWidth64(xs) && AllWidth64(ys) && pos < Width(|xs|, k)
    ensures SameAt(c, xs, ys, k, pos) ==> Collides(c, FindCollision(c, xs, ys, k, pos)) || AgreeBelow(xs, ys, k, pos)
    decreases k
  {
    if k > 0 {
      ChildrenInRange(|xs|, k, pos);
      var l, r := 2 * pos, RightChild(|xs|, k, pos);
      EqualNodes(c, xs, ys, k - 1, l);
      EqualNodes(c, xs, ys, k - 1, r);
      if SameAt(c, xs, ys, k, pos) {
        EqualChildren(c, xs, ys, k, pos);
        if SameAt(c, xs, ys, k - 1, l) && SameAt(c, xs, ys, k - 1, r) {
          SearchChildren(c, xs, ys, k, pos);
          if AgreeBelow(xs, ys, k - 1, l) && AgreeBelow(xs, ys, k - 1, r) {
            AgreeOnChildren(xs, ys, k, pos);
          }
        }
      }
    }
  }

  /** The root binds the list: two different lists of equally many ids with one root come with a
      concrete collision of the double hash. */
  lemma MerkleBinding(c: Crypto, xs: seq<string>, ys: seq<string>)
    requires |xs| == |ys| && AllWidth64(xs) && AllWidth64(ys)
    requires MerkleRoot(c, xs) == MerkleRoot(c, ys)
    ensures xs == ys ||
            (Width(|xs|, Height(|xs|)) == 1 && Collides(c, FindCollision(c, xs, ys, Height(|xs|), 0)))
  {
    if xs != [] {
      var h := Height(|xs|);
      WidthAtHeight(|xs|);
      EqualNodes(c, xs, ys, h, 0);
      forall i | 0 <= i < |xs| ensures Covers(|xs|, h, 0, i) {
        var pos := CoveredInLayer(|xs|, h, i);
      }
      assert AgreeBelow(xs, ys, h, 0) ==> xs == ys;
    }
  }

  /** The layer above a list: neighbours are hashed together, and the last node of an odd list with
      itself. */
  function LayerAbove(c: Crypto, ids: seq<string>): seq<string> {
    seq((|ids| + 1) / 2, i requires 0 <= i < (|ids| + 1) / 2 =>
      DoubleSha256(c, ids[2 * i] + ids[if 2 * i + 1 < |ids| then 2 * i + 1 else 2 * i]))
  }

  lemma FirstLayerAbove(c: Crypto, ids: seq<string>, pos: nat)
    requires pos < Width(|ids|, 1)
    ensures |LayerAbove(c, ids)| == Width(|ids|, 1) && Node(c, ids, 1, pos) == LayerAbove(c, ids)[pos]
  {
  }

  /** Above a layer of `m` nodes the tree over `n` leaves looks like the tree over `m` leaves. */
  lemma SameShape(n: nat, m: nat, k: nat, pos: nat, right: nat)
    requires m == (n + 1) / 2 && k > 0 && pos < Width(n, k + 1) && right == RightChild(n, k + 1, pos)
    ensures pos < Width(m, k) && right == RightChild(m, k, pos)
    ensures 2 * pos < Width(n, k) && right < Width(n, k)
    ensures Width(n, k) == Width(m, k - 1)
  {
    WidthShift(n, k);
    WidthShift(n, k - 1);
    ChildrenInRange(n, k + 1, pos);
  }

  /** Nodes over equal children are equal. */
  lemma EqualParents(c: Crypto, xs: seq<string>, j: nat, ys: seq<string>, k: nat, pos: nat, right: nat)
    requires j > 0 && k > 0 && pos < Width(|xs|, j) && pos < Width(|ys|, k)
    requires right == RightChild(|xs|, j, pos) == RightChild(|ys|, k, pos)
    requires right < Width(|xs|, j - 1) && right < Width(|ys|, k - 1)
    requires Node(c, xs, j - 1, 2 * pos) == Node(c, ys, k - 1, 2 * pos)
    requires Node(c, xs, j - 1, right) == Node(c, ys, k - 1, right)
    ensures Node(c, xs, j, pos) == Node(c, ys, k, pos)
  {
  }

  lemma {:induction false} NodeOfLayerAbove(c: Crypto, ids: seq<string>, k: nat, pos: nat, above: seq<string>)
    requires pos < Width(|ids|, k + 1) && above == LayerAbove(c, ids)
    ensures pos < Width(|above|, k)
    ensures Node(c, ids, k + 1, pos) == Node(c, above, k, pos)
  {
    if k == 0 {
      FirstLayerAbove(c, ids, pos);
    } else {
      var right := RightChild(|ids|, k + 1, pos);
      SameShape(|ids|, |above|, k, pos, right);
      NodeOfLayerAbove(c, ids, k - 1, 2 * pos, above);
      NodeOfLayerAbove(c, ids, k - 1, right, above);
      EqualParents(c, ids, k + 1, above, k, pos, right);
    }
  }

  /** The root of a single id is that id, and the root of a longer list is the root of the layer above. */
  lemma RootIsRootOfLayerAbove(c: Crypto, ids: seq<string>)
    requires ids != []
    ensures MerkleRoot(c, ids) == if |ids| == 1 then ids[0] else MerkleRoot(c, LayerAbove(c, ids))
  {
    WidthAtHeight(|ids|);
    if |ids| > 1 {
      NodeOfLayerAbove(c, ids, Height(|ids|) - 1, 0, LayerAbove(c, ids));
    }
  }

  /** The root does not bind the length of a list: repeating the last id of any odd list of three or more
      leaves the root as it is. */
  lemma RepeatedLastIdKeepsRoot(c: Crypto, ids: seq<string>)
    requires |ids| % 2 == 1 && |ids| >= 3
    ensures MerkleRoot(c, ids + [ids[|ids| - 1]]) == MerkleRoot(c, ids)
  {
    var longer := ids + [ids[|ids| - 1]];
    assert LayerAbove(c, longer) == LayerAbove(c, ids);
    RootIsRootOfLayerAbove(c, ids);
    RootIsRootOfLayerAbove(c, longer);
  }

  lemma LayerAboveIsShorter(c: Crypto, ids: seq<string>)
    requires |ids| >= 2
    ensures 0 < |LayerAbove(c, ids)| < |ids| && AllWidth64(LayerAbove(c, ids))
  {
  }

  /** The root of two or more ids is the double hash of two nodes of 64 characters. */
  lemma RootOfMany(c: Crypto, ids: seq<string>) returns (x: string, y: string)
    requires |ids| >= 2 && AllWidth64(ids)
    ensures |x| == |y| == 64 && MerkleRoot(c, ids) == DoubleSha256(c, x + y)
  {
    var h := Height(|ids|);
    WidthAtHeight(|ids|);
    ChildrenInRange(|ids|, h, 0);
    var right := RightChild(|ids|, h, 0);
    x, y := Node(c, ids, h - 1, 0), Node(c, ids, h - 1, right);
    NodeWidth64(c, ids, h - 1, 0);
    NodeWidth64(c, ids, h - 1, right);
  }

  lemma RootOfPair(c: Crypto, x: string, y: string)
    ensures MerkleRoot(c, [x, y]) == DoubleSha256(c, x + y)
  {
    RootIsRootOfLayerAbove(c, [x, y]);
    assert LayerAbove(c, [x, y]) == [DoubleSha256(c, x + y)];
    RootIsRootOfLayerAbove(c, [DoubleSha256(c, x + y)]);
  }

  ghost predicate SharesRoot(c: Crypto, ids: seq<string>, ys: seq<string>) {
    |ys| != |ids| && AllWidth64(ys) && MerkleRoot(c, ys) == MerkleRoot(c, ids)
  }

  /** The id is the root of an empty list or of two nodes. */
  ghost predicate IsRootLike(c: Crypto, id: string) {
    id == DoubleSha256(c, "") || exists x: string, y: string :: |x| == |y| == 64 && id == DoubleSha256(c, x + y)
  }

  lemma OtherLength(c: Crypto, ids: seq<string>) returns (ys: seq<string>)
    requires AllWidth64(ids) && (|ids| != 1 || IsRootLike(c, ids[0]))
    ensures SharesRoot(c, ids, ys)
  {
    if |ids| >= 2 {
      ys := LayerAbove(c, ids);
      LayerAboveIsShorter(c, ids);
      RootIsRootOfLayerAbove(c, ids);
    } else if |ids| == 0 {
      ys := [DoubleSha256(c, "")];
      RootIsRootOfLayerAbove(c, ys);
    } else {
      RootIsRootOfLayerAbove(c, ids);
      if ids[0] == DoubleSha256(c, "") {
        ys := [];
      } else {
        var x: string, y: string :| |x| == |y| == 64 && ids[0] == DoubleSha256(c, x + y);
        ys := [x, y];
        RootOfPair(c, x, y);
      }
    }
  }

  /** The root binds the number of ids only for a single id that is itself no root: in every other case
      a list of another length has the same root. */
  lemma LengthIsNotBoundIff(c: Crypto, ids: seq<string>)
    requires AllWidth64(ids)
    ensures (exists ys :: SharesRoot(c, ids, ys)) <==> |ids| != 1 || IsRootLike(c, ids[0])
  {
    if |ids| != 1 || IsRootLike(c, ids[0]) {
      var ys := OtherLength(c, ids);
    }
    if ys :| SharesRoot(c, ids, ys) && |ids| == 1 {
      RootIsRootOfLayerAbove(c, ids);
      if |ys| >= 2 {
        var x, y := RootOfMany(c, ys);
      }
    }
  }
}
