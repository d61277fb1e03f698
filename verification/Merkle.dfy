/** The Merkle tree over checkpoint events: how the root is built and what it commits to. */
module Merkle {
  import opened Wrappers

  datatype Item = Item(ordinal: int, id: string, digest: string)

  // ----- digests -----

  predicate IsHexDigit(c: char) {
    '0' <= c <= '9' || 'a' <= c <= 'f'
  }

  predicate IsSha256(s: string) {
    |s| == 64 && forall c :: c in s ==> IsHexDigit(c)
  }

  /** Every output of the hash is a lowercase hexadecimal digest. */
  ghost predicate ProducesDigests(sha: string -> string) {
    forall text :: IsSha256(sha(text))
  }

  /** No two different texts of this finite set share a digest. */
  ghost predicate CollisionFree(sha: string -> string, texts: set<string>) {
    forall p, q :: p in texts && q in texts && sha(p) == sha(q) ==> p == q
  }

  const LEAF_TAG := "WS-ECHO-CHECKPOINT-LEAF-V1\0"
  const NODE_TAG := "WS-ECHO-CHECKPOINT-NODE-V1\0"
  const TAG_LENGTH := 27

  /** Digests are written in hexadecimal, a one-to-one image of the raw bytes the source concatenates. */
  function LeafText(id: string, digest: string): string {
    LEAF_TAG + id + "\0" + digest
  }

  function NodeText(left: string, right: string): string {
    NODE_TAG + left + right
  }

  lemma LeafTextInjective(id: string, digest: string, id': string, digest': string)
    requires |digest| == |digest'| && LeafText(id, digest) == LeafText(id', digest')
    ensures id == id' && digest == digest'
  {
    var n, m := TAG_LENGTH + |id|, TAG_LENGTH + |id'|;
    assert |LEAF_TAG| == TAG_LENGTH;
    var text, text' := LeafText(id, digest), LeafText(id', digest');
    assert |text| == n + 1 + |digest| && |text'| == m + 1 + |digest'|;
    assert text[TAG_LENGTH..n] == id && text'[TAG_LENGTH..m] == id';
    assert text[n + 1..] == digest && text'[m + 1..] == digest';
  }

  lemma NodeTextInjective(l: string, r: string, l': string, r': string)
    requires |l| == |l'| && NodeText(l, r) == NodeText(l', r')
    ensures l == l' && r == r'
  {
    assert |NODE_TAG| == TAG_LENGTH;
    var text, text', n := NodeText(l, r), NodeText(l', r'), TAG_LENGTH + |l|;
    assert text[TAG_LENGTH..n] == l && text'[TAG_LENGTH..n] == l';
    assert text[n..] == r && text'[n..] == r';
  }

  lemma LeafIsNotNode(id: string, digest: string, l: string, r: string)
    ensures LeafText(id, digest) != NodeText(l, r)
  {
    assert LeafText(id, digest)[19] == 'L';
    assert NodeText(l, r)[19] == 'N';
  }

  // ----- trees -----

  datatype Tree = Leaf(id: string, digest: string) | Node(left: Tree, right: Tree) {

    function Text(sha: string -> string): string
      decreases this, 0
    {
      match this
      case Leaf(id, digest) => LeafText(id, digest)
      case Node(left, right) => NodeText(left.Hash(sha), right.Hash(sha))
    }

    function Hash(sha: string -> string): string
      decreases this, 1
    {
      sha(Text(sha))
    }

    /** All texts hashed to compute the hash of this tree. */
    function Texts(sha: string -> string): set<string> {
      {Text(sha)} + if Leaf? then {} else left.Texts(sha) + right.Texts(sha)
    }

    predicate HasDigests() {
      if Leaf? then IsSha256(digest) else left.HasDigests() && right.HasDigests()
    }

    /** All leaves are the same number of edges below the root. */
    predicate IsPerfect(height: nat) {
      if Leaf? then height == 0 else height > 0 && left.IsPerfect(height - 1) && right.IsPerfect(height - 1)
    }
  }

  /** Equal hashes mean equal trees, unless the computation itself exhibits a collision. */
  lemma {:induction false} HashInjective(sha: string -> string, t: Tree, u: Tree)
    requires ProducesDigests(sha) && CollisionFree(sha, t.Texts(sha) + u.Texts(sha))
    requires t.HasDigests() && u.HasDigests() && t.Hash(sha) == u.Hash(sha)
    ensures t == u
    decreases t
  {
    assert t.Text(sha) in t.Texts(sha) && u.Text(sha) in u.Texts(sha);
    assert t.Text(sha) == u.Text(sha);
    hide LeafText, NodeText;
    match (t, u) {
      case (Leaf(a, x), Leaf(b, y)) =>
        LeafTextInjective(a, x, b, y);
      case (Node(l, r), Node(l', r')) =>
        assert IsSha256(l.Hash(sha)) && IsSha256(l'.Hash(sha));
        NodeTextInjective(l.Hash(sha), r.Hash(sha), l'.Hash(sha), r'.Hash(sha));
        HashInjective(sha, l, l');
        HashInjective(sha, r, r');
      case (Leaf(a, x), Node(l, r)) =>
        LeafIsNotNode(a, x, l.Hash(sha), r.Hash(sha));
      case (Node(l, r), Leaf(a, x)) =>
        LeafIsNotNode(a, x, l.Hash(sha), r.Hash(sha));
    }
  }

  // ----- layers -----

  /** One step up: neighbours are joined, and the last tree of an odd layer is joined with itself. */
  function Pair(layer: seq<Tree>): (r: seq<Tree>)
    ensures |r| == (|layer| + 1) / 2
  {
    seq((|layer| + 1) / 2, (i: nat) requires 2 * i < |layer| =>
      Node(layer[2 * i], if 2 * i + 1 < |layer| then layer[2 * i + 1] else layer[2 * i]))
  }

  function Climb(layer: seq<Tree>): Tree
    requires layer != []
    decreases |layer|
  {
    if |layer| == 1 then layer[0] else Climb(Pair(layer))
  }

  ghost predicate Distinct(layer: seq<Tree>) {
    forall i, j :: 0 <= i < j < |layer| ==> layer[i] != layer[j]
  }

  ghost predicate PerfectLayer(layer: seq<Tree>, height: nat) {
    forall i :: 0 <= i < |layer| ==> layer[i].IsPerfect(height)
  }

  lemma PairKeepsDistinct(layer: seq<Tree>)
    requires Distinct(layer)
    ensures Distinct(Pair(layer))
  {
    var up := Pair(layer);
    forall i, j | 0 <= i < j < |up| ensures up[i] != up[j] {
      assert up[i].left == layer[2 * i] && up[j].left == layer[2 * j];
    }
  }

  lemma PairIsPerfect(layer: seq<Tree>, height: nat)
    requires PerfectLayer(layer, height)
    ensures PerfectLayer(Pair(layer), height + 1)
  {
    var up := Pair(layer);
    forall i | 0 <= i < |up| ensures up[i].IsPerfect(height + 1) {
      assert layer[2 * i].IsPerfect(height);
      assert 2 * i + 1 < |layer| ==> layer[2 * i + 1].IsPerfect(height);
    }
  }

  /** Distinct trees make the duplicated last one recognisable, so a layer is determined by the one above it. */
  lemma PairInjective(layer: seq<Tree>, other: seq<Tree>)
    requires Distinct(layer) && Distinct(other) && layer != [] && other != []
    requires Pair(layer) == Pair(other)
    ensures layer == other
  {
    var up, last := Pair(layer), Pair(layer)[|Pair(layer)| - 1];
    SameLastParity(layer, last);
    SameLastParity(other, last);
    forall k | 0 <= k < |layer| ensures layer[k] == other[k] {
      if k % 2 == 0 {
        assert up[k / 2].left == layer[k] && up[k / 2].left == other[k];
      } else {
        assert up[k / 2].right == layer[k] && up[k / 2].right == other[k];
      }
    }
  }

  lemma SameLastParity(layer: seq<Tree>, last: Tree)
    requires Distinct(layer) && layer != [] && last == Pair(layer)[|Pair(layer)| - 1]
    ensures last.Node? && (last.left == last.right <==> |layer| % 2 == 1)
  {
    var k := |Pair(layer)| - 1;
    assert last.left == layer[2 * k];
    if |layer| % 2 == 0 {
      assert last.right == layer[2 * k + 1];
    }
  }

  lemma {:induction false} ClimbHeight(layer: seq<Tree>, height: nat) returns (top: nat)
    requires layer != [] && PerfectLayer(layer, height)
    ensures Climb(layer).IsPerfect(top) && top >= height && (|layer| > 1 ==> top > height)
    decreases |layer|
  {
    if |layer| == 1 {
      top := height;
    } else {
      PairIsPerfect(layer, height);
      top := ClimbHeight(Pair(layer), height + 1);
    }
  }

  lemma {:induction false} PerfectHeightUnique(t: Tree, h: nat, k: nat)
    requires t.IsPerfect(h) && t.IsPerfect(k)
    ensures h == k
    decreases t
  {
    if t.Leaf? {
    } else {
      PerfectHeightUnique(t.left, h - 1, k - 1);
    }
  }

  lemma {:induction false} ClimbInjective(layer: seq<Tree>, other: seq<Tree>, height: nat)
    requires layer != [] && other != [] && Distinct(layer) && Distinct(other)
    requires PerfectLayer(layer, height) && PerfectLayer(other, height)
    requires Climb(layer) == Climb(other)
    ensures layer == other
    decreases |layer|
  {
    var top := ClimbHeight(layer, height);
    var top' := ClimbHeight(other, height);
    PerfectHeightUnique(Climb(layer), top, top');
    if |layer| > 1 && |other| > 1 {
      PairKeepsDistinct(layer);
      PairKeepsDistinct(other);
      PairIsPerfect(layer, height);
      PairIsPerfect(other, height);
      ClimbInjective(Pair(layer), Pair(other), height + 1);
      PairInjective(layer, other);
    } else if |layer| > 1 {
      PerfectHeightUnique(Climb(other), top', height);
    } else if |other| > 1 {
      PerfectHeightUnique(Climb(layer), top, height);
    }
  }

  // ----- event lists -----

  function Leaves(items: seq<Item>): (r: seq<Tree>)
    ensures |r| == |items|
  {
    seq(|items|, (i: nat) requires i < |items| => Leaf(items[i].id, items[i].digest))
  }

  function RootTree(items: seq<Item>): Tree
    requires items != []
  {
    Climb(Leaves(items))
  }

  function Root(sha: string -> string, items: seq<Item>): string
    requires items != []
  {
    RootTree(items).Hash(sha)
  }

  predicate LeafValid(item: Item) {
    item.id != "" && IsSha256(item.digest)
  }

  predicate LeavesValid(items: seq<Item>) {
    forall i :: 0 <= i < |items| ==> LeafValid(items[i])
  }

  /** The verifier's ordinal check: positions count from one. */
  ghost predicate Ordinal(items: seq<Item>) {
    forall i :: 0 <= i < |items| ==> items[i].ordinal == i + 1
  }

  ghost predicate DistinctIds(items: seq<Item>) {
    forall i, j :: 0 <= i < j < |items| ==> items[i].id != items[j].id
  }

  /** The source raises for an empty list and for an invalid leaf. */
  function ExpectedRoot(sha: string -> string, items: seq<Item>): Option<string> {
    if items == [] || !LeavesValid(items) then None else Some(Root(sha, items))
  }

  function Hashes(sha: string -> string, layer: seq<Tree>): (r: seq<string>)
    ensures |r| == |layer|
  {
    seq(|layer|, (i: nat) requires i < |layer| => layer[i].Hash(sha))
  }

  /** The source's loop: hash the leaves, then halve the layer until one digest is left. */
  method MerkleRoot(sha: string -> string, items: seq<Item>) returns (root: Option<string>)
    ensures root == ExpectedRoot(sha, items)
  {
    if items == [] {
      return None;
    }
    var layer: seq<string> := [];
    for k := 0 to |items|
      invariant LeavesValid(items[..k])
      invariant layer == Hashes(sha, Leaves(items))[..k]
    {
      var digestValid := CheckDigest(items[k].digest);
      if items[k].id == "" || !digestValid {
        return None;
      }
      ghost var leaf := Leaves(items)[k];
      assert leaf.Text(sha) == LeafText(items[k].id, items[k].digest);
      layer := layer + [sha("WS-ECHO-CHECKPOINT-LEAF-V1\0" + items[k].id + "\0" + items[k].digest)];
      assert layer[k] == leaf.Hash(sha);
      assert LeavesValid(items[..k + 1]);
    }
    assert items[..|items|] == items;
    ghost var trees := Leaves(items);
    assert layer == Hashes(sha, trees);
    while |layer| > 1
      invariant trees != [] && layer == Hashes(sha, trees) && Climb(trees) == RootTree(items)
      decreases |layer|
    {
      layer := HashPairs(sha, layer, trees);
      trees := Pair(trees);
    }
    root := Some(layer[0]);
  }

  /** Sixty-four lowercase hexadecimal digits. */
  method CheckDigest(s: string) returns (ok: bool)
    ensures ok == IsSha256(s)
  {
    if |s| != 64 {
      return false;
    }
    for i := 0 to |s|
      invariant forall j :: 0 <= j < i ==> IsHexDigit(s[j])
    {
      if !('0' <= s[i] <= '9') && !('a' <= s[i] <= 'f') {
        assert s[i] in s;
        return false;
      }
    }
    return true;
  }

  method HashPairs(sha: string -> string, layer: seq<string>, ghost trees: seq<Tree>) returns (up: seq<string>)
    requires |layer| > 1 && layer == Hashes(sha, trees)
    ensures up == Hashes(sha, Pair(trees))
  {
    var even := layer;
    if |even| % 2 != 0 {
      even := even + [even[|even| - 1]];
    }
    up := [];
    var i := 0;
    while i < |even|
      invariant 0 <= i <= |even| && i % 2 == 0 && |up| == i / 2
      invariant up == Hashes(sha, Pair(trees))[..i / 2]
    {
      ghost var node := Pair(trees)[i / 2];
      assert node.left.Hash(sha) == even[i] && node.right.Hash(sha) == even[i + 1];
      assert node.Text(sha) == NodeText(even[i], even[i + 1]);
      up := up + [sha("WS-ECHO-CHECKPOINT-NODE-V1\0" + even[i] + even[i + 1])];
      assert up[i / 2] == node.Hash(sha);
      i := i + 2;
    }
  }

  lemma {:induction false} LeavesHaveDigests(layer: seq<Tree>)
    requires layer != [] && forall i :: 0 <= i < |layer| ==> layer[i].HasDigests()
    ensures Climb(layer).HasDigests()
    decreases |layer|
  {
    if |layer| <= 1 {
    } else {
      var up := Pair(layer);
      forall i | 0 <= i < |up| ensures up[i].HasDigests() {
        assert layer[2 * i].HasDigests();
      }
      LeavesHaveDigests(up);
    }
  }

  /** A root commits to its event list: equal roots mean equal lists, whatever their lengths. */
  lemma RootBindsEvents(sha: string -> string, xs: seq<Item>, ys: seq<Item>)
    requires ProducesDigests(sha) && xs != [] && ys != []
    requires LeavesValid(xs) && LeavesValid(ys) && Ordinal(xs) && Ordinal(ys) && DistinctIds(xs) && DistinctIds(ys)
    requires CollisionFree(sha, RootTree(xs).Texts(sha) + RootTree(ys).Texts(sha))
    requires Root(sha, xs) == Root(sha, ys)
    ensures xs == ys
  {
    LeavesHaveDigests(Leaves(xs));
    LeavesHaveDigests(Leaves(ys));
    HashInjective(sha, RootTree(xs), RootTree(ys));
    ClimbInjective(Leaves(xs), Leaves(ys), 0);
    forall k | 0 <= k < |xs| ensures xs[k] == ys[k] {
      assert Leaves(xs)[k] == Leaves(ys)[k];
    }
  }

  /** Without distinct identifiers the root is ambiguous: repeating the last of three events keeps it. */
  lemma RepeatedLastEventKeepsRoot(sha: string -> string, a: Item, b: Item, c: Item)
    ensures Root(sha, [a, b, c]) == Root(sha, [a, b, c, c])
  {
    assert Pair(Leaves([a, b, c])) == Pair(Leaves([a, b, c, c]));
  }
}
