/** Merkle roots as the node and the chain compute them. SHA-256 is any function
    from byte strings to 32 bytes; every binding result assumes only that it has
    no collision among the finitely many inputs the two compared trees hash. */
module Merkle {
  import opened Machine
  import opened Records

  type Sha = Bytes -> Hash32

  function Zero(): Hash32 { seq(32, _ => 0) }

  // Domain separation: 0x00 before a record, 0x01 before two child hashes.
  function LeafInput(record: Bytes): Bytes { [0] + record }
  function ParentInput(left: Hash32, right: Hash32): Bytes { [1] + left + right }

  function Leaf(sha: Sha, record: Bytes): Hash32 { sha(LeafInput(record)) }
  function Parent(sha: Sha, left: Hash32, right: Hash32): Hash32 { sha(ParentInput(left, right)) }

  // ----- bottom up: one level from the one below, an odd last node paired with itself

  function NextLevel(sha: Sha, level: seq<Hash32>): (next: seq<Hash32>)
    ensures |level| <= 2 * |next| <= |level| + 1
  {
    if |level| == 0 then []
    else if |level| == 1 then [Parent(sha, level[0], level[0])]
    else [Parent(sha, level[0], level[1])] + NextLevel(sha, level[2..])
  }

  function Root(sha: Sha, leaves: seq<Hash32>): Hash32
    decreases |leaves|
  {
    if |leaves| == 0 then Zero()
    else if |leaves| == 1 then leaves[0]
    else Root(sha, NextLevel(sha, leaves))
  }

  lemma RootStep(sha: Sha, leaves: seq<Hash32>)
    requires |leaves| >= 2
    ensures Root(sha, leaves) == Root(sha, NextLevel(sha, leaves))
  {}

  lemma {:induction false} NextLevelConcat(sha: Sha, a: seq<Hash32>, b: seq<Hash32>, pairs: nat)
    requires |a| == 2 * pairs
    ensures NextLevel(sha, a + b) == NextLevel(sha, a) + NextLevel(sha, b)
  {
    if |a| == 0 {
      assert a + b == b;
    } else {
      assert (a + b)[2..] == a[2..] + b;
      NextLevelConcat(sha, a[2..], b, pairs - 1);
    }
  }

  method ComputeRoot(sha: Sha, leaves: seq<Hash32>) returns (root: Hash32)
    ensures root == Root(sha, leaves)
  {
    if |leaves| == 0 { return Zero(); }
    var level := leaves;
    while |level| > 1
      invariant |level| >= 1 && Root(sha, level) == Root(sha, leaves)
      decreases |level|
    {
      var next: seq<Hash32> := [];
      var index := 0;
      ghost var pairs: nat := 0;
      while index < |level|
        invariant index == 2 * pairs
        invariant next == NextLevel(sha, level[..Min(index, |level|)])
      {
        var left := level[index];
        var right := if index + 1 < |level| then level[index + 1] else left;
        LevelStep(sha, level, pairs);
        next := next + [Parent(sha, left, right)];
        index, pairs := index + 2, pairs + 1;
      }
      assert level[..|level|] == level;
      level := next;
    }
    root := level[0];
  }

  lemma LevelStep(sha: Sha, level: seq<Hash32>, pairs: nat)
    requires 2 * pairs < |level|
    ensures NextLevel(sha, level[..Min(2 * pairs + 2, |level|)])
         == NextLevel(sha, level[..2 * pairs])
          + [Parent(sha, level[2 * pairs], level[if 2 * pairs + 1 < |level| then 2 * pairs + 1 else 2 * pairs])]
  {
    var index := 2 * pairs;
    var end := Min(index + 2, |level|);
    var pair := level[index..end];
    assert level[..end] == level[..index] + pair;
    NextLevelConcat(sha, level[..index], pair, pairs);
    assert |pair| == 2 ==> pair[2..] == [];
  }

  // ----- top down: split at the power of two below the tree's width, as in
  // section 2.1 of RFC 6962, but lift a short right part by pairing it with itself

  function Pow2(n: nat): nat { if n == 0 then 1 else 2 * Pow2(n - 1) }

  /** The number of levels above the leaves. */
  function Height(n: nat): (h: nat)
    requires n > 0
    ensures n <= Pow2(h)
  {
    if n == 1 then 0 else Height((n + 1) / 2) + 1
  }

  lemma HeightStep(n: nat, next: nat)
    requires n >= 2 && n <= 2 * next <= n + 1
    ensures Height(n) == Height(next) + 1
  {}

  /** The two halves of a tree of height `h`; a list that fits the left half
      fills both. */
  function LeftOf<T>(s: seq<T>, h: nat): (l: seq<T>)
    requires h > 0 && 0 < |s| <= Pow2(h)
    ensures 0 < |l| <= Pow2(h - 1)
  {
    if |s| <= Pow2(h - 1) then s else s[..Pow2(h - 1)]
  }

  function RightOf<T>(s: seq<T>, h: nat): (r: seq<T>)
    requires h > 0 && 0 < |s| <= Pow2(h)
    ensures 0 < |r| <= Pow2(h - 1)
  {
    if |s| <= Pow2(h - 1) then s else s[Pow2(h - 1)..]
  }

  function Subtree(sha: Sha, leaves: seq<Hash32>, h: nat): Hash32
    requires 0 < |leaves| <= Pow2(h)
    decreases h
  {
    if h == 0 then leaves[0]
    else Parent(sha, Subtree(sha, LeftOf(leaves, h), h - 1), Subtree(sha, RightOf(leaves, h), h - 1))
  }

  lemma HalvesOfNextLevel(sha: Sha, leaves: seq<Hash32>, h: nat)
    requires h > 1 && 0 < |leaves| <= Pow2(h)
    ensures LeftOf(NextLevel(sha, leaves), h - 1) == NextLevel(sha, LeftOf(leaves, h))
    ensures RightOf(NextLevel(sha, leaves), h - 1) == NextLevel(sha, RightOf(leaves, h))
  {
    var quarter := Pow2(h - 2);
    assert Pow2(h - 1) == 2 * quarter;
    if |leaves| > 2 * quarter { NextLevelSplit(sha, leaves, quarter); }
  }

  lemma NextLevelSplit(sha: Sha, leaves: seq<Hash32>, pairs: nat)
    requires 2 * pairs < |leaves|
    ensures var next := NextLevel(sha, leaves);
            && pairs < |next|
            && next[..pairs] == NextLevel(sha, leaves[..2 * pairs])
            && next[pairs..] == NextLevel(sha, leaves[2 * pairs..])
  {
    var a, b := leaves[..2 * pairs], leaves[2 * pairs..];
    assert leaves == a + b;
    NextLevelConcat(sha, a, b, pairs);
  }

  lemma SubtreeStep(sha: Sha, leaves: seq<Hash32>, h: nat)
    requires h > 0 && 0 < |leaves| <= Pow2(h)
    ensures Subtree(sha, leaves, h)
         == Parent(sha, Subtree(sha, LeftOf(leaves, h), h - 1), Subtree(sha, RightOf(leaves, h), h - 1))
  {}

  lemma SubtreeOfPair(sha: Sha, leaves: seq<Hash32>)
    requires 0 < |leaves| <= 2
    ensures Subtree(sha, NextLevel(sha, leaves), 0) == Subtree(sha, leaves, 1)
  {
    SubtreeStep(sha, leaves, 1);
  }

  lemma {:induction false} SubtreeOfNextLevel(sha: Sha, leaves: seq<Hash32>, h: nat)
    requires h > 0 && 0 < |leaves| <= Pow2(h)
    ensures |NextLevel(sha, leaves)| <= Pow2(h - 1)
    ensures Subtree(sha, NextLevel(sha, leaves), h - 1) == Subtree(sha, leaves, h)
  {
    assert Pow2(h) == 2 * Pow2(h - 1);
    if h == 1 {
      SubtreeOfPair(sha, leaves);
    } else {
      HalvesOfNextLevel(sha, leaves, h);
      SubtreeOfNextLevel(sha, LeftOf(leaves, h), h - 1);
      SubtreeOfNextLevel(sha, RightOf(leaves, h), h - 1);
      SubtreeStep(sha, leaves, h);
      SubtreeStep(sha, NextLevel(sha, leaves), h - 1);
    }
  }

  /** The level-by-level root is the top-down root. */
  lemma {:induction false} RootIsTopDown(sha: Sha, leaves: seq<Hash32>, h: nat)
    requires |leaves| > 0 && h == Height(|leaves|)
    ensures Root(sha, leaves) == Subtree(sha, leaves, h)
    decreases h
  {
    if |leaves| > 1 {
      var next := NextLevel(sha, leaves);
      HeightStep(|leaves|, |next|);
      RootIsTopDown(sha, next, h - 1);
      var below := Subtree(sha, next, h - 1);
      assert Root(sha, leaves) == below by { RootStep(sha, leaves); }
      assert Subtree(sha, leaves, h) == below by { SubtreeOfNextLevel(sha, leaves, h); }
    }
  }

  // ----- what a root commits to

  /** The finished tree, a lifted part standing on both sides of its parent. */
  datatype Tree = Tip(record: Bytes) | Fork(left: Tree, right: Tree)

  function TreeOf(records: seq<Bytes>, h: nat): Tree
    requires 0 < |records| <= Pow2(h)
    decreases h
  {
    if h == 0 then Tip(records[0])
    else Fork(TreeOf(LeftOf(records, h), h - 1), TreeOf(RightOf(records, h), h - 1))
  }

  function CommittedTree(records: seq<Bytes>): Tree
    requires |records| > 0
  {
    TreeOf(records, Height(|records|))
  }

  function Digest(sha: Sha, t: Tree): Hash32
    decreases t, 1
  {
    sha(TopInput(sha, t))
  }

  function TopInput(sha: Sha, t: Tree): Bytes
    decreases t, 0
  {
    match t
    case Tip(record) => LeafInput(record)
    case Fork(l, r) => ParentInput(Digest(sha, l), Digest(sha, r))
  }

  /** Every byte string hashed in the tree, leaves included. */
  ghost function Hashed(sha: Sha, t: Tree): set<Bytes>
  {
    {TopInput(sha, t)} + if t.Tip? then {} else Hashed(sha, t.left) + Hashed(sha, t.right)
  }

  ghost predicate CollisionFree(sha: Sha, inputs: set<Bytes>)
  {
    forall x, y {:trigger Collide(sha, x, y)} :: x in inputs && y in inputs ==> !Collide(sha, x, y)
  }

  predicate Collide(sha: Sha, x: Bytes, y: Bytes) { x != y && sha(x) == sha(y) }

  /** Equal digests mean equal trees. */
  lemma {:induction false} DigestBinds(sha: Sha, s: Tree, t: Tree, inputs: set<Bytes>)
    requires Digest(sha, s) == Digest(sha, t)
    requires Hashed(sha, s) <= inputs && Hashed(sha, t) <= inputs && CollisionFree(sha, inputs)
    ensures s == t
  {
    assert !Collide(sha, TopInput(sha, s), TopInput(sha, t));
    InputInjective(sha, s, t);
    if s.Fork? {
      DigestBinds(sha, s.left, t.left, inputs);
      DigestBinds(sha, s.right, t.right, inputs);
    }
  }

  /** Domain separation and fixed-width children make an input unambiguous. */
  lemma InputInjective(sha: Sha, s: Tree, t: Tree)
    requires TopInput(sha, s) == TopInput(sha, t)
    ensures s.Tip? ==> s == t
    ensures s.Fork? ==> t.Fork? && Digest(sha, s.left) == Digest(sha, t.left)
    ensures s.Fork? ==> t.Fork? && Digest(sha, s.right) == Digest(sha, t.right)
  {
    var x, y := TopInput(sha, s), TopInput(sha, t);
    assert x[0] == (if s.Tip? then 0 else 1) && y[0] == (if t.Tip? then 0 else 1);
    if s.Tip? {
      assert x[1..] == s.record && y[1..] == t.record;
    } else {
      assert x[1..33] == Digest(sha, s.left) && x[33..] == Digest(sha, s.right);
      assert y[1..33] == Digest(sha, t.left) && y[33..] == Digest(sha, t.right);
    }
  }

  function Leaves(sha: Sha, records: seq<Bytes>): (r: seq<Hash32>)
    ensures |r| == |records| && forall i :: 0 <= i < |r| ==> r[i] == Leaf(sha, records[i])
  {
    seq(|records|, i requires 0 <= i < |records| => Leaf(sha, records[i]))
  }

  function RecordRoot(sha: Sha, records: seq<Bytes>): Hash32 { Root(sha, Leaves(sha, records)) }

  lemma {:induction false} SubtreeIsDigest(sha: Sha, records: seq<Bytes>, h: nat)
    requires 0 < |records| <= Pow2(h)
    ensures Subtree(sha, Leaves(sha, records), h) == Digest(sha, TreeOf(records, h))
  {
    if h > 0 {
      SubtreeIsDigest(sha, LeftOf(records, h), h - 1);
      SubtreeIsDigest(sha, RightOf(records, h), h - 1);
      LeavesHalves(sha, records, h);
    }
  }

  lemma LeavesHalves(sha: Sha, records: seq<Bytes>, h: nat)
    requires h > 0 && 0 < |records| <= Pow2(h)
    ensures LeftOf(Leaves(sha, records), h) == Leaves(sha, LeftOf(records, h))
    ensures RightOf(Leaves(sha, records), h) == Leaves(sha, RightOf(records, h))
  {}

  /** The root the node computes is the digest of the committed tree. */
  lemma RootIsDigest(sha: Sha, records: seq<Bytes>)
    requires |records| > 0
    ensures RecordRoot(sha, records) == Digest(sha, CommittedTree(records))
  {
    RootIsTopDown(sha, Leaves(sha, records), Height(|records|));
    SubtreeIsDigest(sha, records, Height(|records|));
  }

  /** The inputs the whole computation of a root hashes. */
  ghost function TreeInputs(sha: Sha, records: seq<Bytes>): set<Bytes>
  {
    if |records| == 0 then {} else Hashed(sha, CommittedTree(records))
  }

  lemma {:induction false} TreeDeterminesRecords(a: seq<Bytes>, b: seq<Bytes>, h: nat)
    requires 0 < |a| == |b| <= Pow2(h) && TreeOf(a, h) == TreeOf(b, h)
    ensures a == b
  {
    if h > 0 {
      var al, ar, bl, br := LeftOf(a, h), RightOf(a, h), LeftOf(b, h), RightOf(b, h);
      TreeDeterminesRecords(al, bl, h - 1);
      TreeDeterminesRecords(ar, br, h - 1);
      if |a| > Pow2(h - 1) { assert a == al + ar && b == bl + br; }
    }
  }

  /** Exactly what a root without its leaf count commits to: the finished tree. */
  lemma RootCommitsToTree(sha: Sha, a: seq<Bytes>, b: seq<Bytes>)
    requires |a| > 0 && |b| > 0
    requires CollisionFree(sha, TreeInputs(sha, a) + TreeInputs(sha, b))
    ensures RecordRoot(sha, a) == RecordRoot(sha, b) <==> CommittedTree(a) == CommittedTree(b)
  {
    RootIsDigest(sha, a);
    RootIsDigest(sha, b);
    if RecordRoot(sha, a) == RecordRoot(sha, b) {
      DigestBinds(sha, CommittedTree(a), CommittedTree(b), TreeInputs(sha, a) + TreeInputs(sha, b));
    }
  }

  /** Root and leaf count together determine the records. */
  lemma CommitmentBinds(sha: Sha, a: seq<Bytes>, b: seq<Bytes>)
    requires |a| == |b| && RecordRoot(sha, a) == RecordRoot(sha, b)
    requires CollisionFree(sha, TreeInputs(sha, a) + TreeInputs(sha, b))
    ensures a == b
  {
    if |a| > 0 {
      RootCommitsToTree(sha, a, b);
      TreeDeterminesRecords(a, b, Height(|a|));
    }
  }

  /** The count is needed: whatever the hash, repeating the last leaf of an odd
      list of at least three leaves the root unchanged. */
  lemma RepeatedLastLeaf(sha: Sha, leaves: seq<Hash32>)
    requires |leaves| >= 3 && |leaves| % 2 == 1
    ensures Root(sha, leaves + [leaves[|leaves| - 1]]) == Root(sha, leaves)
  {
    var n := |leaves|;
    DoubledLast(sha, leaves, n / 2);
    RootStep(sha, leaves);
    RootStep(sha, leaves + [leaves[n - 1]]);
  }

  lemma LastPairedAlone(sha: Sha, front: seq<Hash32>, last: Hash32, pairs: nat)
    requires |front| == 2 * pairs
    ensures NextLevel(sha, front + [last]) == NextLevel(sha, front + [last, last])
  {
    NextLevelConcat(sha, front, [last], pairs);
    NextLevelConcat(sha, front, [last, last], pairs);
    assert [last, last][2..] == [];
  }

  lemma SplitLast<T>(s: seq<T>, last: T)
    requires |s| > 0 && last == s[|s| - 1]
    ensures s == s[..|s| - 1] + [last] && s + [last] == s[..|s| - 1] + [last, last]
  {}

  lemma DoubledLast(sha: Sha, leaves: seq<Hash32>, pairs: nat)
    requires |leaves| == 2 * pairs + 1
    ensures NextLevel(sha, leaves) == NextLevel(sha, leaves + [leaves[|leaves| - 1]])
  {
    SplitLast(leaves, leaves[|leaves| - 1]);
    LastPairedAlone(sha, leaves[..|leaves| - 1], leaves[|leaves| - 1], pairs);
  }
}
