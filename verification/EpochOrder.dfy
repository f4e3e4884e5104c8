/** An epoch's aggregation does not depend on the order in which its batches are
    read, nor on the order of the observations within them. */
module EpochOrder {
  import opened Machine
  import opened Records
  import opened Sorting
  import opened Aggregation
  import opened EpochAggregation
  import opened EpochGroups
  import Merkle

  // ----- permuted batches hold permuted inputs

  ghost function Bag(epoch: u64, batches: seq<SourceBatch>): multiset<Input> { multiset(AllInputs(epoch, batches)) }

  ghost function Part(epoch: u64, b: SourceBatch): multiset<Input>
  {
    multiset(OfEpoch(epoch, b.commitHash, b.observations))
  }

  lemma BagLast(epoch: u64, batches: seq<SourceBatch>, front: seq<SourceBatch>, last: SourceBatch)
    requires batches == front + [last]
    ensures Bag(epoch, batches) == Bag(epoch, front) + Part(epoch, last)
  {
    assert batches[..|batches| - 1] == front;
  }

  lemma Regroup(all: multiset<Input>, front: multiset<Input>, rest: multiset<Input>, inner: multiset<Input>,
                x: multiset<Input>, last: multiset<Input>)
    requires all == front + last && front == inner + x && rest == inner + last
    ensures all == rest + x
  {}

  lemma DropThenLast<T>(s: seq<T>, i: nat)
    requires i < |s| - 1
    ensures var n := |s| - 1; s[..i] + s[i + 1..] == (s[..n][..i] + s[..n][i + 1..]) + [s[n]]
  {}

  lemma {:induction false} BagDrop(epoch: u64, batches: seq<SourceBatch>, i: nat)
    requires i < |batches|
    ensures Bag(epoch, batches) == Bag(epoch, batches[..i] + batches[i + 1..]) + Part(epoch, batches[i])
  {
    var n := |batches| - 1;
    var front, last := batches[..n], batches[n];
    var rest, inner := batches[..i] + batches[i + 1..], front[..i] + front[Min(i + 1, n)..];
    BagLast(epoch, batches, front, last);
    if i < n {
      BagDrop(epoch, front, i);
      DropThenLast(batches, i);
      BagLast(epoch, rest, inner, last);
      Regroup(Bag(epoch, batches), Bag(epoch, front), Bag(epoch, rest), Bag(epoch, inner),
              Part(epoch, batches[i]), Part(epoch, last));
    } else {
      assert rest == front;
    }
  }

  lemma {:induction false} AllInputsPermuted(epoch: u64, a: seq<SourceBatch>, b: seq<SourceBatch>)
    requires multiset(a) == multiset(b)
    ensures multiset(AllInputs(epoch, a)) == multiset(AllInputs(epoch, b))
  {
    if |a| == 0 {
      assert |multiset(b)| == 0;
    } else {
      var n := |a| - 1;
      assert a[n] in multiset(b);
      var i :| 0 <= i < |b| && b[i] == a[n];
      DropCount(a, n);
      DropCount(b, i);
      assert a[..n] + a[n + 1..] == a[..n];
      AllInputsPermuted(epoch, a[..n], b[..i] + b[i + 1..]);
      BagDrop(epoch, a, n);
      BagDrop(epoch, b, i);
    }
  }

  // ----- and so do their groups

  lemma {:induction false} InGroupCount(inputs: seq<Input>, k: Key, x: Input)
    ensures multiset(InGroup(inputs, k))[x] == if GroupKey(x) == k then multiset(inputs)[x] else 0
  {
    if |inputs| > 0 {
      var n := |inputs| - 1;
      InGroupCount(inputs[..n], k, x);
      assert inputs == inputs[..n] + [inputs[n]];
    }
  }

  lemma InGroupPermuted(a: seq<Input>, b: seq<Input>, k: Key)
    requires multiset(a) == multiset(b)
    ensures multiset(InGroup(a, k)) == multiset(InGroup(b, k))
  {
    forall x ensures multiset(InGroup(a, k))[x] == multiset(InGroup(b, k))[x] {
      InGroupCount(a, k, x);
      InGroupCount(b, k, x);
    }
  }

  lemma InGroupMember(inputs: seq<Input>, k: Key, x: Input)
    requires x in InGroup(inputs, k)
    ensures x in inputs && GroupKey(x) == k
  {
    InGroupCount(inputs, k, x);
    assert x in multiset(InGroup(inputs, k));
    assert x in multiset(inputs);
  }

  lemma GroupOfOne(inputs: seq<Input>, k: Key)
    ensures OfOneGroup(InGroup(inputs, k))
  {
    var g := InGroup(inputs, k);
    forall x, y | x in g && y in g ensures GroupKey(x) == GroupKey(y) {
      InGroupMember(inputs, k, x);
      InGroupMember(inputs, k, y);
    }
  }

  // ----- the whole epoch

  /** Every key has a group published from its own inputs. */
  lemma GroupAt(sha: Merkle.Sha, scorer: Scorer, inputs: seq<Input>, keys: seq<Key>, groups: seq<Group>, i: nat)
    requires EpochPublished(sha, scorer, inputs, keys, groups) && i < |keys|
    ensures Published(sha, scorer, InGroup(inputs, keys[i]), groups[i])
  {
    var lists := GroupLists(inputs, keys);
    assert PublishedBy(sha, scorer)(lists[i], groups[i]);
  }

  lemma KeysOfInputs(sha: Merkle.Sha, scorer: Scorer, inputs: seq<Input>, keys: seq<Key>, groups: seq<Group>, k: Key)
    requires EpochPublished(sha, scorer, inputs, keys, groups)
    ensures k in keys <==> exists x :: x in inputs && GroupKey(x) == k
  {
    if k in keys {
      var i :| 0 <= i < |keys| && keys[i] == k;
      GroupAt(sha, scorer, inputs, keys, groups, i);
      InGroupMember(inputs, k, InGroup(inputs, k)[0]);
    }
  }

  /** The published facts of two groups, all but source kind, confidence and the
      observations kept among ties. */
  predicate SameFactsPublished(g: Group, h: Group)
  {
    && g.slot == h.slot && g.app == h.app && g.total == h.total && g.unique == h.unique && g.trimmed == h.trimmed
    && g.median == h.median && g.factors == h.factors && g.sourceRoot == h.sourceRoot
  }

  /** Over every epoch: the same inputs in another order publish the same keys and,
      group by group, the same facts; groups without ties are equal. */
  lemma InputsOrderIndependent(
    sha: Merkle.Sha, scorer: Scorer, a: seq<Input>, b: seq<Input>,
    keysA: seq<Key>, groupsA: seq<Group>, keysB: seq<Key>, groupsB: seq<Group>)
    requires multiset(a) == multiset(b)
    requires EpochPublished(sha, scorer, a, keysA, groupsA) && EpochPublished(sha, scorer, b, keysB, groupsB)
    ensures keysA == keysB && |groupsA| == |groupsB|
    ensures forall i :: 0 <= i < |groupsA| ==> SameFactsPublished(groupsA[i], groupsB[i])
    ensures forall i :: 0 <= i < |groupsA| && NoTies(InGroup(a, keysA[i])) ==> groupsA[i] == groupsB[i]
  {
    KeysAgree(sha, scorer, a, b, keysA, groupsA, keysB, groupsB);
    forall i | 0 <= i < |groupsA|
      ensures SameFactsPublished(groupsA[i], groupsB[i])
      ensures NoTies(InGroup(a, keysA[i])) ==> groupsA[i] == groupsB[i]
    {
      var k := keysA[i];
      GroupAt(sha, scorer, a, keysA, groupsA, i);
      GroupAt(sha, scorer, b, keysB, groupsB, i);
      InGroupPermuted(a, b, k);
      GroupOfOne(a, k);
      PublishedOrderIndependent(sha, scorer, InGroup(a, k), InGroup(b, k), groupsA[i], groupsB[i]);
    }
  }

  lemma KeysAgree(
    sha: Merkle.Sha, scorer: Scorer, a: seq<Input>, b: seq<Input>,
    keysA: seq<Key>, groupsA: seq<Group>, keysB: seq<Key>, groupsB: seq<Group>)
    requires multiset(a) == multiset(b)
    requires EpochPublished(sha, scorer, a, keysA, groupsA) && EpochPublished(sha, scorer, b, keysB, groupsB)
    ensures keysA == keysB
  {
    forall x ensures x in a <==> x in b {
      assert x in a <==> x in multiset(a);
      assert x in b <==> x in multiset(b);
    }
    forall k ensures k in keysA <==> k in keysB {
      KeysOfInputs(sha, scorer, a, keysA, groupsA, k);
      KeysOfInputs(sha, scorer, b, keysB, groupsB, k);
    }
    SameKeys(keysA, keysB);
  }

  /** In particular the order in which an epoch's batches are read does not matter. */
  lemma EpochOrderIndependent(
    sha: Merkle.Sha, scorer: Scorer, epoch: u64, a: seq<SourceBatch>, b: seq<SourceBatch>,
    keysA: seq<Key>, groupsA: seq<Group>, keysB: seq<Key>, groupsB: seq<Group>)
    requires multiset(a) == multiset(b)
    requires EpochPublished(sha, scorer, AllInputs(epoch, a), keysA, groupsA)
    requires EpochPublished(sha, scorer, AllInputs(epoch, b), keysB, groupsB)
    ensures keysA == keysB && |groupsA| == |groupsB|
    ensures forall i :: 0 <= i < |groupsA| ==> SameFactsPublished(groupsA[i], groupsB[i])
    ensures forall i :: 0 <= i < |groupsA| && NoTies(InGroup(AllInputs(epoch, a), keysA[i])) ==>
              groupsA[i] == groupsB[i]
  {
    AllInputsPermuted(epoch, a, b);
    InputsOrderIndependent(sha, scorer, AllInputs(epoch, a), AllInputs(epoch, b), keysA, groupsA, keysB, groupsB);
  }
}
