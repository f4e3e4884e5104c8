/** Who gets the odd units of a split, stated on weights, pool and amounts alone;
    this and the exact sum leave one possible split. */
module ShareLaws {
  import opened Machine
  import opened Sorting
  import opened Apportionment

  /** What an account's exact due leaves over its amount, in parts of the total
      weight; negative if the amount was rounded up. */
  function Left(ws: seq<nat>, pool: nat, alloc: seq<nat>, i: nat): int
    requires i < |ws| == |alloc|
  {
    pool * ws[i] - Sum(ws) * alloc[i]
  }

  /** Account `i` is rounded up and `j` is not. */
  predicate Favoured(ws: seq<nat>, pool: nat, alloc: seq<nat>, i: nat, j: nat)
    requires |ws| == |alloc| && i < |ws| && j < |ws|
  {
    Left(ws, pool, alloc, i) < 0 <= Left(ws, pool, alloc, j)
  }

  /** Then its remainder is the larger, or equal and it comes first. */
  predicate LargerRemainder(ws: seq<nat>, pool: nat, alloc: seq<nat>, i: nat, j: nat, first: bool)
    requires |ws| == |alloc| && i < |ws| && j < |ws|
  {
    var a, b := Left(ws, pool, alloc, i) + Sum(ws), Left(ws, pool, alloc, j);
    a > b || (a == b && first)
  }

  /** Claims are served in the order of their rank. */
  lemma ServedRanked(ws: seq<nat>, rests: seq<nat>, order: seq<Claim>, zeros: bool, rank: Rank, n: nat, i: nat, j: nat)
    requires Tally(ws, rests, order, zeros) && SortedBy(rank, order) && n <= |order| && i < |ws| && j < |ws|
    requires Served(order, n, i) && !Served(order, n, j) && (zeros || ws[j] > 0)
    ensures Leq(rank(Claim(rests[i], i)), rank(Claim(rests[j], j)))
  {
    var k :| 0 <= k < n && order[k].at == i;
    assert order[k] in order;
    var c := Claim(rests[j], j);
    assert c in order;
    var l :| 0 <= l < |order| && order[l] == c;
    assert k < l;
  }

  lemma Due(pool: nat, total: nat, w: nat)
    requires total > 0 && pool * w < U128
    ensures var share, rest := Share(pool, total, w), Rest(pool, total, w);
            pool * w - total * share == rest && pool * w - total * (share + 1) == rest - total
  {
    var share, rest := Share(pool, total, w), Rest(pool, total, w);
    assert total * (share + 1) == total * share + total;
  }

  /** An account's whole share and remainder make up its due. */
  lemma LeftIs(ws: seq<nat>, pool: nat, order: seq<Claim>, n: nat, alloc: seq<nat>, i: nat)
    requires Sum(ws) > 0 && Fits(pool, ws) && i < |ws| && Addresses(order, |ws|) && Apart(order) && n <= |order|
    requires alloc == Handed(Shares(pool, Sum(ws), ws), order, n)
    ensures Rests(pool, Sum(ws), ws)[i] < Sum(ws)
    ensures Left(ws, pool, alloc, i) == Rests(pool, Sum(ws), ws)[i] - (if Served(order, n, i) then Sum(ws) else 0)
  {
    var total := Sum(ws);
    SharesAt(pool, total, ws, i);
    HandedAt(Shares(pool, total, ws), order, n, i);
    Due(pool, total, ws[i]);
  }

  /** The remainders, as ranked. */
  ghost predicate Ranked(rests: seq<nat>, rank: Rank, i: nat, j: nat)
    requires i < |rests| && j < |rests|
  {
    Leq(rank(Claim(rests[i], i)), rank(Claim(rests[j], j)))
  }

  lemma SplitRanked(ws: seq<nat>, pool: nat, zeros: bool, rank: Rank, order: seq<Claim>, n: nat, alloc: seq<nat>,
                    rests: seq<nat>, i: nat, j: nat)
    requires Sum(ws) > 0 && Fits(pool, ws) && order == Order(pool, Sum(ws), ws, zeros, rank) && n <= |order|
    requires alloc == Handed(Shares(pool, Sum(ws), ws), order, n) && rests == Rests(pool, Sum(ws), ws)
    requires i < |ws| && j < |ws| && Favoured(ws, pool, alloc, i, j) && (zeros || ws[j] > 0)
    ensures Ranked(rests, rank, i, j) && rests[i] < Sum(ws) && rests[j] < Sum(ws)
    ensures Left(ws, pool, alloc, i) + Sum(ws) == rests[i] && Left(ws, pool, alloc, j) == rests[j]
  {
    OrderSound(pool, Sum(ws), ws, zeros, rank);
    LeftIs(ws, pool, order, n, alloc, i);
    LeftIs(ws, pool, order, n, alloc, j);
    ServedRanked(ws, rests, order, zeros, rank, n, i, j);
  }

  /** The proportional split: of two accounts, one rounded up and one not, the
      first has the larger remainder, or an equal one and the larger id. */
  lemma ProportionalLargestRemainder(ws: seq<nat>, pool: nat, alloc: seq<nat>, i: nat, j: nat)
    requires pool > 0 && Sum(ws) > 0 && Fits(pool, ws) && alloc == Proportional(ws, pool) && |alloc| == |ws|
    requires i < |ws| && j < |ws| && Favoured(ws, pool, alloc, i, j)
    ensures LargerRemainder(ws, pool, alloc, i, j, i > j)
  {
    var rank, rests := LargerIdFirst(Sum(ws), |ws|), Rests(pool, Sum(ws), ws);
    var order := Order(pool, Sum(ws), ws, true, rank);
    var n := ProportionalHands(ws, pool, alloc, order);
    SplitRanked(ws, pool, true, rank, order, n, alloc, rests, i, j);
    LargerIdRank(Sum(ws), rests, i, j);
  }

  lemma ProportionalHands(ws: seq<nat>, pool: nat, alloc: seq<nat>, order: seq<Claim>) returns (n: nat)
    requires pool > 0 && Sum(ws) > 0 && Fits(pool, ws) && alloc == Proportional(ws, pool)
    requires order == Order(pool, Sum(ws), ws, true, LargerIdFirst(Sum(ws), |ws|))
    ensures n <= |order| && alloc == Handed(Shares(pool, Sum(ws), ws), order, n)
  {
    OrdersDescending(pool, Sum(ws), ws);
    var shares := Shares(pool, Sum(ws), ws);
    SplitLeftover(ws, pool, true, LargerIdFirst(Sum(ws), |ws|));
    HasClaim(pool, Sum(ws), ws, LargerIdFirst(Sum(ws), |ws|));
    RoundRobinSum(shares, order, pool);
    n := pool - Sum(shares);
  }

  lemma PairLeq(a: nat, b: nat, c: nat, d: nat)
    ensures Leq([a, c], [b, d]) <==> a < b || (a == b && c <= d)
  {
    LeqFirst(a, b, [c], [d]);
    LeqFirst(c, d, [], []);
    assert [a] + [c] == [a, c] && [b] + [d] == [b, d] && [c] + [] == [c] && [d] + [] == [d];
  }

  lemma LargerIdRank(total: nat, rests: seq<nat>, i: nat, j: nat)
    requires i < |rests| && j < |rests| && rests[i] < total && rests[j] < total
    requires Ranked(rests, LargerIdFirst(total, |rests|), i, j)
    ensures rests[i] > rests[j] || (rests[i] == rests[j] && i >= j)
  {
    PairLeq(SatSub(total, rests[i]), SatSub(total, rests[j]), SatSub(|rests|, i), SatSub(|rests|, j));
  }

  /** The witness split: likewise among credited witnesses, with the smaller
      address first. */
  lemma WitnessLargestRemainder(credits: seq<nat>, pool: nat, alloc: seq<nat>, i: nat, j: nat)
    requires pool > 0 && 0 < Sum(credits) < U64 && Fits(pool, credits) && alloc == WitnessSplit(credits, pool)
    requires |alloc| == |credits| && i < |credits| && j < |credits| && credits[j] > 0
    requires Favoured(credits, pool, alloc, i, j)
    ensures LargerRemainder(credits, pool, alloc, i, j, i < j)
  {
    var rank, rests := SmallerIdFirst(Sum(credits)), Rests(pool, Sum(credits), credits);
    WitnessRanked(credits, pool, alloc, rank, rests, i, j);
    SmallerIdRank(Sum(credits), rests, i, j);
  }

  lemma WitnessRanked(credits: seq<nat>, pool: nat, alloc: seq<nat>, rank: Rank, rests: seq<nat>, i: nat, j: nat)
    requires pool > 0 && 0 < Sum(credits) < U64 && Fits(pool, credits) && alloc == WitnessSplit(credits, pool)
    requires |alloc| == |credits| && i < |credits| && j < |credits| && credits[j] > 0
    requires Favoured(credits, pool, alloc, i, j)
    requires rank == SmallerIdFirst(Sum(credits)) && rests == Rests(pool, Sum(credits), credits)
    ensures Ranked(rests, rank, i, j) && rests[i] < Sum(credits) && rests[j] < Sum(credits)
    ensures Left(credits, pool, alloc, i) + Sum(credits) == rests[i] && Left(credits, pool, alloc, j) == rests[j]
  {
    var order := Order(pool, Sum(credits), credits, false, rank);
    var n := WitnessHands(credits, pool, alloc, order);
    SplitRanked(credits, pool, false, rank, order, n, alloc, rests, i, j);
  }

  lemma WitnessHands(credits: seq<nat>, pool: nat, alloc: seq<nat>, order: seq<Claim>) returns (n: nat)
    requires pool > 0 && 0 < Sum(credits) < U64 && Fits(pool, credits) && alloc == WitnessSplit(credits, pool)
    requires order == Order(pool, Sum(credits), credits, false, SmallerIdFirst(Sum(credits)))
    ensures n <= |order| && alloc == Handed(Shares(pool, Sum(credits), credits), order, n)
  {
    assert CreditTotal(credits) == Sum(credits);
    n := Min(SatSub(pool, Sum(Shares(pool, Sum(credits), credits))), |order|);
  }

  lemma SmallerIdRank(total: nat, rests: seq<nat>, i: nat, j: nat)
    requires i < |rests| && j < |rests| && rests[i] < total && rests[j] < total
    requires Ranked(rests, SmallerIdFirst(total), i, j)
    ensures rests[i] > rests[j] || (rests[i] == rests[j] && i <= j)
  {
    PairLeq(SatSub(total, rests[i]), SatSub(total, rests[j]), i, j);
  }

  // ----- the one possible split

  predicate Precedes(larger: bool, i: nat, j: nat) { if larger then i > j else i < j }

  /** The amount is the due rounded down or up to a whole unit. */
  predicate Rounded(ws: seq<nat>, pool: nat, alloc: seq<nat>, i: nat)
    requires i < |ws| == |alloc|
  {
    Left(ws, pool, alloc, i) < Sum(ws) && 0 < Left(ws, pool, alloc, i) + Sum(ws)
  }

  /** The split by largest remainders: it pays exactly the pool, each account its
      due rounded down or up, and rounds up those with the largest remainders,
      equal ones in order of their ids. */
  ghost predicate LargestRemainders(ws: seq<nat>, pool: nat, alloc: seq<nat>, larger: bool)
  {
    && |alloc| == |ws| && Sum(alloc) == pool
    && (forall i :: 0 <= i < |ws| ==> Rounded(ws, pool, alloc, i))
    && (forall i, j :: 0 <= i < |ws| && 0 <= j < |ws| && Favoured(ws, pool, alloc, i, j) ==>
          LargerRemainder(ws, pool, alloc, i, j, Precedes(larger, i, j)))
  }

  lemma {:induction false} SumBelow(a: seq<nat>, b: seq<nat>)
    requires |a| == |b| && forall k :: 0 <= k < |a| ==> a[k] >= b[k]
    ensures Sum(a) >= Sum(b) && forall k :: 0 <= k < |a| && a[k] > b[k] ==> Sum(a) > Sum(b)
  {
    if |a| > 0 { SumBelow(a[..|a| - 1], b[..|b| - 1]); }
  }

  lemma LeftApart(total: nat, due: nat, x: nat, y: nat, a: int, b: int)
    requires x > y && a == due - total * x && b == due - total * y
    requires a < total && 0 < a + total && b < total && 0 < b + total
    ensures b == a + total && a < 0 <= b
  {
    assert total * (y + 2) == total * y + 2 * total && total * (y + 1) == total * y + total;
    if x >= y + 2 { MulLeft(y + 2, x, total); }
  }

  /** One split rounds an account up that another does not: the other way round
      there is none. */
  lemma Opposed(ws: seq<nat>, pool: nat, a: seq<nat>, b: seq<nat>, larger: bool, i: nat, j: nat)
    requires LargestRemainders(ws, pool, a, larger) && LargestRemainders(ws, pool, b, larger)
    requires i < |ws| && j < |ws| && a[i] > b[i]
    ensures a[j] >= b[j]
  {
    assert Rounded(ws, pool, a, i) && Rounded(ws, pool, b, i) && Rounded(ws, pool, a, j) && Rounded(ws, pool, b, j);
    var up, down := Left(ws, pool, a, i), Left(ws, pool, b, i);
    LeftApart(Sum(ws), pool * ws[i], a[i], b[i], up, down);
    if a[j] < b[j] {
      LeftApart(Sum(ws), pool * ws[j], b[j], a[j], Left(ws, pool, b, j), Left(ws, pool, a, j));
      assert Favoured(ws, pool, a, i, j) && Favoured(ws, pool, b, j, i);
    }
  }

  /** There is only one. */
  lemma LargestRemaindersUnique(ws: seq<nat>, pool: nat, a: seq<nat>, b: seq<nat>, larger: bool)
    requires LargestRemainders(ws, pool, a, larger) && LargestRemainders(ws, pool, b, larger)
    ensures a == b
  {
    forall i | 0 <= i < |ws| ensures a[i] == b[i] {
      NotAbove(ws, pool, a, b, larger, i);
      NotAbove(ws, pool, b, a, larger, i);
    }
  }

  lemma NotAbove(ws: seq<nat>, pool: nat, a: seq<nat>, b: seq<nat>, larger: bool, i: nat)
    requires LargestRemainders(ws, pool, a, larger) && LargestRemainders(ws, pool, b, larger) && i < |ws|
    ensures a[i] <= b[i]
  {
    if a[i] > b[i] {
      forall j | 0 <= j < |ws| ensures a[j] >= b[j] { Opposed(ws, pool, a, b, larger, i, j); }
      SumBelow(a, b);
    }
  }

  lemma FairRounded(ws: seq<nat>, pool: nat, alloc: seq<nat>, i: nat)
    requires FairSplit(ws, pool, alloc) && Fits(pool, ws) && i < |ws|
    ensures Rounded(ws, pool, alloc, i)
  {
    SharesAt(pool, Sum(ws), ws, i);
    WholeOrMore(pool, Sum(ws), ws[i], alloc[i]);
  }

  lemma WholeOrMore(pool: nat, total: nat, w: nat, x: nat)
    requires total > 0 && pool * w < U128
    requires x == Share(pool, total, w) || (x == Share(pool, total, w) + 1 && Rest(pool, total, w) > 0)
    ensures pool * w - total * x < total && 0 < pool * w - total * x + total
  {
    Due(pool, total, w);
  }

  /** `allocate_proportional` pays exactly the split by largest remainders, equal
      ones to the larger id. */
  lemma ProportionalIff(ws: seq<nat>, pool: nat, alloc: seq<nat>)
    requires pool > 0 && Sum(ws) > 0 && Fits(pool, ws)
    ensures alloc == Proportional(ws, pool) <==> LargestRemainders(ws, pool, alloc, true)
  {
    var split := Proportional(ws, pool);
    ProportionalFair(ws, pool, split);
    ProportionalExact(ws, pool);
    forall i | 0 <= i < |ws| ensures Rounded(ws, pool, split, i) {
      FairRounded(ws, pool, split, i);
    }
    forall i, j | 0 <= i < |ws| && 0 <= j < |ws| && Favoured(ws, pool, split, i, j)
      ensures LargerRemainder(ws, pool, split, i, j, Precedes(true, i, j))
    {
      ProportionalLargestRemainder(ws, pool, split, i, j);
    }
    if LargestRemainders(ws, pool, alloc, true) { LargestRemaindersUnique(ws, pool, alloc, split, true); }
  }

  lemma OverUncredited(credits: seq<nat>, pool: nat, alloc: seq<nat>, i: nat, j: nat)
    requires FairSplit(credits, pool, alloc) && i < |credits| && j < |credits| && credits[j] == 0
    requires Rounded(credits, pool, alloc, i)
    ensures LargerRemainder(credits, pool, alloc, i, j, Precedes(false, i, j))
  {
    NoWeightNoPay(credits, pool, alloc, j);
    assert Left(credits, pool, alloc, j) == 0;
  }

  /** `allocate_witness_rewards` likewise, equal ones to the smaller address. */
  lemma WitnessIff(credits: seq<nat>, pool: nat, alloc: seq<nat>)
    requires pool > 0 && 0 < Sum(credits) < U64 && Fits(pool, credits)
    ensures alloc == WitnessSplit(credits, pool) <==> LargestRemainders(credits, pool, alloc, false)
  {
    var split := WitnessSplit(credits, pool);
    WitnessFair(credits, pool, split);
    forall i | 0 <= i < |credits| ensures Rounded(credits, pool, split, i) {
      FairRounded(credits, pool, split, i);
    }
    forall i, j | 0 <= i < |credits| && 0 <= j < |credits| && Favoured(credits, pool, split, i, j)
      ensures LargerRemainder(credits, pool, split, i, j, Precedes(false, i, j))
    {
      if credits[j] == 0 {
        OverUncredited(credits, pool, split, i, j);
      } else {
        WitnessLargestRemainder(credits, pool, split, i, j);
      }
    }
    if LargestRemainders(credits, pool, alloc, false) {
      LargestRemaindersUnique(credits, pool, alloc, split, false);
    }
  }
}
