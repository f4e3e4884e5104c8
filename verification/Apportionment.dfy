/** Splitting a reward pool by weight: whole shares first, then single units to
    the largest remainders. Accounts stand in ascending id order, so an account
    is its position in the list of weights. */
module Apportionment {
  import opened Machine
  import opened Sorting

  /** What an account's share left over. */
  datatype Claim = Claim(rest: nat, at: nat)

  type Rank = Claim -> Key

  function Sum(s: seq<nat>): nat { if |s| == 0 then 0 else Sum(s[..|s| - 1]) + s[|s| - 1] }

  lemma SumSnoc(s: seq<nat>, x: nat)
    ensures Sum(s + [x]) == Sum(s) + x
  {
    assert (s + [x])[..|s|] == s;
  }

  lemma {:induction false} SumBump(s: seq<nat>, i: nat)
    requires i < |s|
    ensures Sum(Bump(s, i)) == Sum(s) + 1
  {
    var n := |s| - 1;
    if i < n {
      assert Bump(s, i)[..n] == Bump(s[..n], i);
      SumBump(s[..n], i);
    } else {
      assert Bump(s, i)[..n] == s[..n];
    }
  }

  // ----- whole shares and what they leave

  function Product(pool: nat, w: nat): nat { SatMul(U128, pool, w) }

  function Share(pool: nat, total: nat, w: nat): nat
    requires total > 0
  {
    Product(pool, w) / total
  }

  function Rest(pool: nat, total: nat, w: nat): (r: nat)
    requires total > 0
    ensures r < total && total * Share(pool, total, w) + r == Product(pool, w)
  {
    Product(pool, w) % total
  }

  function Shares(pool: nat, total: nat, ws: seq<nat>): (shares: seq<nat>)
    requires total > 0
    ensures |shares| == |ws|
  {
    if |ws| == 0 then []
    else Shares(pool, total, ws[..|ws| - 1]) + [Share(pool, total, ws[|ws| - 1])]
  }

  function Rests(pool: nat, total: nat, ws: seq<nat>): (rests: seq<nat>)
    requires total > 0
    ensures |rests| == |ws|
  {
    if |ws| == 0 then []
    else Rests(pool, total, ws[..|ws| - 1]) + [Rest(pool, total, ws[|ws| - 1])]
  }

  lemma {:induction false} SharesAt(pool: nat, total: nat, ws: seq<nat>, i: nat)
    requires total > 0 && i < |ws|
    ensures Shares(pool, total, ws)[i] == Share(pool, total, ws[i])
    ensures Rests(pool, total, ws)[i] == Rest(pool, total, ws[i])
  {
    if i < |ws| - 1 { SharesAt(pool, total, ws[..|ws| - 1], i); }
  }

  /** The remainders in account order; `zeros` keeps accounts of no weight. */
  function Claims(pool: nat, total: nat, ws: seq<nat>, zeros: bool): seq<Claim>
    requires total > 0
  {
    if |ws| == 0 then []
    else
      var w := ws[|ws| - 1];
      Claims(pool, total, ws[..|ws| - 1], zeros)
      + (if zeros || w > 0 then [Claim(Rest(pool, total, w), |ws| - 1)] else [])
  }

  function RestOf(c: Claim): nat { c.rest }
  function SumRest(claims: seq<Claim>): nat { SumBy(RestOf, claims) }

  lemma ClaimsSnoc(pool: nat, total: nat, ws: seq<nat>, w: nat, zeros: bool)
    requires total > 0
    ensures Claims(pool, total, ws + [w], zeros)
            == Claims(pool, total, ws, zeros) + (if zeros || w > 0 then [Claim(Rest(pool, total, w), |ws|)] else [])
  {
    assert (ws + [w])[..|ws|] == ws;
  }

  lemma SharesSnoc(pool: nat, total: nat, ws: seq<nat>, w: nat)
    requires total > 0
    ensures Shares(pool, total, ws + [w]) == Shares(pool, total, ws) + [Share(pool, total, w)]
  {
    assert (ws + [w])[..|ws|] == ws;
  }

  lemma SharesOfOne(pool: nat, total: nat, w: nat)
    requires total > 0
    ensures Sum(Shares(pool, total, [w])) == Share(pool, total, w)
  {
    SharesSnoc(pool, total, [], w);
    SumSnoc([], Share(pool, total, w));
    assert [] + [w] == [w];
    assert Shares(pool, total, []) == [];
  }

  // ----- handing out the leftover

  function Bump(alloc: seq<nat>, i: nat): (r: seq<nat>)
    requires i < |alloc|
  {
    alloc[i := alloc[i] + 1]
  }

  predicate Addresses(order: seq<Claim>, n: nat) { forall c :: c in order ==> c.at < n }

  function Turn(order: seq<Claim>, n: nat): (c: Claim)
    requires |order| > 0
    ensures c in order && (n < |order| ==> c == order[n])
  {
    SmallMod(n, |order|);
    order[n % |order|]
  }

  /** Unit by unit down the order, starting over at its end. */
  function Handed(alloc: seq<nat>, order: seq<Claim>, n: nat): (r: seq<nat>)
    requires Addresses(order, |alloc|) && (n > 0 ==> |order| > 0)
    ensures |r| == |alloc|
  {
    if n == 0 then alloc else Bump(Handed(alloc, order, n - 1), Turn(order, n - 1).at)
  }

  lemma {:induction false} HandedSum(alloc: seq<nat>, order: seq<Claim>, n: nat)
    requires Addresses(order, |alloc|) && (n > 0 ==> |order| > 0)
    ensures Sum(Handed(alloc, order, n)) == Sum(alloc) + n
  {
    if n > 0 {
      HandedSum(alloc, order, n - 1);
      SumBump(Handed(alloc, order, n - 1), Turn(order, n - 1).at);
    }
  }

  predicate Apart(order: seq<Claim>) { forall i, j :: 0 <= i < j < |order| ==> order[i].at != order[j].at }

  predicate Served(order: seq<Claim>, n: nat, at: nat)
    requires n <= |order|
  {
    exists k :: 0 <= k < n && order[k].at == at
  }

  /** In one pass each account served gets one unit more. */
  lemma {:induction false} HandedAt(alloc: seq<nat>, order: seq<Claim>, n: nat, i: nat)
    requires Addresses(order, |alloc|) && Apart(order) && n <= |order| && i < |alloc|
    ensures Handed(alloc, order, n)[i] == alloc[i] + (if Served(order, n, i) then 1 else 0)
  {
    if n > 0 {
      HandedAt(alloc, order, n - 1, i);
      if order[n - 1].at == i { assert !Served(order, n - 1, i); }
      assert Served(order, n, i) <==> Served(order, n - 1, i) || order[n - 1].at == i;
    }
  }

  lemma SmallMod(x: nat, d: nat)
    ensures x < d ==> x % d == x
  {}

  // ----- the two allocations

  /** Largest remainder first, then the larger id. */
  function LargerIdFirst(total: nat, accounts: nat): Rank
  {
    (c: Claim) => [SatSub(total, c.rest), SatSub(accounts, c.at)]
  }

  /** Largest remainder first, then the smaller address. */
  function SmallerIdFirst(total: nat): Rank { (c: Claim) => [SatSub(total, c.rest), c.at] }

  /** How a list of claims stands to the accounts' remainders. */
  ghost predicate Tally(ws: seq<nat>, rests: seq<nat>, claims: seq<Claim>, zeros: bool)
  {
    && |rests| == |ws|
    && (forall c :: c in claims ==> c.at < |ws| && c.rest == rests[c.at])
    && Apart(claims)
    && (forall i :: 0 <= i < |ws| && (zeros || ws[i] > 0) ==> Claim(rests[i], i) in claims)
  }

  lemma {:induction false} ClaimsTally(pool: nat, total: nat, ws: seq<nat>, zeros: bool)
    requires total > 0
    ensures Tally(ws, Rests(pool, total, ws), Claims(pool, total, ws, zeros), zeros)
  {
    if |ws| > 0 {
      var n := |ws| - 1;
      ClaimsTally(pool, total, ws[..n], zeros);
      TallySnoc(ws[..n], Rests(pool, total, ws[..n]), Claims(pool, total, ws[..n], zeros), zeros, ws[n],
                Rest(pool, total, ws[n]));
      assert ws == ws[..n] + [ws[n]];
    }
  }

  lemma TallySnoc(ws: seq<nat>, rests: seq<nat>, claims: seq<Claim>, zeros: bool, w: nat, rest: nat)
    requires Tally(ws, rests, claims, zeros)
    ensures Tally(ws + [w], rests + [rest], claims + (if zeros || w > 0 then [Claim(rest, |ws|)] else []), zeros)
  {
    var more := claims + (if zeros || w > 0 then [Claim(rest, |ws|)] else []);
    forall i, j | 0 <= i < j < |more| ensures more[i].at != more[j].at {
      assert claims[i] in claims;
    }
  }

  lemma TallyPermuted(ws: seq<nat>, rests: seq<nat>, claims: seq<Claim>, order: seq<Claim>, zeros: bool)
    requires Tally(ws, rests, claims, zeros) && multiset(order) == multiset(claims)
    ensures Tally(ws, rests, order, zeros) && Addresses(order, |ws|) && |order| == |claims|
  {
    assert |order| == |multiset(order)| == |multiset(claims)|;
    forall c ensures c in order <==> c in claims {
      assert c in order <==> c in multiset(order);
      assert c in claims <==> c in multiset(claims);
    }
    ApartPermuted(claims, order);
  }

  lemma ApartPermuted(claims: seq<Claim>, order: seq<Claim>)
    requires Apart(claims) && multiset(claims) == multiset(order)
    requires forall c :: c in order ==> c in claims
    ensures Apart(order)
  {
    forall i, j | 0 <= i < j < |order| ensures order[i].at != order[j].at {
      OnceOnly(claims, order, i, j);
      assert order[i] in order && order[j] in order;
    }
  }

  lemma OnceOnly(claims: seq<Claim>, order: seq<Claim>, i: nat, j: nat)
    requires Apart(claims) && multiset(claims) == multiset(order) && i < j < |order|
    ensures order[i] != order[j]
  {
    var x := order[i];
    DropCount(order, i);
    var rest := order[..i] + order[i + 1..];
    assert rest[j - 1] == order[j];
    AtMostOnce(claims, x);
    assert multiset(rest)[x] == 0;
  }

  lemma {:induction false} AtMostOnce(claims: seq<Claim>, x: Claim)
    requires Apart(claims)
    ensures multiset(claims)[x] <= 1
  {
    if |claims| > 0 {
      var rest := claims[1..];
      assert claims == [claims[0]] + rest;
      AtMostOnce(rest, x);
      if x == claims[0] { assert x !in multiset(rest); }
    }
  }

  /** The claims in the order in which they are served. */
  function Order(pool: nat, total: nat, ws: seq<nat>, zeros: bool, rank: Rank): (order: seq<Claim>)
    requires total > 0
    ensures Addresses(order, |ws|) && multiset(order) == multiset(Claims(pool, total, ws, zeros))
  {
    ClaimsTally(pool, total, ws, zeros);
    TallyPermuted(ws, Rests(pool, total, ws), Claims(pool, total, ws, zeros),
                  SortBy(rank, Claims(pool, total, ws, zeros)), zeros);
    SortBy(rank, Claims(pool, total, ws, zeros))
  }

  lemma OrderSound(pool: nat, total: nat, ws: seq<nat>, zeros: bool, rank: Rank)
    requires total > 0
    ensures var order := Order(pool, total, ws, zeros, rank);
            && Tally(ws, Rests(pool, total, ws), order, zeros) && SortedBy(rank, order)
            && |order| == |Claims(pool, total, ws, zeros)|
  {
    var claims := Claims(pool, total, ws, zeros);
    ClaimsTally(pool, total, ws, zeros);
    SortBySorted(rank, claims);
    TallyPermuted(ws, Rests(pool, total, ws), claims, SortBy(rank, claims), zeros);
  }

  /** `allocate_proportional`; nothing is allocated from an empty pool or to
      accounts of no weight. */
  function Proportional(ws: seq<nat>, pool: nat): seq<nat>
  {
    var total := Sum(ws);
    if pool == 0 || total == 0 then []
    else
      HasClaim(pool, total, ws, LargerIdFirst(total, |ws|));
      RoundRobin(Shares(pool, total, ws), Order(pool, total, ws, true, LargerIdFirst(total, |ws|)), pool)
  }

  function RoundRobin(shares: seq<nat>, order: seq<Claim>, pool: nat): (alloc: seq<nat>)
    requires Addresses(order, |shares|) && |order| > 0
    ensures |alloc| == |shares|
  {
    Handed(shares, order, SatSub(pool, Sum(shares)))
  }

  lemma RoundRobinSum(shares: seq<nat>, order: seq<Claim>, pool: nat)
    requires Addresses(order, |shares|) && |order| > 0 && Sum(shares) <= pool
    ensures RoundRobin(shares, order, pool) == Handed(shares, order, pool - Sum(shares))
    ensures Sum(RoundRobin(shares, order, pool)) == pool
  {
    HandedSum(shares, order, SatSub(pool, Sum(shares)));
  }

  lemma HasClaim(pool: nat, total: nat, ws: seq<nat>, rank: Rank)
    requires total > 0 && Sum(ws) > 0
    ensures |Order(pool, total, ws, true, rank)| > 0
  {
    OrderSound(pool, total, ws, true, rank);
  }

  function CreditTotal(credits: seq<nat>): nat { Min(Sum(credits), U64 - 1) }

  function Zeros(n: nat): (r: seq<nat>)
    ensures |r| == n && forall i :: 0 <= i < n ==> r[i] == 0
  {
    if n == 0 then [] else Zeros(n - 1) + [0]
  }

  /** `allocate_witness_rewards`: one pass over the credited witnesses. */
  function WitnessSplit(credits: seq<nat>, pool: nat): seq<nat>
  {
    var total := CreditTotal(credits);
    if pool == 0 || total == 0 then Zeros(|credits|)
    else
      OnePass(Shares(pool, total, credits), Order(pool, total, credits, false, SmallerIdFirst(total)), pool)
  }

  function OnePass(shares: seq<nat>, order: seq<Claim>, pool: nat): (alloc: seq<nat>)
    requires Addresses(order, |shares|)
    ensures |alloc| == |shares|
  {
    Handed(shares, order, Min(SatSub(pool, Sum(shares)), |order|))
  }

  lemma OnePassSum(shares: seq<nat>, order: seq<Claim>, pool: nat)
    requires Addresses(order, |shares|)
    ensures Sum(OnePass(shares, order, pool)) == pool <==> Sum(shares) <= pool <= Sum(shares) + |order|
    ensures Sum(shares) <= pool <= Sum(shares) + |order| ==>
              OnePass(shares, order, pool) == Handed(shares, order, pool - Sum(shares))
  {
    HandedSum(shares, order, Min(SatSub(pool, Sum(shares)), |order|));
  }

  // ----- the loops

  method AllocateProportional(ws: seq<nat>, pool: nat) returns (alloc: seq<nat>)
    requires Sum(ws) < U128 && pool < U128
    ensures alloc == Proportional(ws, pool)
  {
    if pool == 0 || |ws| == 0 { return []; }
    var total := Sum(ws);
    if total == 0 { return []; }
    var shares, claims, distributed := WholeShares(pool, total, ws, true);
    var order := SortBy(LargerIdFirst(total, |ws|), claims);
    HasClaim(pool, total, ws, LargerIdFirst(total, |ws|));
    alloc := HandRoundRobin(shares, order, SatSub(pool, distributed));
  }

  method HandRoundRobin(shares: seq<nat>, order: seq<Claim>, units: nat) returns (alloc: seq<nat>)
    requires Addresses(order, |shares|) && |order| > 0
    ensures alloc == Handed(shares, order, units)
  {
    alloc := shares;
    var leftover, index := units, 0;
    while leftover > 0
      invariant index + leftover == units && alloc == Handed(shares, order, index)
    {
      var claim := Turn(order, index);
      alloc := alloc[claim.at := alloc[claim.at] + 1];
      leftover, index := leftover - 1, index + 1;
    }
  }

  method HandOnce(shares: seq<nat>, order: seq<Claim>, units: nat) returns (alloc: seq<nat>)
    requires Addresses(order, |shares|)
    ensures alloc == Handed(shares, order, Min(units, |order|))
  {
    alloc := shares;
    var leftover, index := units, 0;
    while leftover > 0 && index < |order|
      invariant index <= |order| && index + leftover == units && alloc == Handed(shares, order, index)
    {
      var claim := order[index];
      assert claim == Turn(order, index);
      alloc := alloc[claim.at := alloc[claim.at] + 1];
      leftover, index := leftover - 1, index + 1;
    }
  }

  ghost predicate Split(pool: nat, total: nat, ws: seq<nat>, zeros: bool, alloc: seq<nat>, claims: seq<Claim>,
                        distributed: nat)
    requires total > 0
  {
    && alloc == Shares(pool, total, ws) && claims == Claims(pool, total, ws, zeros)
    && distributed == Min(Sum(alloc), U128 - 1)
  }

  lemma SplitSnoc(pool: nat, total: nat, ws: seq<nat>, zeros: bool, alloc: seq<nat>, claims: seq<Claim>,
                  distributed: nat, w: nat)
    requires total > 0 && Split(pool, total, ws, zeros, alloc, claims, distributed)
    ensures var share, rest := Share(pool, total, w), Rest(pool, total, w);
            Split(pool, total, ws + [w], zeros, alloc + [share],
                  if zeros || w > 0 then claims + [Claim(rest, |ws|)] else claims, SatAdd(U128, distributed, share))
  {
    SharesSnoc(pool, total, ws, w);
    ClaimsSnoc(pool, total, ws, w, zeros);
    SumSnoc(alloc, Share(pool, total, w));
    assert claims + [] == claims;
  }

  /** The loop both allocations share; the running total saturates. */
  method WholeShares(pool: nat, total: nat, ws: seq<nat>, zeros: bool)
    returns (alloc: seq<nat>, claims: seq<Claim>, distributed: nat)
    requires total > 0
    ensures Split(pool, total, ws, zeros, alloc, claims, distributed)
  {
    alloc, claims, distributed := [], [], 0;
    for i := 0 to |ws|
      invariant Split(pool, total, ws[..i], zeros, alloc, claims, distributed)
    {
      SplitSnoc(pool, total, ws[..i], zeros, alloc, claims, distributed, ws[i]);
      assert ws[..i + 1] == ws[..i] + [ws[i]];
      var share, rest := Share(pool, total, ws[i]), Rest(pool, total, ws[i]);
      alloc := alloc + [share];
      distributed := SatAdd(U128, distributed, share);
      if zeros || ws[i] > 0 { claims := claims + [Claim(rest, i)]; }
    }
    assert ws[..|ws|] == ws;
  }

  method AllocateWitnessRewards(credits: seq<nat>, pool: nat) returns (alloc: seq<nat>)
    requires pool < U128
    ensures alloc == WitnessSplit(credits, pool)
  {
    var total := CreditTotal(credits);
    if pool == 0 || total == 0 { return Zeros(|credits|); }
    var shares, claims, distributed := WholeShares(pool, total, credits, false);
    var order := SortBy(SmallerIdFirst(total), claims);
    assert order == Order(pool, total, credits, false, SmallerIdFirst(total));
    alloc := HandOnce(shares, order, SatSub(pool, distributed));
  }

  // ----- exactness

  /** Whole shares never exceed the pool. */
  lemma {:induction false} SharesBelow(pool: nat, total: nat, ws: seq<nat>)
    requires total > 0
    ensures total * Sum(Shares(pool, total, ws)) <= pool * Sum(ws)
  {
    if |ws| > 0 {
      var n := |ws| - 1;
      var before, w := Sum(Shares(pool, total, ws[..n])), ws[n];
      SharesBelow(pool, total, ws[..n]);
      var share := Share(pool, total, w);
      assert Shares(pool, total, ws)[..n] == Shares(pool, total, ws[..n]);
      assert total * share <= Product(pool, w) by { var r := Rest(pool, total, w); }
      Spread(total, before, share);
      Spread(pool, Sum(ws[..n]), w);
    }
  }

  lemma Spread(a: nat, b: nat, c: nat)
    ensures a * (b + c) == a * b + a * c
  {}

  lemma CancelLeft(t: nat, a: nat, b: nat)
    requires t > 0 && t * a <= t * b
    ensures a <= b
  {
    Spread(t, b, 1);
    if b < a { MulLeft(b + 1, a, t); }
  }

  /** The proportional split pays out exactly the pool, even when its products
      saturate. */
  lemma ProportionalExact(ws: seq<nat>, pool: nat)
    requires pool > 0 && Sum(ws) > 0
    ensures Sum(Proportional(ws, pool)) == pool && |Proportional(ws, pool)| == |ws|
  {
    var total := Sum(ws);
    var shares, order := Shares(pool, total, ws), Order(pool, total, ws, true, LargerIdFirst(total, |ws|));
    HasClaim(pool, total, ws, LargerIdFirst(total, |ws|));
    SharesWithin(pool, ws);
    RoundRobinSum(shares, order, pool);
  }

  lemma SharesWithin(pool: nat, ws: seq<nat>)
    requires Sum(ws) > 0
    ensures Sum(Shares(pool, Sum(ws), ws)) <= pool
  {
    SharesBelow(pool, Sum(ws), ws);
    CancelLeft(Sum(ws), Sum(Shares(pool, Sum(ws), ws)), pool);
  }

  /** The witness split is exact if and only if the whole shares do not exceed the pool
      and one unit per credited witness makes up the difference. */
  lemma WitnessExactIff(credits: seq<nat>, pool: nat)
    requires pool > 0 && Sum(credits) > 0
    ensures var total := CreditTotal(credits); var whole := Sum(Shares(pool, total, credits));
            Sum(WitnessSplit(credits, pool)) == pool
            <==> whole <= pool <= whole + |Claims(pool, total, credits, false)|
  {
    var total := CreditTotal(credits);
    var rank := SmallerIdFirst(total);
    var order, shares := Order(pool, total, credits, false, rank), Shares(pool, total, credits);
    OrderSound(pool, total, credits, false, rank);
    OnePassSum(shares, order, pool);
  }

  // ----- fairness, while no product saturates

  ghost predicate Fits(pool: nat, ws: seq<nat>) { forall i :: 0 <= i < |ws| ==> pool * ws[i] < U128 }

  /** Shares and remainders account for the whole pool. */
  lemma {:induction false} Balance(pool: nat, total: nat, ws: seq<nat>, zeros: bool)
    requires total > 0 && Fits(pool, ws)
    ensures total * Sum(Shares(pool, total, ws)) + SumRest(Claims(pool, total, ws, zeros)) == pool * Sum(ws)
  {
    if |ws| > 0 {
      var n := |ws| - 1;
      var before, w := ws[..n], ws[n];
      Balance(pool, total, before, zeros);
      WholeProduct(pool, total, w);
      SumsSnoc(pool, total, before, w, zeros);
      assert ws == before + [w];
      BalanceStep(total, Sum(Shares(pool, total, before)), Share(pool, total, w),
                  SumRest(Claims(pool, total, before, zeros)),
                  Rest(pool, total, w), pool, Sum(before), w);
    }
  }

  lemma WholeProduct(pool: nat, total: nat, w: nat)
    requires total > 0 && pool * w < U128
    ensures total * Share(pool, total, w) + Rest(pool, total, w) == pool * w
  {}

  lemma SumsSnoc(pool: nat, total: nat, ws: seq<nat>, w: nat, zeros: bool)
    requires total > 0
    ensures Sum(Shares(pool, total, ws + [w])) == Sum(Shares(pool, total, ws)) + Share(pool, total, w)
    ensures SumRest(Claims(pool, total, ws + [w], zeros))
            == SumRest(Claims(pool, total, ws, zeros)) + Rest(pool, total, w)
    ensures Sum(ws + [w]) == Sum(ws) + w
  {
    SharesSnoc(pool, total, ws, w);
    SumSnoc(Shares(pool, total, ws), Share(pool, total, w));
    ClaimsSnoc(pool, total, ws, w, zeros);
    SumRestSnoc(Claims(pool, total, ws, zeros), Claim(Rest(pool, total, w), |ws|));
    NoWeight(pool, total);
    SumSnoc(ws, w);
  }

  lemma BalanceStep(total: nat, a: nat, share: nat, b: nat, rest: nat, pool: nat, sum: nat, w: nat)
    requires total * a + b == pool * sum && total * share + rest == pool * w
    ensures total * (a + share) + (b + rest) == pool * (sum + w)
  {
    Spread(total, a, share);
    Spread(pool, sum, w);
  }

  lemma SumRestSnoc(claims: seq<Claim>, c: Claim)
    ensures SumRest(claims + [c]) == SumRest(claims) + c.rest && claims + [] == claims
  {
    SumBySnoc(RestOf, claims, c);
  }

  lemma NoWeight(pool: nat, total: nat)
    requires total > 0
    ensures Share(pool, total, 0) == 0 == Rest(pool, total, 0)
  {
    assert pool * 0 == 0;
    DivUnique(0, total, 0, 0);
    assert total * Share(pool, total, 0) == 0;
  }

  /** `n` claims below `total`, then only empty ones, sum to at most `n` times it. */
  lemma {:induction false} FewClaims(order: seq<Claim>, total: nat, n: nat)
    requires n <= |order| && forall c :: c in order ==> c.rest < total
    requires forall k :: n <= k < |order| ==> order[k].rest == 0
    ensures SumRest(order) <= total * n
  {
    if |order| > 0 {
      var m := |order| - 1;
      assert order[m] in order;
      FewClaims(order[..m], total, if n <= m then n else m);
      Spread(total, m, 1);
    }
  }

  /** Remainders below `total`, the largest first. */
  ghost predicate Descending(total: nat, order: seq<Claim>)
  {
    && (forall c :: c in order ==> c.rest < total)
    && (forall k, l :: 0 <= k < l < |order| ==> order[k].rest >= order[l].rest)
  }

  lemma OrderDescending(pool: nat, total: nat, ws: seq<nat>, zeros: bool, rank: Rank)
    requires total > 0 && LargestFirst(rank, total)
    ensures Descending(total, Order(pool, total, ws, zeros, rank))
  {
    var order := Order(pool, total, ws, zeros, rank);
    OrderSound(pool, total, ws, zeros, rank);
    forall c | c in order ensures c.rest < total { SharesAt(pool, total, ws, c.at); }
    forall k, l | 0 <= k < l < |order| ensures order[k].rest >= order[l].rest {
      assert order[k] in order && order[l] in order;
    }
  }

  ghost predicate LargestFirst(rank: Rank, total: nat)
  {
    forall a: Claim, b: Claim :: a.rest < total && b.rest < total && Leq(rank(a), rank(b)) ==> a.rest >= b.rest
  }

  lemma RanksLargestFirst(total: nat, accounts: nat)
    ensures LargestFirst(LargerIdFirst(total, accounts), total) && LargestFirst(SmallerIdFirst(total), total)
  {}

  /** Both orders serve claims by remainder, the largest first. */
  lemma OrdersDescending(pool: nat, total: nat, ws: seq<nat>)
    requires total > 0
    ensures Descending(total, Order(pool, total, ws, true, LargerIdFirst(total, |ws|)))
    ensures Descending(total, Order(pool, total, ws, false, SmallerIdFirst(total)))
  {
    RanksLargestFirst(total, |ws|);
    OrderDescending(pool, total, ws, true, LargerIdFirst(total, |ws|));
    OrderDescending(pool, total, ws, false, SmallerIdFirst(total));
  }

  /** If shares and remainders balance, one pass serves the leftover, and only
      claims with a remainder share it. */
  lemma LeftoverServed(pool: nat, whole: nat, total: nat, order: seq<Claim>)
    requires total > 0 && total * whole + SumRest(order) == total * pool
    requires Descending(total, order)
    ensures whole <= pool <= whole + |order|
    ensures forall k :: 0 <= k < pool - whole ==> order[k].rest > 0
  {
    CancelLeft(total, whole, pool);
    var left := pool - whole;
    Spread(total, whole, left);
    FewClaims(order, total, |order|);
    CancelLeft(total, left, |order|);
    forall k | 0 <= k < left ensures order[k].rest > 0 { ServedHasRest(total, order, left, k); }
  }

  lemma ServedHasRest(total: nat, order: seq<Claim>, left: nat, k: nat)
    requires Descending(total, order)
    requires total > 0 && k < left <= |order| && SumRest(order) == total * left
    ensures order[k].rest > 0
  {
    MulLeft(k + 1, left, total);
    Spread(total, k, 1);
    if order[k].rest == 0 {
      forall j | k <= j < |order| ensures order[j].rest == 0 {
        assert order[k] in order && order[j] in order;
      }
      FewClaims(order, total, k);
    }
  }

  /** The quota rule: every account gets its whole share, or one unit more if its
      share left a remainder, and a larger weight never gets less. */
  ghost predicate Fair(ws: seq<nat>, shares: seq<nat>, rests: seq<nat>, alloc: seq<nat>)
  {
    && |alloc| == |shares| == |rests| == |ws|
    && (forall i :: 0 <= i < |ws| ==> alloc[i] == shares[i] || (alloc[i] == shares[i] + 1 && rests[i] > 0))
    && (forall i, j :: 0 <= i < |ws| && 0 <= j < |ws| && ws[i] < ws[j] ==> alloc[i] <= alloc[j])
  }

  ghost predicate FairSplit(ws: seq<nat>, pool: nat, alloc: seq<nat>)
  {
    Sum(ws) > 0 && Fair(ws, Shares(pool, Sum(ws), ws), Rests(pool, Sum(ws), ws), alloc)
  }

  /** A larger weight has the larger share or, with equal shares, remainder. */
  ghost predicate Graded(ws: seq<nat>, shares: seq<nat>, rests: seq<nat>)
  {
    && |shares| == |rests| == |ws|
    && forall i, j :: 0 <= i < |ws| && 0 <= j < |ws| && ws[i] < ws[j] ==>
         shares[i] < shares[j] || (shares[i] == shares[j] && rests[i] < rests[j])
  }

  lemma SharesGraded(pool: nat, total: nat, ws: seq<nat>)
    requires total > 0 && pool > 0 && Fits(pool, ws)
    ensures Graded(ws, Shares(pool, total, ws), Rests(pool, total, ws))
  {
    forall i, j | 0 <= i < |ws| && 0 <= j < |ws| && ws[i] < ws[j] ensures GradedAt(pool, total, ws, i, j) {
      SharesAt(pool, total, ws, i);
      SharesAt(pool, total, ws, j);
      ShareMonotone(pool, total, ws[i], ws[j]);
    }
  }

  ghost predicate GradedAt(pool: nat, total: nat, ws: seq<nat>, i: nat, j: nat)
    requires total > 0 && i < |ws| && j < |ws|
  {
    var shares, rests := Shares(pool, total, ws), Rests(pool, total, ws);
    shares[i] < shares[j] || (shares[i] == shares[j] && rests[i] < rests[j])
  }

  lemma ShareMonotone(pool: nat, total: nat, v: nat, w: nat)
    requires total > 0 && pool > 0 && v < w && pool * w < U128
    ensures Share(pool, total, v) < Share(pool, total, w)
            || (Share(pool, total, v) == Share(pool, total, w) && Rest(pool, total, v) < Rest(pool, total, w))
  {
    MulLeft(v + 1, w, pool);
    Spread(pool, v, 1);
    DivMono(pool * v, pool * w, total);
    var r, s := Rest(pool, total, v), Rest(pool, total, w);
  }

  lemma HandedFair(ws: seq<nat>, shares: seq<nat>, rests: seq<nat>, order: seq<Claim>, zeros: bool, total: nat, n: nat)
    requires Graded(ws, shares, rests) && Tally(ws, rests, order, zeros) && n <= |order|
    requires Descending(total, order)
    requires forall k :: 0 <= k < n ==> order[k].rest > 0
    requires Addresses(order, |shares|)
    ensures Fair(ws, shares, rests, Handed(shares, order, n))
  {
    var alloc := Handed(shares, order, n);
    forall i | 0 <= i < |ws|
      ensures alloc[i] == shares[i] + (if Served(order, n, i) then 1 else 0)
      ensures Served(order, n, i) ==> rests[i] > 0
    {
      HandedAt(shares, order, n, i);
      if Served(order, n, i) {
        var k :| 0 <= k < n && order[k].at == i;
        assert order[k] in order;
      }
    }
    forall i, j | 0 <= i < |ws| && 0 <= j < |ws| && ws[i] < ws[j] ensures alloc[i] <= alloc[j] {
      if Served(order, n, i) && shares[i] == shares[j] { ServedBefore(ws, rests, order, zeros, total, n, i, j); }
    }
  }

  lemma ServedBefore(ws: seq<nat>, rests: seq<nat>, order: seq<Claim>, zeros: bool, total: nat, n: nat, i: nat, j: nat)
    requires Tally(ws, rests, order,
                   zeros) && n <= |order| && i < |ws| && j < |ws| && ws[i] < ws[j] && rests[i] < rests[j]
    requires Descending(total, order)
    requires Served(order, n, i)
    ensures Served(order, n, j)
  {
    var k :| 0 <= k < n && order[k].at == i;
    assert order[k] in order;
    var c := Claim(rests[j], j);
    assert c in order;
    var l :| 0 <= l < |order| && order[l] == c;
  }

  /** The leftover fits one pass over claims with a remainder. */
  lemma SplitLeftover(ws: seq<nat>, pool: nat, zeros: bool, rank: Rank)
    requires Sum(ws) > 0 && Fits(pool, ws) && Descending(Sum(ws), Order(pool, Sum(ws), ws, zeros, rank))
    ensures var whole, order := Sum(Shares(pool, Sum(ws), ws)), Order(pool, Sum(ws), ws, zeros, rank);
            && whole <= pool <= whole + |order|
            && forall k :: 0 <= k < pool - whole ==> order[k].rest > 0
  {
    var total := Sum(ws);
    var whole, order := Sum(Shares(pool, total, ws)), Order(pool, total, ws, zeros, rank);
    assert total * whole + SumRest(order) == total * pool by {
      Balance(pool, total, ws, zeros);
      SumByPermuted(RestOf, Claims(pool, total, ws, zeros), order);
    }
    LeftoverServed(pool, whole, total, order);
  }

  /** Both splits, while no product saturates. */
  lemma SplitFair(ws: seq<nat>, pool: nat, zeros: bool, rank: Rank,
                  shares: seq<nat>, order: seq<Claim>, n: nat, alloc: seq<nat>)
    requires pool > 0 && Sum(ws) > 0 && Fits(pool, ws) && Descending(Sum(ws), order)
    requires shares == Shares(pool, Sum(ws), ws) && order == Order(pool, Sum(ws), ws, zeros, rank)
    requires n + Sum(shares) == pool && n <= |order| && alloc == Handed(shares, order, n)
    ensures FairSplit(ws, pool, alloc)
  {
    var total := Sum(ws);
    var rests := Rests(pool, total, ws);
    assert Tally(ws, rests, order, zeros) by { OrderSound(pool, total, ws, zeros, rank); }
    assert Graded(ws, shares, rests) by { SharesGraded(pool, total, ws); }
    assert forall k :: 0 <= k < n ==> order[k].rest > 0 by { SplitLeftover(ws, pool, zeros, rank); }
    HandedFair(ws, shares, rests, order, zeros, total, n);
  }

  /** While no product saturates the proportional split is also fair. */
  lemma ProportionalFair(ws: seq<nat>, pool: nat, alloc: seq<nat>)
    requires pool > 0 && Sum(ws) > 0 && Fits(pool, ws) && alloc == Proportional(ws, pool)
    ensures FairSplit(ws, pool, alloc)
  {
    OrdersDescending(pool, Sum(ws), ws);
    var rank := LargerIdFirst(Sum(ws), |ws|);
    var shares, order := Shares(pool, Sum(ws), ws), Order(pool, Sum(ws), ws, true, rank);
    SplitLeftover(ws, pool, true, rank);
    HasClaim(pool, Sum(ws), ws, rank);
    RoundRobinSum(shares, order, pool);
    SplitFair(ws, pool, true, rank, shares, order, pool - Sum(shares), alloc);
  }

  /** So is the witness split, while the credits also sum within 64 bits. */
  lemma WitnessFair(credits: seq<nat>, pool: nat, alloc: seq<nat>)
    requires pool > 0 && 0 < Sum(credits) < U64 && Fits(pool, credits) && alloc == WitnessSplit(credits, pool)
    ensures Sum(alloc) == pool && FairSplit(credits, pool, alloc)
  {
    OrdersDescending(pool, Sum(credits), credits);
    var rank := SmallerIdFirst(Sum(credits));
    var shares, order := Shares(pool, Sum(credits), credits), Order(pool, Sum(credits), credits, false, rank);
    SplitLeftover(credits, pool, false, rank);
    OnePassSum(shares, order, pool);
    assert CreditTotal(credits) == Sum(credits);
    SplitFair(credits, pool, false, rank, shares, order, pool - Sum(shares), alloc);
  }

  /** An account of no weight gets nothing from a fair split. */
  lemma NoWeightNoPay(ws: seq<nat>, pool: nat, alloc: seq<nat>, i: nat)
    requires FairSplit(ws, pool, alloc) && i < |ws| && ws[i] == 0
    ensures alloc[i] == 0
  {
    SharesAt(pool, Sum(ws), ws, i);
    NoWeight(pool, Sum(ws));
  }

  /** Saturated credits pay out more than the pool: two witnesses with the
      largest credit each get the single unit there is. */
  lemma SaturatedCreditsOverpay()
    ensures var credits := [U64 - 1, U64 - 1]; Sum(WitnessSplit(credits, 1)) != 1
  {
    var c := U64 - 1;
    var credits := [c, c];
    SumSnoc([], c);
    SumSnoc([c], c);
    assert [] + [c] == [c] && [c] + [c] == credits;
    assert Sum(credits) == 2 * c;
    DivUnique(c, c, 1, 0);
    assert Share(1, c, c) == 1;
    var shares := Shares(1, c, credits);
    SumSnoc([], 1);
    SumSnoc([1], 1);
    SharesAt(1, c, credits, 0);
    SharesAt(1, c, credits, 1);
    assert [] + [1] == [1] && shares == [1] + [1];
    WitnessExactIff(credits, 1);
  }
}
