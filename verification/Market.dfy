/** The sealed-bid second-price market: ranking, pricing, and why bidding one's value is best. */
module Market {
  import opened RealArith
  import opened Rounding
  import opened Sorting
  import opened Text
  import opened Wrappers

  datatype News = News(id: string, asset: string, delta: real, timestamp: int)

  datatype Agent = Agent(id: string, asset: string, base: real, multiplier: real)

  /** An agent's rounded true value and rounded bid. */
  datatype Bid = Bid(id: string, value: real, amount: real)

  datatype Sale = Sale(winner: string, price: real)

  datatype Outcome = Outcome(sale: Option<Sale>, efficiency: real, bids: seq<Bid>)

  datatype MarketError = DuplicateEvent

  const GRID := 100000000.0
  const HALF_UNIT := 0.000000005

  /** Rounding to eight decimal places. */
  function Round8(x: real): real {
    RoundHalfEven(x * GRID) as real / GRID
  }

  /** A whole number of hundred-millionths. */
  ghost predicate OnGrid(x: real) {
    Round8(x) == x
  }

  lemma Round8Properties(x: real, y: real)
    ensures OnGrid(Round8(x)) && x - HALF_UNIT <= Round8(x) <= x + HALF_UNIT
    ensures x <= y ==> Round8(x) <= Round8(y)
  {
    var k := RoundHalfEven(x * GRID);
    RoundInteger(k);
    assert Round8(x) * GRID == k as real;
    if x <= y {
      RoundMonotone(x * GRID, y * GRID);
    }
  }

  // ----- values and bids -----

  function NewsEffect(news: seq<News>, asset: string): real {
    if news == [] then 0.0 else
      var last := news[|news| - 1];
      NewsEffect(news[..|news| - 1], asset) + if last.asset == asset then last.delta else 0.0
  }

  /** One more item of news, anywhere in the list, moves the effect by its amount if it is about the asset, and not at
      all otherwise. */
  lemma {:induction false} NewsInserted(before: seq<News>, item: News, after: seq<News>, asset: string)
    ensures NewsEffect(before + [item] + after, asset) ==
            NewsEffect(before + after, asset) + if asset == item.asset then item.delta else 0.0
    decreases |after|
  {
    var news := before + [item] + after;
    if after == [] {
      assert news[..|news| - 1] == before == before + after;
    } else {
      var rest, last := after[..|after| - 1], after[|after| - 1];
      NewsInserted(before, item, rest, asset);
      assert news[..|news| - 1] == before + [item] + rest;
      assert (before + after)[..|before + after| - 1] == before + rest;
      assert news[|news| - 1] == last == (before + after)[|before + after| - 1];
    }
  }

  function TrueValue(a: Agent, news: seq<News>): real {
    var v := a.base + NewsEffect(news, a.asset);
    if v > 0.0 then v else 0.0
  }

  function BidOf(a: Agent, news: seq<News>): Bid {
    Bid(a.id, Round8(TrueValue(a, news)), Round8(Product(TrueValue(a, news), a.multiplier)))
  }

  // ----- ranking and pricing -----

  /** Higher bids first, then smaller identifiers. */
  predicate RanksBefore(a: Bid, b: Bid) {
    a.amount > b.amount || (a.amount == b.amount && Less(a.id, b.id))
  }

  function Ranked(bids: seq<Bid>): seq<Bid> {
    Sort(RanksBefore, bids)
  }

  function Max(a: real, b: real): real {
    if a >= b then a else b
  }

  function Clear(bids: seq<Bid>, reserve: real): Option<Sale> {
    var ranked := Ranked(bids);
    if ranked == [] || ranked[0].amount < reserve then None
    else Some(Sale(ranked[0].id, Round8(Max(reserve, if |ranked| > 1 then ranked[1].amount else reserve))))
  }

  ghost predicate DistinctBidders(bids: seq<Bid>) {
    forall i, j :: 0 <= i < j < |bids| ==> bids[i].id != bids[j].id
  }

  ghost predicate AllOnGrid(bids: seq<Bid>) {
    forall i :: 0 <= i < |bids| ==> OnGrid(bids[i].amount)
  }

  lemma RankingIsOrder()
    ensures WeakOrder(RanksBefore)
  {
    hide Less;
    forall a: Bid, b: Bid | RanksBefore(a, b) ensures !RanksBefore(b, a) {
      if Less(a.id, b.id) && Less(b.id, a.id) {
        LessTransitive(a.id, b.id, a.id);
        LessIrreflexive(a.id);
      }
    }
    forall a: Bid, b: Bid, c: Bid | !RanksBefore(b, a) && !RanksBefore(c, b) ensures !RanksBefore(c, a) {
      LessTotal(a.id, b.id);
      LessTotal(b.id, c.id);
      if Less(c.id, a.id) && Less(a.id, b.id) {
        LessTransitive(c.id, a.id, b.id);
      }
    }
  }

  lemma RankedContents(bids: seq<Bid>)
    ensures SortedBy(RanksBefore, Ranked(bids)) && multiset(Ranked(bids)) == multiset(bids)
    ensures |Ranked(bids)| == |bids| && forall b :: b in Ranked(bids) <==> b in bids
  {
    hide RanksBefore;
    RankingIsOrder();
    SortSorts(RanksBefore, bids);
  }

  /** The bids other than the one at k. */
  function Others(bids: seq<Bid>, k: nat): seq<Bid>
    requires k < |bids|
  {
    bids[..k] + bids[k + 1..]
  }

  ghost predicate Leads(bids: seq<Bid>, k: nat)
    requires k < |bids|
  {
    forall b :: b in Others(bids, k) ==> !RanksBefore(b, bids[k])
  }

  ghost predicate IsHighest(bids: seq<Bid>, h: real) {
    (exists b :: b in bids && b.amount == h) && forall b :: b in bids ==> b.amount <= h
  }

  lemma OthersContents(bids: seq<Bid>, k: nat)
    requires k < |bids|
    ensures multiset(bids) == multiset(Others(bids, k)) + multiset{bids[k]}
  {
    assert bids == bids[..k] + [bids[k]] + bids[k + 1..];
  }

  lemma OthersDiffer(bids: seq<Bid>, k: nat, b: Bid)
    requires DistinctBidders(bids) && k < |bids| && b in Others(bids, k)
    ensures b in bids && b.id != bids[k].id
  {
  }

  lemma IdsSeparate(a: Bid, b: Bid)
    requires a.id != b.id
    ensures RanksBefore(a, b) || RanksBefore(b, a)
  {
    LessTotal(a.id, b.id);
  }

  /** The bidder at k heads the ranking exactly when no other bid ranks before its own. */
  lemma HeadOfRanking(bids: seq<Bid>, k: nat)
    requires DistinctBidders(bids) && k < |bids|
    ensures |Ranked(bids)| == |bids|
    ensures Ranked(bids)[0].id == bids[k].id <==> Leads(bids, k)
    ensures Leads(bids, k) ==> Ranked(bids)[0] == bids[k]
  {
    hide RanksBefore, Sort;
    RankedContents(bids);
    var top := Ranked(bids)[0];
    assert top in bids && bids[k] in Ranked(bids);
    var i :| 0 <= i < |Ranked(bids)| && Ranked(bids)[i] == bids[k];
    if top.id == bids[k].id {
      forall b | b in Others(bids, k) ensures !RanksBefore(b, bids[k]) {
        assert b in Ranked(bids);
        var j :| 0 <= j < |Ranked(bids)| && Ranked(bids)[j] == b;
        OthersDiffer(bids, k, b);
      }
    } else {
      assert top in Others(bids, k);
      IdsSeparate(top, bids[k]);
    }
  }

  /** The runner-up of the ranking is the highest of the other bids. */
  lemma RunnerUp(bids: seq<Bid>, k: nat)
    requires DistinctBidders(bids) && k < |bids| && Leads(bids, k)
    ensures |Ranked(bids)| == |bids|
    ensures |bids| > 1 ==> IsHighest(Others(bids, k), Ranked(bids)[1].amount)
  {
    hide Sort;
    HeadOfRanking(bids, k);
    RankedContents(bids);
    OthersContents(bids, k);
    var ranked, others := Ranked(bids), Others(bids, k);
    if |bids| > 1 {
      TailContents(ranked);
      assert multiset(ranked[1..]) == multiset(bids) - multiset{bids[k]} == multiset(others);
      SameContents(ranked[1..], others);
      assert ranked[1] == ranked[1..][0];
      forall b | b in others ensures b.amount <= ranked[1].amount {
        var j :| 0 <= j < |ranked[1..]| && ranked[1..][j] == b;
        assert j > 0 ==> !RanksBefore(ranked[j + 1], ranked[1]);
      }
    }
  }

  /** The price the bidder at k pays if it wins; it depends on the other bids only. */
  ghost predicate IsPriceFor(others: seq<Bid>, reserve: real, price: real) {
    if others == [] then price == Round8(reserve)
    else exists h :: IsHighest(others, h) && price == Round8(Max(reserve, h))
  }

  lemma WinAndPrice(bids: seq<Bid>, reserve: real, k: nat)
    requires DistinctBidders(bids) && k < |bids|
    ensures var sale := Clear(bids, reserve);
            && (sale.Some? && sale.value.winner == bids[k].id <==> Leads(bids, k) && bids[k].amount >= reserve)
            && (sale.Some? && sale.value.winner == bids[k].id ==>
               IsPriceFor(Others(bids, k), reserve, sale.value.price))
  {
    hide RanksBefore, Sort, Round8;
    HeadOfRanking(bids, k);
    if Leads(bids, k) {
      RunnerUp(bids, k);
    }
  }

  // ----- incentives -----

  /** What the bidder at k gains when its value is v. */
  function Utility(bids: seq<Bid>, reserve: real, k: nat, v: real): real
    requires k < |bids|
  {
    var sale := Clear(bids, reserve);
    if sale.Some? && sale.value.winner == bids[k].id then v - sale.value.price else 0.0
  }

  function Rebid(bids: seq<Bid>, k: nat, amount: real): (r: seq<Bid>)
    requires k < |bids|
    ensures |r| == |bids|
  {
    bids[k := bids[k].(amount := amount)]
  }

  lemma SamePrice(others: seq<Bid>, reserve: real, p: real, q: real)
    requires IsPriceFor(others, reserve, p) && IsPriceFor(others, reserve, q)
    ensures p == q
  {
    hide Round8;
  }

  /** A bid leads if it is above the others, and only if it is not below them. */
  lemma LeadingAmount(bids: seq<Bid>, k: nat, h: real)
    requires k < |bids| && IsHighest(Others(bids, k), h)
    ensures bids[k].amount > h ==> Leads(bids, k)
    ensures Leads(bids, k) ==> bids[k].amount >= h
  {
    hide Less;
  }

  /** The price stays at or below a bid on the grid that wins, and at or above one that loses. */
  lemma PriceAgainst(bids: seq<Bid>, reserve: real, k: nat, price: real)
    requires k < |bids| && OnGrid(bids[k].amount) && IsPriceFor(Others(bids, k), reserve, price)
    ensures Leads(bids, k) && bids[k].amount >= reserve ==> price <= bids[k].amount
    ensures !(Leads(bids, k) && bids[k].amount >= reserve) ==> price >= bids[k].amount
  {
    hide RanksBefore, Round8;
    var others, b := Others(bids, k), bids[k].amount;
    if others == [] {
      Round8Properties(reserve, b);
      Round8Properties(b, reserve);
    } else {
      var h :| IsHighest(others, h) && price == Round8(Max(reserve, h));
      LeadingAmount(bids, k, h);
      Round8Properties(Max(reserve, h), b);
      Round8Properties(b, Max(reserve, h));
    }
  }

  /** Bidding one's value is a dominant strategy: whatever the others bid, whatever the reserve and the identifiers. */
  lemma TruthIsDominant(bids: seq<Bid>, reserve: real, k: nat, other: real)
    requires DistinctBidders(bids) && k < |bids| && OnGrid(bids[k].amount)
    ensures Utility(bids, reserve, k, bids[k].amount) >=
            Utility(Rebid(bids, k, other), reserve, k, bids[k].amount)
    ensures Utility(bids, reserve, k, bids[k].amount) >= 0.0
  {
    hide RanksBefore, Round8, Clear, IsPriceFor;
    var changed := Rebid(bids, k, other);
    assert Others(changed, k) == Others(bids, k);
    WinAndPrice(bids, reserve, k);
    WinAndPrice(changed, reserve, k);
    var now, later := Clear(bids, reserve), Clear(changed, reserve);
    if now.Some? && now.value.winner == bids[k].id {
      PriceAgainst(bids, reserve, k, now.value.price);
      if later.Some? && later.value.winner == bids[k].id {
        SamePrice(Others(bids, k), reserve, now.value.price, later.value.price);
      }
    } else if later.Some? && later.value.winner == bids[k].id {
      PriceAgainst(bids, reserve, k, later.value.price);
    }
  }

  lemma UtilityShift(bids: seq<Bid>, reserve: real, k: nat, v: real, w: real)
    requires k < |bids|
    ensures var sale := Clear(bids, reserve);
            Utility(bids, reserve, k, v) - Utility(bids, reserve, k, w) ==
            if sale.Some? && sale.value.winner == bids[k].id then v - w else 0.0
  {
    hide Clear;
  }

  /** A value between grid points is bid rounded, and then truth costs at most half a hundred-millionth. */
  lemma RoundedTruthRegret(bids: seq<Bid>, reserve: real, k: nat, v: real, other: real)
    requires DistinctBidders(bids) && k < |bids| && bids[k].amount == Round8(v)
    ensures Utility(bids, reserve, k, v) >= Utility(Rebid(bids, k, other), reserve, k, v) - HALF_UNIT
  {
    hide RanksBefore, Round8, Clear, Utility, IsPriceFor;
    var changed, w := Rebid(bids, k, other), Round8(v);
    Round8Properties(v, v);
    TruthIsDominant(bids, reserve, k, other);
    UtilityShift(bids, reserve, k, v, w);
    UtilityShift(changed, reserve, k, v, w);
    BothWinSame(bids, reserve, k, v, other);
  }

  lemma BothWinSame(bids: seq<Bid>, reserve: real, k: nat, v: real, other: real)
    requires DistinctBidders(bids) && k < |bids|
    ensures var (now, later) := (Clear(bids, reserve), Clear(Rebid(bids, k, other), reserve));
            now.Some? && later.Some? && now.value.winner == bids[k].id == later.value.winner ==>
              Utility(bids, reserve, k, v) == Utility(Rebid(bids, k, other), reserve, k, v)
  {
    hide RanksBefore, Clear, IsPriceFor;
    var changed := Rebid(bids, k, other);
    assert Others(changed, k) == Others(bids, k);
    WinAndPrice(bids, reserve, k);
    WinAndPrice(changed, reserve, k);
    var now, later := Clear(bids, reserve), Clear(changed, reserve);
    if now.Some? && later.Some? && now.value.winner == bids[k].id && later.value.winner == bids[k].id {
      SamePrice(Others(bids, k), reserve, now.value.price, later.value.price);
    }
  }

  // ----- exactly when rounding the bid is harmless -----

  /** Bidding the rounded value is a best reply to every bid list, reserve and alternative bid. */
  ghost predicate AlwaysBestReply(v: real) {
    forall bids: seq<Bid>, reserve: real, k: nat, other: real ::
      DistinctBidders(bids) && k < |bids| && bids[k].amount == Round8(v) ==>
        Utility(bids, reserve, k, v) >= Utility(Rebid(bids, k, other), reserve, k, v)
  }

  /** The same against bids the market can produce: all of them, and the alternative, on the grid. */
  ghost predicate AlwaysBestGridReply(v: real) {
    forall bids: seq<Bid>, reserve: real, k: nat, other: real ::
      DistinctBidders(bids) && AllOnGrid(bids) && OnGrid(other) && k < |bids| && bids[k].amount == Round8(v) ==>
        Utility(bids, reserve, k, v) >= Utility(Rebid(bids, k, other), reserve, k, v)
  }

  lemma LoneBidder(bid: Bid, reserve: real, v: real)
    ensures Utility([bid], reserve, 0, v) == if bid.amount >= reserve then v - Round8(reserve) else 0.0
  {
    hide RanksBefore, Round8;
    assert Others([bid], 0) == [];
    WinAndPrice([bid], reserve, 0);
  }

  lemma GridShift(x: real, k: int)
    requires OnGrid(x)
    ensures OnGrid(x + k as real)
  {
    var n := RoundHalfEven(x * GRID);
    assert x * GRID == n as real;
    assert (x + k as real) * GRID == (n + 100000000 * k) as real;
    RoundInteger(n + 100000000 * k);
  }

  /** A value rounded up buys above itself at a reserve equal to the bid; one rounded down misses a reserve equal to
      itself. Either way a lone bidder gains by another bid on the grid. */
  lemma OffGridDeviation(v: real, id: string) returns (reserve: real, other: real)
    requires !OnGrid(v)
    ensures OnGrid(other)
    ensures Utility([Bid(id, v, Round8(v))], reserve, 0, v) < Utility([Bid(id, v, other)], reserve, 0, v)
  {
    hide Round8, Utility;
    var w := Round8(v);
    Round8Properties(v, v);
    reserve, other := if w > v then w else v, if w > v then w - 1.0 else w + 1.0;
    GridShift(w, if w > v then -1 else 1);
    LoneBidder(Bid(id, v, w), reserve, v);
    LoneBidder(Bid(id, v, other), reserve, v);
  }

  /** Truth, as the market rounds it, is dominant for exactly the values on the grid. */
  lemma TruthIsDominantIff(v: real)
    ensures AlwaysBestReply(v) <==> OnGrid(v)
    ensures AlwaysBestGridReply(v) <==> OnGrid(v)
  {
    hide Round8, Utility;
    if OnGrid(v) {
      forall bids: seq<Bid>, reserve: real, k: nat, other: real
        | DistinctBidders(bids) && k < |bids| && bids[k].amount == Round8(v)
        ensures Utility(bids, reserve, k, v) >= Utility(Rebid(bids, k, other), reserve, k, v)
      {
        TruthIsDominant(bids, reserve, k, other);
      }
    } else {
      var reserve, other := OffGridDeviation(v, "a");
      var bids := [Bid("a", v, Round8(v))];
      Round8Properties(v, v);
      assert DistinctBidders(bids) && AllOnGrid(bids) && bids[0].amount == Round8(v);
      assert Rebid(bids, 0, other) == [Bid("a", v, other)];
    }
  }

  // ----- bounds on the price -----

  /** The price never exceeds the winning bid. It is at least the reserve exactly when the runner-up is, or when
      rounding does not lower the reserve itself. */
  lemma PriceBounds(bids: seq<Bid>, reserve: real, k: nat)
    requires DistinctBidders(bids) && AllOnGrid(bids) && k < |bids|
    requires var sale := Clear(bids, reserve); sale.Some? && sale.value.winner == bids[k].id
    ensures var price := Clear(bids, reserve).value.price;
            && price <= bids[k].amount
            && (price >= reserve <==>
                  Round8(reserve) >= reserve || exists b :: b in Others(bids, k) && b.amount >= reserve)
  {
    hide RanksBefore, Round8, Clear;
    WinAndPrice(bids, reserve, k);
    var price, others := Clear(bids, reserve).value.price, Others(bids, k);
    PriceAgainst(bids, reserve, k, price);
    if others != [] {
      var h :| IsHighest(others, h) && price == Round8(Max(reserve, h));
      if h >= reserve {
        var b :| b in others && b.amount == h;
        assert OnGrid(b.amount);
      }
    }
  }

  /** A reserve finer than the grid can be undercut by its own rounding. */
  lemma ReserveCanBeUndercut(id: string)
    ensures var sale := Clear([Bid(id, 1.0, 1.0)], 0.000000004);
            sale.Some? && sale.value.price == 0.0 < 0.000000004
  {
    var bids := [Bid(id, 1.0, 1.0)];
    RankedContents(bids);
    assert Ranked(bids)[0] in bids;
    assert RoundHalfEven(0.4) == 0;
  }

  /** Off the grid, rounding the bid can make truth cost something: winning a tie above one's value. */
  lemma RoundedTruthCanLose()
    ensures var bids := [Bid("a", 0.0, 0.00000001), Bid("b", 0.0, 0.00000001)];
            && bids[0].amount == Round8(0.000000006)
            && Utility(bids, 0.0, 0, 0.000000006) < Utility(Rebid(bids, 0, 0.0), 0.0, 0, 0.000000006)
  {
    var bids := [Bid("a", 0.0, 0.00000001), Bid("b", 0.0, 0.00000001)];
    var changed := Rebid(bids, 0, 0.0);
    assert RoundHalfEven(0.6) == 1 && RoundHalfEven(1.0) == 1;
    assert Round8(0.00000001) == 0.00000001;
    assert Others(bids, 0) == [bids[1]] == Others(changed, 0);
    assert !Less("b", "a");
    WinAndPrice(bids, 0.0, 0);
    WinAndPrice(changed, 0.0, 0);
    assert RanksBefore(bids[1], changed[0]);
  }

  // ----- allocative efficiency -----

  function MaxValue(bids: seq<Bid>): real {
    if bids == [] then 0.0
    else if |bids| == 1 then bids[0].value
    else Max(MaxValue(bids[..|bids| - 1]), bids[|bids| - 1].value)
  }

  function ValueOf(bids: seq<Bid>, id: string): real {
    if bids == [] then 0.0
    else if bids[|bids| - 1].id == id then bids[|bids| - 1].value
    else ValueOf(bids[..|bids| - 1], id)
  }

  function Efficiency(bids: seq<Bid>, sale: Option<Sale>): real {
    var top := MaxValue(bids);
    if sale.None? then (if top == 0.0 then 1.0 else 0.0)
    else Round8(if top != 0.0 then ValueOf(bids, sale.value.winner) / top else 1.0)
  }

  lemma {:induction false} MaxValueIsMax(bids: seq<Bid>)
    requires bids != []
    ensures exists b :: b in bids && b.value == MaxValue(bids)
    ensures forall b :: b in bids ==> b.value <= MaxValue(bids)
    decreases |bids|
  {
    if |bids| > 1 {
      var init, last := bids[..|bids| - 1], bids[|bids| - 1];
      MaxValueIsMax(init);
      assert bids == init + [last];
      var b :| b in init && b.value == MaxValue(init);
      assert b in bids && last in bids;
    } else {
      assert bids[0] in bids;
    }
  }

  lemma {:induction false} ValueOfMember(bids: seq<Bid>, b: Bid)
    requires DistinctBidders(bids) && b in bids
    ensures ValueOf(bids, b.id) == b.value
    decreases |bids|
  {
    var init, last := bids[..|bids| - 1], bids[|bids| - 1];
    assert bids == init + [last];
    if last == b {
    } else {
      ValueOfMember(init, b);
    }
  }

  /** When everyone bids its value and the object is sold, it goes to a bidder who values it most. */
  lemma TruthfulSaleIsEfficient(bids: seq<Bid>, reserve: real)
    requires DistinctBidders(bids) && Clear(bids, reserve).Some?
    requires forall b :: b in bids ==> b.amount == b.value
    ensures Efficiency(bids, Clear(bids, reserve)) == 1.0
  {
    hide Ranked, MaxValue, ValueOf, Round8;
    var top := Ranked(bids)[0];
    TruthfulWinnerIsTop(bids);
    ValueOfMember(bids, top);
    RoundOne();
    var m := MaxValue(bids);
    if m != 0.0 {
      SelfQuotient(ValueOf(bids, top.id), m);
    }
  }

  lemma SelfQuotient(v: real, m: real)
    requires v == m && m != 0.0
    ensures v / m == 1.0
  {
  }

  lemma RoundOne()
    ensures Round8(1.0) == 1.0
  {
    assert RoundHalfEven(100000000.0) == 100000000;
  }

  lemma TruthfulWinnerIsTop(bids: seq<Bid>)
    requires Ranked(bids) != [] && forall b :: b in bids ==> b.amount == b.value
    ensures Ranked(bids)[0] in bids && Ranked(bids)[0].value == MaxValue(bids)
  {
    hide Sort, MaxValue;
    RankedContents(bids);
    var ranked := Ranked(bids);
    MaxValueIsMax(bids);
    var b :| b in bids && b.value == MaxValue(bids);
    assert b in ranked;
    var j :| 0 <= j < |ranked| && ranked[j] == b;
    assert j > 0 ==> !RanksBefore(ranked[j], ranked[0]);
  }

  // ----- running the market -----

  predicate AgentBefore(a: Agent, b: Agent) {
    Less(a.id, b.id)
  }

  predicate NewsBefore(a: News, b: News) {
    a.timestamp < b.timestamp || (a.timestamp == b.timestamp && Less(a.id, b.id))
  }

  function Bids(agents: seq<Agent>, news: seq<News>, asset: string): seq<Bid> {
    if agents == [] then [] else
      var last := agents[|agents| - 1];
      Bids(agents[..|agents| - 1], news, asset) + if last.asset == asset then [BidOf(last, news)] else []
  }

  /** The bids of a run, in order of agent. */
  function MarketBids(agents: seq<Agent>, news: seq<News>, asset: string): seq<Bid> {
    Bids(Sort(AgentBefore, agents), Sort(NewsBefore, news), asset)
  }

  /** The event identifiers the run appends to its ledger. */
  function LedgerIds(bids: seq<Bid>, news: seq<News>): seq<string> {
    ["market-config"] + seq(|news|, (i: nat) requires i < |news| => news[i].id)
    + seq(|bids|, (i: nat) requires i < |bids| => "bid:" + bids[i].id) + ["market-result"]
  }

  ghost predicate Distinct(ids: seq<string>) {
    forall i, j :: 0 <= i < j < |ids| ==> ids[i] != ids[j]
  }

  /** The ledger refuses a repeated event identifier, which ends the run; otherwise the market clears. */
  method RunSealedBidMarket(asset: string, agents: seq<Agent>, news: seq<News>, reserve: real)
    returns (r: Result<Outcome, MarketError>)
    ensures var sorted := Sort(NewsBefore, news);
            var bids := MarketBids(agents, news, asset);
            if !Distinct(LedgerIds(bids, sorted)) then r == Failure(DuplicateEvent)
            else r == Success(Outcome(Clear(bids, reserve), Efficiency(bids, Clear(bids, reserve)), bids))
                 && DistinctBidders(bids) && AllOnGrid(bids)
  {
    hide Sort, BidOf, Clear, Efficiency;
    var sortedAgents, sortedNews := Sort(AgentBefore, agents), Sort(NewsBefore, news);
    var bids, events: seq<string> := CollectBids(sortedAgents, sortedNews, asset);
    var distinct := CheckDistinct(events);
    if !distinct {
      return Failure(DuplicateEvent);
    }
    DistinctLedger(bids, sortedNews);
    BidsOnGrid(sortedAgents, sortedNews, asset);
    var sale := Settle(bids, reserve);
    var efficiency := MeasureEfficiency(bids, sale);
    return Success(Outcome(sale, efficiency, bids));
  }

  /** The bids of the agents in the market, and the identifiers of the events recorded. */
  method CollectBids(agents: seq<Agent>, news: seq<News>, asset: string) returns (bids: seq<Bid>, events: seq<string>)
    ensures bids == Bids(agents, news, asset) && events == LedgerIds(bids, news)
  {
    hide BidOf;
    bids, events := [], ["market-config"];
    for i := 0 to |news|
      invariant events == ["market-config"] + seq(i, (j: nat) requires j < i => news[j].id)
    {
      events := events + [news[i].id];
    }
    for i := 0 to |agents|
      invariant bids == Bids(agents[..i], news, asset)
      invariant events + ["market-result"] == LedgerIds(bids, news)
    {
      assert agents[..i + 1][..i] == agents[..i];
      if agents[i].asset == asset {
        var bid := MakeBid(agents[i], news);
        NextLedgerId(bids, bid, news);
        bids, events := bids + [bid], events + ["bid:" + agents[i].id];
      }
    }
    assert agents[..|agents|] == agents;
    events := events + ["market-result"];
  }

  lemma NextLedgerId(bids: seq<Bid>, bid: Bid, news: seq<News>)
    ensures var before := LedgerIds(bids, news);
            LedgerIds(bids + [bid], news) == before[..|before| - 1] + ["bid:" + bid.id, "market-result"]
  {
  }

  method MakeBid(a: Agent, news: seq<News>) returns (bid: Bid)
    ensures bid == BidOf(a, news) && bid.id == a.id
  {
    hide Round8, TrueValue;
    var value := WorthTo(a, news);
    var rounded := RoundedEight(value);
    var amount := RoundedEight(Product(value, a.multiplier));
    return Bid(a.id, rounded, amount);
  }

  method WorthTo(a: Agent, news: seq<News>) returns (value: real)
    ensures value == TrueValue(a, news)
  {
    value := 0.0;
    for i := 0 to |news|
      invariant value == NewsEffect(news[..i], a.asset)
    {
      assert news[..i + 1][..i] == news[..i];
      if news[i].asset == a.asset {
        value := value + news[i].delta;
      }
    }
    assert news[..|news|] == news;
    value := a.base + value;
    if value < 0.0 {
      value := 0.0;
    }
  }

  method RoundedEight(x: real) returns (r: real)
    ensures r == Round8(x)
  {
    return RoundHalfEven(x * 100000000.0) as real / 100000000.0;
  }

  /** The highest bid wins if it reaches the reserve, and pays the larger of the reserve and the second bid. */
  method Settle(bids: seq<Bid>, reserve: real) returns (sale: Option<Sale>)
    ensures sale == Clear(bids, reserve)
  {
    hide RanksBefore, Sort, Round8;
    sale := None;
    var ranked := Sort(RanksBefore, bids);
    if |ranked| > 0 && ranked[0].amount >= reserve {
      var price := reserve;
      if |ranked| > 1 && ranked[1].amount > price {
        price := ranked[1].amount;
      }
      price := RoundedEight(price);
      sale := Some(Sale(ranked[0].id, price));
    }
  }

  /** The share of the highest value that the winner realises. */
  method MeasureEfficiency(bids: seq<Bid>, sale: Option<Sale>) returns (efficiency: real)
    ensures efficiency == Efficiency(bids, sale)
  {
    hide Round8;
    var top := 0.0;
    for i := 0 to |bids|
      invariant top == MaxValue(bids[..i])
    {
      assert bids[..i + 1][..i] == bids[..i];
      if i == 0 || bids[i].value > top {
        top := bids[i].value;
      }
    }
    assert bids[..|bids|] == bids;
    if sale.None? {
      return if top == 0.0 then 1.0 else 0.0;
    }
    var realised := WinnerValue(bids, sale.value.winner);
    efficiency := 1.0;
    if top != 0.0 {
      efficiency := realised / top;
    }
    efficiency := RoundedEight(efficiency);
  }

  method WinnerValue(bids: seq<Bid>, winner: string) returns (value: real)
    ensures value == ValueOf(bids, winner)
  {
    value := 0.0;
    for i := 0 to |bids|
      invariant value == ValueOf(bids[..i], winner)
    {
      assert bids[..i + 1][..i] == bids[..i];
      if bids[i].id == winner {
        value := bids[i].value;
      }
    }
    assert bids[..|bids|] == bids;
  }

  method CheckDistinct(ids: seq<string>) returns (distinct: bool)
    ensures distinct <==> Distinct(ids)
  {
    var seen: set<string> := {};
    for i := 0 to |ids|
      invariant Distinct(ids[..i])
      invariant forall id :: id in seen <==> id in ids[..i]
    {
      if ids[i] in seen {
        var j :| 0 <= j < i && ids[..i][j] == ids[i];
        return false;
      }
      seen := seen + {ids[i]};
    }
    assert ids[..|ids|] == ids;
    return true;
  }

  lemma DistinctLedger(bids: seq<Bid>, news: seq<News>)
    requires Distinct(LedgerIds(bids, news))
    ensures DistinctBidders(bids)
  {
    var ids, n := LedgerIds(bids, news), 1 + |news|;
    forall i, j | 0 <= i < j < |bids| ensures bids[i].id != bids[j].id {
      assert ids[n + i] == "bid:" + bids[i].id && ids[n + j] == "bid:" + bids[j].id;
    }
  }

  lemma {:induction false} BidsOnGrid(agents: seq<Agent>, news: seq<News>, asset: string)
    ensures AllOnGrid(Bids(agents, news, asset))
    decreases |agents|
  {
    hide Round8;
    if agents == [] {
    } else {
      var last := agents[|agents| - 1];
      BidsOnGrid(agents[..|agents| - 1], news, asset);
      Round8Properties(Product(TrueValue(last, news), last.multiplier), 0.0);
    }
  }

  // ----- incentives in a run -----

  /** The agent with this identifier in this market bids with another multiplier. */
  function Shade(a: Agent, id: string, asset: string, multiplier: real): Agent {
    if a.id == id && a.asset == asset then a.(multiplier := multiplier) else a
  }

  function ShadeAll(agents: seq<Agent>, id: string, asset: string, multiplier: real): (r: seq<Agent>)
    ensures |r| == |agents|
  {
    seq(|agents|, (i: nat) requires i < |agents| => Shade(agents[i], id, asset, multiplier))
  }

  lemma {:induction false} InsertShaded(a: Agent, sorted: seq<Agent>, id: string, asset: string, m: real)
    ensures Insert(AgentBefore, Shade(a, id, asset, m), ShadeAll(sorted, id, asset, m)) ==
            ShadeAll(Insert(AgentBefore, a, sorted), id, asset, m)
    decreases |sorted|
  {
    hide Less;
    if sorted == [] {
    } else {
      InsertShaded(a, sorted[1..], id, asset, m);
      assert ShadeAll(sorted, id, asset, m)[1..] == ShadeAll(sorted[1..], id, asset, m);
    }
  }

  /** The multiplier plays no part in the order of the agents. */
  lemma {:induction false} SortShaded(agents: seq<Agent>, id: string, asset: string, m: real)
    ensures Sort(AgentBefore, ShadeAll(agents, id, asset, m)) == ShadeAll(Sort(AgentBefore, agents), id, asset, m)
    decreases |agents|
  {
    hide AgentBefore;
    if agents == [] {
    } else {
      SortShaded(agents[1..], id, asset, m);
      InsertShaded(agents[0], Sort(AgentBefore, agents[1..]), id, asset, m);
      assert ShadeAll(agents, id, asset, m)[1..] == ShadeAll(agents[1..], id, asset, m);
    }
  }

  lemma BidShaded(a: Agent, news: seq<News>, asset: string, id: string, m: real)
    ensures var other := BidOf(Shade(a, id, asset, m), news);
            && Shade(a, id, asset, m).asset == a.asset && other == BidOf(a, news).(amount := other.amount)
            && (BidOf(a, news).id != id ==> other == BidOf(a, news))
  {
    hide Round8;
  }

  /** A different multiplier changes the amount of one bid and nothing else. */
  lemma {:induction false} BidsShaded(agents: seq<Agent>, news: seq<News>, asset: string, id: string, m: real)
    ensures var bids, shaded := Bids(agents, news, asset), Bids(ShadeAll(agents, id, asset, m), news, asset);
            && |shaded| == |bids|
            && forall k :: 0 <= k < |bids| ==>
                 && (bids[k].id != id ==> shaded[k] == bids[k])
                 && shaded[k] == bids[k].(amount := shaded[k].amount)
    decreases |agents|
  {
    hide BidOf, Shade, Bids;
    if agents == [] {
      NoBids(news, asset);
      assert ShadeAll([], id, asset, m) == [];
    } else {
      var n := |agents| - 1;
      BidShaded(agents[n], news, asset, id, m);
      BidsShaded(agents[..n], news, asset, id, m);
      assert ShadeAll(agents, id, asset, m)[..n] == ShadeAll(agents[..n], id, asset, m);
      BidsSnoc(agents, news, asset);
      BidsSnoc(ShadeAll(agents, id, asset, m), news, asset);
    }
  }

  lemma NoBids(news: seq<News>, asset: string)
    ensures Bids([], news, asset) == []
  {
  }

  lemma BidsSnoc(agents: seq<Agent>, news: seq<News>, asset: string)
    requires agents != []
    ensures var n := |agents| - 1;
            Bids(agents, news, asset) ==
            Bids(agents[..n], news, asset) + if agents[n].asset == asset then [BidOf(agents[n], news)] else []
  {
    hide BidOf;
  }

  lemma ShadedIsRebid(bids: seq<Bid>, shaded: seq<Bid>, id: string, k: nat)
    requires DistinctBidders(bids) && k < |bids| && bids[k].id == id && |shaded| == |bids|
    requires forall i :: 0 <= i < |bids| ==>
               && (bids[i].id != id ==> shaded[i] == bids[i])
               && shaded[i] == bids[i].(amount := shaded[i].amount)
    ensures shaded == Rebid(bids, k, shaded[k].amount)
  {
  }

  /** Every agent of the market has its bid. */
  lemma {:induction false} AgentHasBid(agents: seq<Agent>, news: seq<News>, asset: string, a: Agent) returns (k: nat)
    requires a in agents && a.asset == asset
    ensures k < |Bids(agents, news, asset)| && Bids(agents, news, asset)[k] == BidOf(a, news)
    decreases |agents|
  {
    hide BidOf;
    var n := |agents| - 1;
    assert agents == agents[..n] + [agents[n]];
    if agents[n] == a {
      k := |Bids(agents[..n], news, asset)|;
    } else {
      k := AgentHasBid(agents[..n], news, asset, a);
    }
  }

  /** With multiplier one an agent bids its rounded value. */
  lemma UnitMultiplierBidsValue(a: Agent, news: seq<News>)
    requires a.multiplier == 1.0
    ensures BidOf(a, news).amount == BidOf(a, news).value == Round8(TrueValue(a, news))
  {
  }

  /** In any run that does not fail, an agent of multiplier one gains by no other multiplier when its value is on the
      grid, and by at most half a unit in general. */
  lemma RunTruthIsBest(agents: seq<Agent>, news: seq<News>, asset: string, reserve: real, a: Agent,
                       m: real) returns (k: nat)
    requires Distinct(LedgerIds(MarketBids(agents, news, asset), Sort(NewsBefore, news)))
    requires a in agents && a.asset == asset && a.multiplier == 1.0
    ensures var bids, v := MarketBids(agents, news, asset), TrueValue(a, Sort(NewsBefore, news));
            var shaded := MarketBids(ShadeAll(agents, a.id, asset, m), news, asset);
            && k < |bids| == |shaded| && bids[k].id == a.id
            && Distinct(LedgerIds(shaded, Sort(NewsBefore, news)))
            && (OnGrid(v) ==> Utility(bids, reserve, k, v) >= Utility(shaded, reserve, k, v))
            && Utility(bids, reserve, k, v) >= Utility(shaded, reserve, k, v) - HALF_UNIT
  {
    hide Bids, Utility, Round8, TrueValue;
    var sorted, sortedNews := Sort(AgentBefore, agents), Sort(NewsBefore, news);
    var bids, v := MarketBids(agents, news, asset), TrueValue(a, sortedNews);
    var shaded := MarketBids(ShadeAll(agents, a.id, asset, m), news, asset);
    SortedAgents(agents, a);
    k := AgentHasBid(sorted, sortedNews, asset, a);
    DistinctLedger(bids, sortedNews);
    SortShaded(agents, a.id, asset, m);
    BidsShaded(sorted, sortedNews, asset, a.id, m);
    ShadedIsRebid(bids, shaded, a.id, k);
    UnitMultiplierBidsValue(a, sortedNews);
    SameLedger(bids, shaded, sortedNews);
    RoundedTruthRegret(bids, reserve, k, v, shaded[k].amount);
    if OnGrid(v) {
      TruthIsDominant(bids, reserve, k, shaded[k].amount);
    }
  }

  lemma {:induction false} SortedAgents(agents: seq<Agent>, a: Agent)
    requires a in agents
    ensures a in Sort(AgentBefore, agents)
    decreases |agents|
  {
    hide Less;
    InsertContents(AgentBefore, agents[0], Sort(AgentBefore, agents[1..]));
    if a == agents[0] {
      assert a in multiset(Sort(AgentBefore, agents));
    } else {
      SortedAgents(agents[1..], a);
      assert a in multiset(Sort(AgentBefore, agents));
    }
  }

  lemma SameLedger(bids: seq<Bid>, other: seq<Bid>, news: seq<News>)
    requires |bids| == |other| && forall i :: 0 <= i < |bids| ==> bids[i].id == other[i].id
    ensures LedgerIds(bids, news) == LedgerIds(other, news)
  {
  }
}
