/** Median over the validators' reports: which validators count for a pair, the power threshold,
    and what the resulting price means in terms of stake rather than of listings. */
module StakeMedian {
  import opened Wrappers
  import opened FiniteSums
  import opened VoteWeighted

  datatype CurrencyPair = CurrencyPair(base: string, quote: string)

  /** A consensus address. Its bech32 text is a one-to-one rendering of these bytes. */
  datatype Address = Address(raw: bytes)

  /** A validator's reports; None is a nil *big.Int. */
  type Prices = map<CurrencyPair, Option<int>>

  /** Validator address to that validator's prices. */
  type Reports = map<Address, Prices>

  /** What the staking module answers. `bonded` holds the validators whose address parses and is
      known to the store; both lookup failures of the source skip the validator. */
  datatype ValidatorStore = ValidatorStore(bonded: map<Address, nat>, totalBonded: nat)

  /** The accepted prices of one currency pair, by validator. */
  type Ballot = map<Address, int>

  // ---------------------------------------------------------------- decimals

  /** A LegacyDec is an integer number of 10^-18 units. */
  const ONE: int := 1_000_000_000_000_000_000

  /** DefaultPowerThreshold, 0.667. */
  const DEFAULT_POWER_THRESHOLD: int := 667_000_000_000_000_000

  /** q is a decimal within 10^-18 of num / den. */
  predicate IsQuotient(q: int, num: nat, den: nat) {
    q * den - num * ONE <= den && num * ONE - q * den <= den
  }

  ghost predicate Rounds(quo: (nat, nat) -> int) {
    forall num: nat, den: nat :: den > 0 ==> IsQuotient(quo(num, den), num, den)
  }

  /** Division that truncates the decimal: one of the allowed rounding modes. */
  function Truncated(num: nat, den: nat): (q: int)
    ensures den > 0 ==> IsQuotient(q, num, den)
  {
    if den == 0 then 0 else num * ONE / den
  }

  /** A rounding division of decimals: any rounding mode is allowed as long as the error stays
      within one unit in the last place. */
  type Division = quo: (nat, nat) -> int | Rounds(quo) witness Truncated

  // ---------------------------------------------------------------- specification

  ghost predicate Reporter(reports: Reports, store: ValidatorStore, cp: CurrencyPair, v: Address) {
    v in reports && v in store.bonded && cp in reports[v] && reports[v][cp].Some?
  }

  ghost function BallotOf(reports: Reports, store: ValidatorStore, cp: CurrencyPair): Ballot {
    map v | v in reports && Reporter(reports, store, cp, v) :: reports[v][cp].value
  }

  ghost function AtOrBelow(b: Ballot, p: int): set<Address> {
    set v | v in b && b[v] <= p
  }

  /** r is reported, at least half (floored) of the reporting stake reported r or less, and less
      than that reported any smaller price. */
  ghost predicate IsStakeMedian(b: Ballot, bonded: map<Address, nat>, r: int)
    requires b.Keys <= bonded.Keys
  {
    && r in b.Values
    && Sum(AtOrBelow(b, r), bonded) >= Sum(b.Keys, bonded) / 2
    && forall v | v in b && b[v] < r :: Sum(AtOrBelow(b, b[v]), bonded) < Sum(b.Keys, bonded) / 2
  }

  lemma StakeMedianUnique(b: Ballot, bonded: map<Address, nat>, r: int, r': int)
    requires b.Keys <= bonded.Keys
    requires IsStakeMedian(b, bonded, r) && IsStakeMedian(b, bonded, r')
    ensures r == r'
  {
    var v :| v in b && b[v] == r;
    var v' :| v' in b && b[v'] == r';
  }

  /** The stake that reported cp is a large enough share of all bonded stake. */
  predicate MeetsThreshold(weight: nat, total: nat, threshold: int, quo: Division) {
    quo(weight, total) >= threshold
  }

  ghost predicate Priced(reports: Reports, store: ValidatorStore, threshold: int, quo: Division, cp: CurrencyPair) {
    var b := BallotOf(reports, store, cp);
    b != map[] && MeetsThreshold(Sum(b.Keys, store.bonded), store.totalBonded, threshold, quo)
  }

  /** The final prices: exactly the pairs above the threshold, each with its stake median. */
  ghost predicate AreMedianPrices(reports: Reports, store: ValidatorStore, threshold: int, quo: Division,
                                  prices: map<CurrencyPair, int>)
  {
    && (forall cp :: cp in prices <==> Priced(reports, store, threshold, quo, cp))
    && (forall cp | cp in prices :: IsStakeMedian(BallotOf(reports, store, cp), store.bonded, prices[cp]))
  }

  /** Every node that runs Median on the same reports and staking state gets the same prices,
      whatever the iteration order of its maps. */
  lemma MedianPricesUnique(reports: Reports, store: ValidatorStore, threshold: int, quo: Division,
                           p: map<CurrencyPair, int>, p': map<CurrencyPair, int>)
    requires AreMedianPrices(reports, store, threshold, quo, p)
    requires AreMedianPrices(reports, store, threshold, quo, p')
    ensures p == p'
  {
    hide Priced, BallotOf, IsStakeMedian;
    forall cp | cp in p
      ensures cp in p' && p[cp] == p'[cp]
    {
      BallotIsBonded(reports, store, cp);
      StakeMedianUnique(BallotOf(reports, store, cp), store.bonded, p[cp], p'[cp]);
    }
    assert forall cp | cp in p' :: cp in p;
  }

  lemma BallotIsBonded(reports: Reports, store: ValidatorStore, cp: CurrencyPair)
    ensures BallotOf(reports, store, cp).Keys <= store.bonded.Keys
  {
  }

  // ---------------------------------------------------------------- Median

  datatype PriceInfo = PriceInfo(prices: seq<PricePerValidator>, totalWeight: nat)

  function Append(info: map<CurrencyPair, PriceInfo>, cp: CurrencyPair, entry: PricePerValidator): PriceInfo {
    var current := if cp in info then info[cp] else PriceInfo([], 0);
    PriceInfo(current.prices + [entry], current.totalWeight + entry.voteWeight)
  }

  /** One validator's prices appended to every pair it reported with a non-nil price. */
  ghost function Recorded(info: map<CurrencyPair, PriceInfo>, prices: Prices, weight: nat)
    : map<CurrencyPair, PriceInfo>
  {
    info + map cp | cp in prices && prices[cp].Some? :: Append(info, cp, PricePerValidator(weight, prices[cp].value))
  }

  method RecordValidator(info: map<CurrencyPair, PriceInfo>, prices: Prices, weight: nat)
      returns (out: map<CurrencyPair, PriceInfo>)
    ensures out == Recorded(info, prices, weight)
  {
    out := info;
    var left := prices.Keys;
    while left != {}
      invariant left <= prices.Keys
      invariant out == Recorded(info, map cp | cp in prices && cp !in left :: prices[cp], weight)
    {
      var cp :| cp in left;
      left := left - {cp};
      if prices[cp].Some? {
        out := out[cp := Append(out, cp, PricePerValidator(weight, prices[cp].value))];
      }
    }
    assert (map cp | cp in prices && cp !in left :: prices[cp]) == prices;
  }

  /** `order` lists, once each, the validators behind the entries of `info`. */
  ghost predicate Represents(info: PriceInfo, order: seq<Address>, b: Ballot, bonded: map<Address, nat>) {
    && b.Keys <= bonded.Keys
    && |order| == |info.prices|
    && (forall i, j :: 0 <= i < j < |order| ==> order[i] != order[j])
    && (set v | v in order) == b.Keys
    && (forall i :: 0 <= i < |order| ==>
          order[i] in b && info.prices[i] == PricePerValidator(bonded[order[i]], b[order[i]]))
    && info.totalWeight == TotalWeight(info.prices)
  }

  ghost function Voters(order: seq<Address>, b: Ballot, p: int): set<Address> {
    set v | v in order && v in b && b[v] <= p
  }

  lemma VotersCons(order: seq<Address>, b: Ballot, p: int)
    requires order != [] && order[0] !in order[1..] && order[0] in b
    ensures order[0] !in Voters(order[1..], b, p)
    ensures Voters(order, b, p) == Voters(order[1..], b, p) + if b[order[0]] <= p then {order[0]} else {}
  {
    assert order == [order[0]] + order[1..];
  }

  /** The sums over a listing are the sums over the set of validators behind it. */
  lemma {:induction false} ListingSums(prices: seq<PricePerValidator>, order: seq<Address>, b: Ballot,
                                       bonded: map<Address, nat>, p: int)
    requires b.Keys <= bonded.Keys && |order| == |prices|
    requires forall i, j :: 0 <= i < j < |order| ==> order[i] != order[j]
    requires forall i :: 0 <= i < |order| ==>
               order[i] in b && prices[i] == PricePerValidator(bonded[order[i]], b[order[i]])
    ensures WeightUpTo(prices, p) == Sum(Voters(order, b, p), bonded)
  {
    if order == [] {
      assert Voters(order, b, p) == {};
    } else {
      var first, rest := order[0], Voters(order[1..], b, p);
      ListingSums(prices[1..], order[1..], b, bonded, p);
      VotersCons(order, b, p);
      if b[first] <= p {
        SumRemove(rest + {first}, bonded, first);
        assert rest + {first} - {first} == rest;
      } else {
        assert rest + {} == rest;
      }
    }
  }

  lemma {:induction false} TotalIsWeightUpTo(prices: seq<PricePerValidator>, p: int)
    requires forall i :: 0 <= i < |prices| ==> prices[i].price <= p
    ensures TotalWeight(prices) == WeightUpTo(prices, p)
  {
    if prices != [] {
      TotalIsWeightUpTo(prices[1..], p);
    }
  }

  lemma RepresentedSums(info: PriceInfo, order: seq<Address>, b: Ballot, bonded: map<Address, nat>, p: int)
    requires Represents(info, order, b, bonded)
    ensures WeightUpTo(info.prices, p) == Sum(AtOrBelow(b, p), bonded)
  {
    ListingSums(info.prices, order, b, bonded, p);
    assert forall v :: v in order <==> v in b.Keys;
    assert AtOrBelow(b, p) == Voters(order, b, p);
  }

  lemma RepresentedTotal(info: PriceInfo, order: seq<Address>, b: Ballot, bonded: map<Address, nat>)
    requires Represents(info, order, b, bonded)
    ensures info.totalWeight == Sum(b.Keys, bonded)
  {
    if b != map[] {
      var top := MaxHonest(b, b.Keys);
      forall i | 0 <= i < |info.prices|
        ensures info.prices[i].price <= b[top]
      {
        assert order[i] in b;
      }
      TotalIsWeightUpTo(info.prices, b[top]);
      RepresentedSums(info, order, b, bonded, b[top]);
      assert AtOrBelow(b, b[top]) == b.Keys;
    } else {
      TallyEmpty(order, b);
    }
  }

  lemma TallyEmpty(order: seq<Address>, b: Ballot)
    requires (set v | v in order) == b.Keys
    ensures order == [] <==> b == map[]
  {
    if order != [] {
      assert order[0] in b.Keys;
    } else {
      assert b.Keys == {};
    }
  }

  lemma MedianOfListing(info: PriceInfo, order: seq<Address>, b: Ballot, bonded: map<Address, nat>, r: int)
    requires Represents(info, order, b, bonded)
    requires IsMedian(info.prices, Half(info.totalWeight), r)
    ensures IsStakeMedian(b, bonded, r)
  {
    hide WeightUpTo, TotalWeight, Sum;
    RepresentedTotal(info, order, b, bonded);
    RepresentedSums(info, order, b, bonded, r);
    var k :| 0 <= k < |info.prices| && info.prices[k].price == r;
    assert b[order[k]] == r;
    forall v | v in b
      ensures exists i :: 0 <= i < |order| && order[i] == v
      ensures b[v] < r ==> Sum(AtOrBelow(b, b[v]), bonded) < Sum(b.Keys, bonded) / 2
    {
      assert v in order;
      var i :| 0 <= i < |order| && order[i] == v;
      assert info.prices[i].price == b[v];
      RepresentedSums(info, order, b, bonded, b[v]);
    }
    if forall i :: 0 <= i < |info.prices| ==> info.prices[i].price <= r {
      assert AtOrBelow(b, r) == b.Keys;
    }
  }

  /** The accumulated info describes the ballots of the reports visited so far. */
  ghost predicate Tallied(info: map<CurrencyPair, PriceInfo>, orders: map<CurrencyPair, seq<Address>>,
                          reports: Reports, store: ValidatorStore)
  {
    && info.Keys == orders.Keys
    && (forall cp :: cp in info <==> BallotOf(reports, store, cp) != map[])
    && (forall cp | cp in info :: Represents(info[cp], orders[cp], BallotOf(reports, store, cp), store.bonded))
  }

  lemma BallotGrows(reports: Reports, store: ValidatorStore, v: Address, prices: Prices, cp: CurrencyPair)
    requires v !in reports
    ensures var b, b' := BallotOf(reports, store, cp), BallotOf(reports[v := prices], store, cp);
            if v in store.bonded && cp in prices && prices[cp].Some? then v !in b && b' == b[v := prices[cp].value]
            else b' == b
  {
    var grown := reports[v := prices];
    forall u
      ensures Reporter(grown, store, cp, u) <==>
              Reporter(reports, store, cp, u) || (u == v && v in store.bonded && cp in prices && prices[cp].Some?)
    {
    }
  }

  lemma OrderSnoc(order: seq<Address>, v: Address)
    requires v !in order && forall i, j :: 0 <= i < j < |order| ==> order[i] != order[j]
    ensures forall i, j :: 0 <= i < j < |order + [v]| ==> (order + [v])[i] != (order + [v])[j]
    ensures (set u | u in order + [v]) == (set u | u in order) + {v}
  {
    assert forall u :: u in order + [v] <==> u in order || u == v;
  }

  lemma RepresentsSnoc(info: PriceInfo, order: seq<Address>, b: Ballot, bonded: map<Address, nat>, v: Address,
                       price: int)
    requires Represents(info, order, b, bonded) && v in bonded && v !in b
    ensures Represents(PriceInfo(info.prices + [PricePerValidator(bonded[v], price)], info.totalWeight + bonded[v]),
                       order + [v], b[v := price], bonded)
  {
    hide TotalWeight;
    assert forall u | u in order :: u in b.Keys;
    OrderSnoc(order, v);
    TotalWeightSnoc(info.prices, PricePerValidator(bonded[v], price));
    assert b[v := price].Keys == b.Keys + {v};
  }

  lemma EntryAdded(info: map<CurrencyPair, PriceInfo>, orders: map<CurrencyPair, seq<Address>>, cp: CurrencyPair,
                   b: Ballot, bonded: map<Address, nat>, v: Address, price: int)
    requires v in bonded && v !in b && b.Keys <= bonded.Keys
    requires cp in info <==> b != map[]
    requires cp in info ==> cp in orders && Represents(info[cp], orders[cp], b, bonded)
    ensures var order := if cp in info then orders[cp] else [];
            Represents(Append(info, cp, PricePerValidator(bonded[v], price)), order + [v], b[v := price], bonded)
  {
    var order := if cp in info then orders[cp] else [];
    var current := if cp in info then info[cp] else PriceInfo([], 0);
    assert Represents(current, order, b, bonded);
    hide Represents;
    RepresentsSnoc(current, order, b, bonded, v, price);
  }

  ghost function GrownOrders(info: map<CurrencyPair, PriceInfo>, orders: map<CurrencyPair, seq<Address>>,
                             v: Address, prices: Prices): map<CurrencyPair, seq<Address>>
    requires info.Keys == orders.Keys
  {
    orders + map cp | cp in prices && prices[cp].Some? :: (if cp in info then orders[cp] else []) + [v]
  }

  lemma PairTallied(info: map<CurrencyPair, PriceInfo>, orders: map<CurrencyPair, seq<Address>>,
                    reports: Reports, store: ValidatorStore, v: Address, prices: Prices, cp: CurrencyPair)
    requires Tallied(info, orders, reports, store) && v !in reports && v in store.bonded
    ensures var out, grown, b := Recorded(info, prices, store.bonded[v]), GrownOrders(info, orders, v, prices),
                                 BallotOf(reports[v := prices], store, cp);
            && (cp in out <==> b != map[])
            && (cp in out ==> cp in grown && Represents(out[cp], grown[cp], b, store.bonded))
  {
    BallotGrows(reports, store, v, prices, cp);
    var b := BallotOf(reports, store, cp);
    if cp in prices && prices[cp].Some? {
      EntryAdded(info, orders, cp, b, store.bonded, v, prices[cp].value);
      assert v in b[v := prices[cp].value];
    }
  }

  lemma ValidatorTallied(info: map<CurrencyPair, PriceInfo>, orders: map<CurrencyPair, seq<Address>>,
                         reports: Reports, store: ValidatorStore, v: Address, prices: Prices)
    requires Tallied(info, orders, reports, store) && v !in reports && v in store.bonded
    ensures Tallied(Recorded(info, prices, store.bonded[v]), GrownOrders(info, orders, v, prices),
                    reports[v := prices], store)
  {
    forall cp {
      PairTallied(info, orders, reports, store, v, prices, cp);
    }
  }

  lemma SkippedTallied(info: map<CurrencyPair, PriceInfo>, orders: map<CurrencyPair, seq<Address>>,
                       reports: Reports, store: ValidatorStore, v: Address, prices: Prices)
    requires Tallied(info, orders, reports, store) && v !in reports && v !in store.bonded
    ensures Tallied(info, orders, reports[v := prices], store)
  {
    hide Represents, BallotOf;
    forall cp
      ensures BallotOf(reports[v := prices], store, cp) == BallotOf(reports, store, cp)
    {
      BallotGrows(reports, store, v, prices, cp);
    }
  }

  /** The accumulation loop, in an arbitrary order of validators. */
  method Tally(reports: Reports, store: ValidatorStore)
      returns (info: map<CurrencyPair, PriceInfo>, ghost orders: map<CurrencyPair, seq<Address>>)
    ensures Tallied(info, orders, reports, store)
  {
    info, orders := map[], map[];
    var visited: Reports := map[];
    var left := reports.Keys;
    assert forall cp :: BallotOf(visited, store, cp) == map[];
    while left != {}
      invariant left <= reports.Keys
      invariant visited == map v | v in reports && v !in left :: reports[v]
      invariant Tallied(info, orders, visited, store)
    {
      var v :| v in left;
      left := left - {v};
      if v in store.bonded {
        ValidatorTallied(info, orders, visited, store, v, reports[v]);
        orders := GrownOrders(info, orders, v, reports[v]);
        info := RecordValidator(info, reports[v], store.bonded[v]);
      } else {
        SkippedTallied(info, orders, visited, store, v, reports[v]);
      }
      visited := visited[v := reports[v]];
    }
    assert visited == reports;
  }

  /** Sorts a copy of the accumulated entries and takes their median. */
  method PairMedian(info: PriceInfo, ghost order: seq<Address>, ghost b: Ballot, ghost bonded: map<Address, nat>)
      returns (median: Option<int>)
    requires Represents(info, order, b, bonded) && b != map[]
    ensures info.totalWeight == Sum(b.Keys, bonded)
    ensures median.Some? && IsStakeMedian(b, bonded, median.value)
  {
    var listing := info.prices;
    var slice := new PricePerValidator[|listing|](i requires 0 <= i < |listing| => listing[i]);
    assert slice[..] == listing;
    TallyEmpty(order, b);
    RepresentedTotal(info, order, b, bonded);
    median := ComputeMedian(slice, info.totalWeight);
    MedianOfListing(info, order, b, bonded, median.value);
  }

  /** The total bonded stake is not zero, or nothing is divided by it. */
  ghost predicate Divides(reports: Reports, store: ValidatorStore) {
    store.totalBonded > 0 || forall cp :: BallotOf(reports, store, cp) == map[]
  }

  /** The loop over the pairs: the threshold test, and the median of those that pass it. */
  method PricePairs(info: map<CurrencyPair, PriceInfo>, ghost orders: map<CurrencyPair, seq<Address>>,
                    ghost reports: Reports, store: ValidatorStore, threshold: int, quo: Division)
      returns (prices: map<CurrencyPair, int>)
    requires Tallied(info, orders, reports, store) && store.totalBonded > 0 // otherwise the quotient panics
    ensures AreMedianPrices(reports, store, threshold, quo, prices)
  {
    hide BallotOf, Represents, IsStakeMedian, MeetsThreshold;
    forall cp
      ensures BallotOf(reports, store, cp).Keys <= store.bonded.Keys
    {
      BallotIsBonded(reports, store, cp);
    }
    prices := map[];
    var left := info.Keys;
    while left != {}
      invariant left <= info.Keys
      invariant forall cp :: cp in prices <==> cp in info && cp !in left && Priced(reports, store, threshold, quo, cp)
      invariant forall cp | cp in prices :: IsStakeMedian(BallotOf(reports, store, cp), store.bonded, prices[cp])
    {
      var cp :| cp in left;
      left := left - {cp};
      RepresentedTotal(info[cp], orders[cp], BallotOf(reports, store, cp), store.bonded);
      if MeetsThreshold(info[cp].totalWeight, store.totalBonded, threshold, quo) {
        var median := PairMedian(info[cp], orders[cp], BallotOf(reports, store, cp), store.bonded);
        prices := prices[cp := median.value];
      }
    }
  }

  /** None stands for the panic of a division by zero. */
  method Median(reports: Reports, store: ValidatorStore, threshold: int, quo: Division)
      returns (r: Option<map<CurrencyPair, int>>)
    ensures r.Some? <==> Divides(reports, store)
    ensures r.Some? ==> AreMedianPrices(reports, store, threshold, quo, r.value)
  {
    var info, orders := Tally(reports, store);
    hide BallotOf, Represents, IsStakeMedian, MeetsThreshold;
    if info == map[] {
      return Some(map[]);
    }
    if store.totalBonded == 0 {
      var cp :| cp in info;
      return None;
    }
    var prices := PricePairs(info, orders, reports, store, threshold, quo);
    return Some(prices);
  }

  // ---------------------------------------------------------------- the threshold in stake

  /** Which pairs get a price, in plain stake: a pair somebody reported does as soon as its share of the
      bonded stake reaches the threshold plus one unit of the last decimal place, and every pair that does
      has a share of at least the threshold minus that unit, however the quotient is rounded. */
  lemma ThresholdExact(reports: Reports, store: ValidatorStore, threshold: int, quo: Division,
                       prices: map<CurrencyPair, int>, cp: CurrencyPair)
    requires store.totalBonded > 0 && AreMedianPrices(reports, store, threshold, quo, prices)
    ensures BallotOf(reports, store, cp).Keys <= store.bonded.Keys
    ensures var b := BallotOf(reports, store, cp);
            && (b != map[] && Sum(b.Keys, store.bonded) * ONE >= (threshold + 1) * store.totalBonded ==> cp in prices)
            && (cp in prices ==> b != map[] && Sum(b.Keys, store.bonded) * ONE >= (threshold - 1) * store.totalBonded)
  {
    hide BallotOf, IsStakeMedian, Sum;
    BallotIsBonded(reports, store, cp);
    var b := BallotOf(reports, store, cp);
    QuotientBounds(Sum(b.Keys, store.bonded), store.totalBonded, threshold,
                   quo(Sum(b.Keys, store.bonded), store.totalBonded));
  }

  lemma QuotientBounds(num: nat, den: nat, threshold: int, q: int)
    requires den > 0 && IsQuotient(q, num, den)
    ensures num * ONE >= (threshold + 1) * den ==> q >= threshold
    ensures q >= threshold ==> num * ONE >= (threshold - 1) * den
  {
    if q < threshold {
      assert q * den <= (threshold - 1) * den;
    }
    if q >= threshold {
      assert q * den >= threshold * den;
    }
  }

  /** At the default threshold of 0.667: 668 of 1000 units are always enough, 666 never. */
  lemma DefaultThreshold(reports: Reports, store: ValidatorStore, quo: Division, prices: map<CurrencyPair, int>,
                         cp: CurrencyPair)
    requires store.totalBonded > 0 && AreMedianPrices(reports, store, DEFAULT_POWER_THRESHOLD, quo, prices)
    requires BallotOf(reports, store, cp) != map[]
    ensures BallotOf(reports, store, cp).Keys <= store.bonded.Keys
    ensures var weight := Sum(BallotOf(reports, store, cp).Keys, store.bonded);
            && (1000 * weight >= 668 * store.totalBonded ==> cp in prices)
            && (1000 * weight <= 666 * store.totalBonded ==> cp !in prices)
  {
    ThresholdExact(reports, store, DEFAULT_POWER_THRESHOLD, quo, prices, cp);
  }

  // ---------------------------------------------------------------- honest range

  /** No price assignment of the faulty reporters pulls the median below every honest price. */
  ghost predicate LowerSafe(reporters: set<Address>, bonded: map<Address, nat>, faulty: set<Address>)
    requires reporters <= bonded.Keys
  {
    forall b: Ballot, r: int | b.Keys == reporters && IsStakeMedian(b, bonded, r) ::
      exists v :: v in reporters - faulty && b[v] <= r
  }

  /** No price assignment of the faulty reporters pushes the median above every honest price. */
  ghost predicate UpperSafe(reporters: set<Address>, bonded: map<Address, nat>, faulty: set<Address>)
    requires reporters <= bonded.Keys
  {
    forall b: Ballot, r: int | b.Keys == reporters && IsStakeMedian(b, bonded, r) ::
      exists v :: v in reporters - faulty && r <= b[v]
  }

  lemma LowerBound(b: Ballot, bonded: map<Address, nat>, faulty: set<Address>, r: int)
    requires b.Keys <= bonded.Keys && IsStakeMedian(b, bonded, r)
    requires b.Keys * faulty == {} || Sum(b.Keys * faulty, bonded) < Sum(b.Keys, bonded) / 2
    ensures exists v :: v in b.Keys - faulty && b[v] <= r
  {
    if forall v | v in b.Keys - faulty :: b[v] > r {
      var w :| w in b && b[w] == r;
      assert w in b.Keys * faulty;
      assert AtOrBelow(b, r) <= b.Keys * faulty;
      SumSubset(AtOrBelow(b, r), b.Keys * faulty, bonded);
    }
  }

  lemma UpperBound(b: Ballot, bonded: map<Address, nat>, faulty: set<Address>, r: int)
    requires b.Keys <= bonded.Keys && IsStakeMedian(b, bonded, r)
    requires b.Keys - faulty != {} && Sum(b.Keys - faulty, bonded) >= Sum(b.Keys, bonded) / 2
    ensures exists v :: v in b.Keys - faulty && r <= b[v]
  {
    if forall v | v in b.Keys - faulty :: b[v] < r {
      var top := MaxHonest(b, b.Keys - faulty);
      assert b.Keys - faulty <= AtOrBelow(b, b[top]);
      SumSubset(b.Keys - faulty, AtOrBelow(b, b[top]), bonded);
    }
  }

  lemma {:induction false} MaxHonest(b: Ballot, honest: set<Address>) returns (top: Address)
    requires honest <= b.Keys && honest != {}
    ensures top in honest && forall v | v in honest :: b[v] <= b[top]
    decreases |honest|
  {
    top :| top in honest;
    if honest != {top} {
      assert honest - {top} != {};
      var t := MaxHonest(b, honest - {top});
      if b[top] < b[t] {
        top := t;
      }
    }
  }

  /** The two-price ballot an adversary would use: the faulty reporters at x, the honest ones at y. */
  ghost function SplitBallot(reporters: set<Address>, faulty: set<Address>, x: int, y: int): Ballot {
    map v | v in reporters :: if v in faulty then x else y
  }

  /** Exactly when the lower side is safe, for every stake distribution: the faulty reporters hold
      less than the floored half of the reporting stake (or there are none). */
  lemma LowerSideExact(reporters: set<Address>, bonded: map<Address, nat>, faulty: set<Address>)
    requires reporters <= bonded.Keys
    ensures LowerSafe(reporters, bonded, faulty) <==>
            reporters * faulty == {} || Sum(reporters * faulty, bonded) < Sum(reporters, bonded) / 2
  {
    if reporters * faulty == {} || Sum(reporters * faulty, bonded) < Sum(reporters, bonded) / 2 {
      forall b: Ballot, r: int | b.Keys == reporters && IsStakeMedian(b, bonded, r)
        ensures exists v :: v in reporters - faulty && b[v] <= r
      {
        LowerBound(b, bonded, faulty, r);
      }
    } else {
      var b := SplitBallot(reporters, faulty, 0, 1);
      var v :| v in reporters * faulty;
      assert b[v] == 0;
      assert AtOrBelow(b, 0) == reporters * faulty;
      assert b.Keys == reporters && IsStakeMedian(b, bonded, 0);
    }
  }

  lemma HighSplitMedian(reporters: set<Address>, bonded: map<Address, nat>, faulty: set<Address>, v: Address)
    requires reporters <= bonded.Keys && v in reporters && v in faulty
    requires reporters - faulty == {} || Sum(reporters - faulty, bonded) < Sum(reporters, bonded) / 2
    ensures IsStakeMedian(SplitBallot(reporters, faulty, 1, 0), bonded, 1)
  {
    var b := SplitBallot(reporters, faulty, 1, 0);
    assert b[v] == 1 && b.Keys == reporters;
    assert AtOrBelow(b, 0) == reporters - faulty;
    assert AtOrBelow(b, 1) == reporters;
    forall u | u in b && b[u] < 1
      ensures b[u] == 0 && reporters - faulty != {}
    {
      assert u in reporters - faulty;
    }
  }

  lemma UpperAttack(reporters: set<Address>, bonded: map<Address, nat>, faulty: set<Address>)
    requires reporters <= bonded.Keys && reporters * faulty != {}
    requires reporters - faulty == {} || Sum(reporters - faulty, bonded) < Sum(reporters, bonded) / 2
    ensures !UpperSafe(reporters, bonded, faulty)
  {
    var b := SplitBallot(reporters, faulty, 1, 0);
    var v :| v in reporters * faulty;
    HighSplitMedian(reporters, bonded, faulty, v);
    assert b.Keys == reporters && forall u | u in reporters - faulty :: b[u] == 0;
  }

  lemma DifferenceOfDisjoint(a: set<Address>, b: set<Address>)
    ensures a * b == {} ==> a - b == a
  {
    assert forall u | u in a && u in b :: u in a * b;
  }

  lemma UpperDefence(reporters: set<Address>, bonded: map<Address, nat>, faulty: set<Address>)
    requires reporters <= bonded.Keys
    requires reporters - faulty != {} && Sum(reporters - faulty, bonded) >= Sum(reporters, bonded) / 2
    ensures UpperSafe(reporters, bonded, faulty)
  {
    forall b: Ballot, r: int | b.Keys == reporters && IsStakeMedian(b, bonded, r)
      ensures exists v :: v in reporters - faulty && r <= b[v]
    {
      UpperBound(b, bonded, faulty, r);
    }
  }

  /** Exactly when the upper side is safe: some honest validator reports, and the honest reporters
      hold at least the floored half of the reporting stake. */
  lemma UpperSideExact(reporters: set<Address>, bonded: map<Address, nat>, faulty: set<Address>)
    requires reporters <= bonded.Keys && reporters != {}
    ensures UpperSafe(reporters, bonded, faulty) <==>
            reporters - faulty != {} && Sum(reporters - faulty, bonded) >= Sum(reporters, bonded) / 2
  {
    var honest := reporters - faulty;
    if honest != {} && Sum(honest, bonded) >= Sum(reporters, bonded) / 2 {
      UpperDefence(reporters, bonded, faulty);
    } else {
      DifferenceOfDisjoint(reporters, faulty);
      UpperAttack(reporters, bonded, faulty);
    }
  }

  /** The arithmetic of the 0.667 threshold against a faulty third. */
  lemma ThresholdMargin(submitted: nat, faulty: nat, total: nat, q: int)
    requires total > 0 && 3 * faulty < total
    requires IsQuotient(q, submitted, total) && q >= DEFAULT_POWER_THRESHOLD
    ensures submitted > faulty && submitted - faulty >= submitted / 2
    ensures total > 1000 ==> faulty < submitted / 2
  {
    assert q * total >= DEFAULT_POWER_THRESHOLD * total;
    assert submitted * ONE >= (DEFAULT_POWER_THRESHOLD - 1) * total;
  }

  ghost predicate FaultyBelowThird(store: ValidatorStore, faulty: set<Address>) {
    3 * Sum(faulty * store.bonded.Keys, store.bonded) < store.totalBonded
  }

  /** Honest-range safety at the default threshold: with less than a third of the bonded stake
      faulty, every final price is at most some honest report, and with more than 1000 units
      bonded also at least some honest report. */
  lemma HonestRange(reports: Reports, store: ValidatorStore, quo: Division, faulty: set<Address>, cp: CurrencyPair,
                    price: int)
    requires FaultyBelowThird(store, faulty)
    requires Priced(reports, store, DEFAULT_POWER_THRESHOLD, quo, cp)
             && IsStakeMedian(BallotOf(reports, store, cp), store.bonded, price)
    ensures exists v :: Reporter(reports, store, cp, v) && v !in faulty && price <= reports[v][cp].value
    ensures store.totalBonded > 1000 ==>
              exists v :: Reporter(reports, store, cp, v) && v !in faulty && reports[v][cp].value <= price
  {
    var b, bonded := BallotOf(reports, store, cp), store.bonded;
    var bad, good := b.Keys * faulty, b.Keys - faulty;
    SumSubset(bad, faulty * bonded.Keys, bonded);
    assert b.Keys == bad + good;
    SumUnion(bad, good, bonded);
    ThresholdMargin(Sum(b.Keys, bonded), Sum(bad, bonded), store.totalBonded,
                    quo(Sum(b.Keys, bonded), store.totalBonded));
    assert good != {};
    UpperBound(b, bonded, faulty, price);
    if store.totalBonded > 1000 {
      LowerBound(b, bonded, faulty, price);
    }
  }

  const BAD := Address([1])
  const GOOD := Address([2])
  const IDLE := Address([3])

  /** The stake minimum is tight: with exactly 1000 units bonded, 333 of them faulty and 667
      reporting, the threshold is met and the faulty price becomes the median. */
  lemma ThousandUnitsAreNotEnough(quo: Division)
    requires quo(667, 1000) == 667_000_000_000_000_000
    ensures var bonded := map[BAD := 333, GOOD := 334, IDLE := 333];
            && 3 * Sum({BAD}, bonded) < 1000 == Sum(bonded.Keys, bonded)
            && MeetsThreshold(Sum({BAD, GOOD}, bonded), 1000, DEFAULT_POWER_THRESHOLD, quo)
            && !LowerSafe({BAD, GOOD}, bonded, {BAD})
  {
    var bonded: map<Address, nat> := map[BAD := 333, GOOD := 334, IDLE := 333];
    assert Sum({}, bonded) == 0;
    SumRemove({BAD}, bonded, BAD);
    assert {BAD} - {BAD} == {};
    SumRemove({BAD, GOOD}, bonded, GOOD);
    assert {BAD, GOOD} - {GOOD} == {BAD};
    SumRemove({BAD, GOOD, IDLE}, bonded, IDLE);
    assert {BAD, GOOD, IDLE} - {IDLE} == {BAD, GOOD} && bonded.Keys == {BAD, GOOD, IDLE};
    assert {BAD, GOOD} * {BAD} == {BAD};
    LowerSideExact({BAD, GOOD}, bonded, {BAD});
  }
}
