/** Laws of fare evaluation: prices never fall as a trip fills up, splitting a line costs at most a
rounding unit per adjustment, and ordinary fares stay within 64 bits. */
module FareLaws {
  import opened Outcomes
  import opened Segments
  import opened Ledger
  import opened Fares

  // ---- truncation ----------------------------------------------------------------------------------------

  lemma TimesMonotone(a: int, b: int, k: int)
    requires a <= b && k >= 0
    ensures a * k <= b * k && k * a <= k * b
  {}

  lemma DivFloor(a: int, n: int)
    requires n > 0
    ensures n * (a / n) <= a < n * (a / n) + n
  {
    assert a == n * (a / n) + a % n;
  }

  lemma DivBelow(a: int, n: int, q: int)
    requires n > 0 && a / n < q
    ensures a < n * q
  {
    DivFloor(a, n);
    TimesMonotone(a / n + 1, q, n);
    assert n * (a / n + 1) == n * (a / n) + n;
  }

  lemma DivMonotone(a: int, b: int, n: int)
    requires n > 0 && a <= b
    ensures a / n <= b / n
  {
    DivFloor(a, n);
    if b / n < a / n {
      DivBelow(b, n, a / n);
    }
  }

  lemma TruncMonotone(a: int, b: int, n: int)
    requires n > 0 && a <= b
    ensures TruncDiv(a, n) <= TruncDiv(b, n)
  {
    if a >= 0 {
      DivMonotone(a, b, n);
    } else if b < 0 {
      DivMonotone(-b, -a, n);
    } else {
      DivMonotone(0, -a, n);
      DivMonotone(0, b, n);
    }
  }

  /** The module's documentation says floor division. The code agrees exactly when the product is not
      negative or divides evenly; otherwise it is one unit higher, as at 0 against -1 for `Bp(-1, 1)`. */
  lemma TruncationIsFloorIff(amount: int, rate: int)
    ensures Bp(amount, rate) == amount * rate / 10_000 <==> amount * rate >= 0 || amount * rate % 10_000 == 0
    ensures amount * rate < 0 && amount * rate % 10_000 != 0 ==> Bp(amount, rate) == amount * rate / 10_000 + 1
  {}

  /** A rule set reaches such a product with a negative rate: a peak discount of one basis point on a
      fare of 1 leaves the price at 1, where the documented floor would make it 0. */
  lemma NegativeRateReachesIt(key: string, weekday: u8, input: RuleInput)
    requires input.fareKey == key && input.weekday == weekday && input.segments == 1 && input.quantity == 1
    ensures var rules := RuleSet(map[key := 1], [weekday], -1, [], [], map[], map[], 0);
            var quote := Evaluate(rules, input);
            && quote == Ok(Quote(1, [Adjustment(PeakWeekday, 0)], 1))
            && AtLeastZero(1 + 1 * -1 / 10_000) == 0
  {
    var rules := RuleSet(map[key := 1], [weekday], -1, [], [], map[], map[], 0);
    var terms := Terms(rules, input);
    assert DemandTerms(rules, input.occupancyBp) == [] && LaterTerms(rules, input) == [];
    assert terms == [Surcharge(PeakWeekday, -1)];
    assert Apply(terms, 1) == [Adjustment(PeakWeekday, 0)];
    assert [Adjustment(PeakWeekday, 0)][..0] == [];
    assert BaseFare(1, 1, 1) == 1;
  }

  lemma BpMonotone(amount: int, rate: int, higher: int)
    requires amount >= 0 && rate <= higher
    ensures Bp(amount, rate) <= Bp(amount, higher)
  {
    TimesMonotone(rate, higher, amount);
    TruncMonotone(amount * rate, amount * higher, 10_000);
  }

  // ---- demand pricing is monotone --------------------------------------------------------------------------

  /** A higher threshold never carries a lower surcharge, and none is negative. */
  ghost predicate RisingTiers(tiers: seq<OccupancyTier>) {
    && (forall t <- tiers :: t.surchargeBp >= 0)
    && forall t <- tiers, u <- tiers :: t.minOccupancyBp < u.minOccupancyBp ==> t.surchargeBp <= u.surchargeBp
  }

  ghost predicate DistinctThresholds(tiers: seq<OccupancyTier>) {
    forall t <- tiers, u <- tiers :: t.minOccupancyBp == u.minOccupancyBp ==> t == u
  }

  /** The tier chosen is one that is reached, and none reached has a higher threshold. */
  lemma {:induction false} TierIsHighestReached(tiers: seq<OccupancyTier>, occupancy: int)
    ensures var best := OccupancyTierFor(tiers, occupancy);
            && (best.None? <==> forall t <- tiers :: t.minOccupancyBp > occupancy)
            && (best.Some? ==> best.value in tiers && best.value.minOccupancyBp <= occupancy
                               && forall t <- tiers :: t.minOccupancyBp <= occupancy ==>
                                    t.minOccupancyBp <= best.value.minOccupancyBp)
    decreases |tiers|
  {
    if tiers != [] {
      assert tiers == tiers[..|tiers| - 1] + [tiers[|tiers| - 1]];
      TierIsHighestReached(tiers[..|tiers| - 1], occupancy);
    }
  }

  /** If the higher occupancy's tier is already reached at the lower, it is chosen there too, so equal
      thresholds make no difference. */
  lemma {:induction false} TierSettles(tiers: seq<OccupancyTier>, low: int, high: int)
    requires low <= high && OccupancyTierFor(tiers, high).Some?
    requires OccupancyTierFor(tiers, high).value.minOccupancyBp <= low
    ensures OccupancyTierFor(tiers, low) == OccupancyTierFor(tiers, high)
    decreases |tiers|
  {
    var init := tiers[..|tiers| - 1];
    TierIsHighestReached(init, low);
    TierIsHighestReached(init, high);
    if OccupancyTierFor(init, high).Some? && OccupancyTierFor(init, high).value.minOccupancyBp <= low {
      TierSettles(init, low, high);
    }
  }

  function SurchargeFor(tiers: seq<OccupancyTier>, occupancy: int): int {
    var best := OccupancyTierFor(tiers, occupancy);
    if best.Some? then best.value.surchargeBp else 0
  }

  /** At the tiers' own thresholds, the surcharge in force is never negative and never falls. */
  ghost predicate RisingSurcharges(tiers: seq<OccupancyTier>) {
    && (forall t <- tiers :: SurchargeFor(tiers, t.minOccupancyBp) >= 0)
    && forall t <- tiers, u <- tiers :: t.minOccupancyBp < u.minOccupancyBp ==>
         SurchargeFor(tiers, t.minOccupancyBp) <= SurchargeFor(tiers, u.minOccupancyBp)
  }

  /** Without two tiers at one threshold, of which the later listed wins, that is the tiers themselves rising. */
  lemma RisingTiersRise(tiers: seq<OccupancyTier>)
    ensures RisingTiers(tiers) ==> RisingSurcharges(tiers)
    ensures DistinctThresholds(tiers) ==> (RisingTiers(tiers) <==> RisingSurcharges(tiers))
  {
    forall t | t in tiers
      ensures exists u <- tiers :: u.minOccupancyBp == t.minOccupancyBp
                                   && SurchargeFor(tiers, t.minOccupancyBp) == u.surchargeBp
    {
      TierIsHighestReached(tiers, t.minOccupancyBp);
      assert OccupancyTierFor(tiers, t.minOccupancyBp).value in tiers;
    }
  }

  /** The surcharge in force at any occupancy is the one at the threshold of the tier it reaches. */
  lemma SurchargeSettles(tiers: seq<OccupancyTier>, occupancy: int)
    requires OccupancyTierFor(tiers, occupancy).Some?
    ensures var tier := OccupancyTierFor(tiers, occupancy).value;
            tier in tiers && SurchargeFor(tiers, occupancy) == SurchargeFor(tiers, tier.minOccupancyBp)
  {
    TierIsHighestReached(tiers, occupancy);
    TierSettles(tiers, OccupancyTierFor(tiers, occupancy).value.minOccupancyBp, occupancy);
  }

  lemma SurchargeMonotone(tiers: seq<OccupancyTier>, low: int, high: int)
    requires RisingSurcharges(tiers) && low <= high
    ensures SurchargeFor(tiers, low) <= SurchargeFor(tiers, high)
  {
    TierIsHighestReached(tiers, low);
    TierIsHighestReached(tiers, high);
    if OccupancyTierFor(tiers, high).Some? {
      SurchargeSettles(tiers, high);
      if OccupancyTierFor(tiers, low).Some? {
        SurchargeSettles(tiers, low);
      }
    }
  }

  lemma {:induction false} SumConcat(a: seq<Adjustment>, b: seq<Adjustment>)
    ensures Sum(a + b) == Sum(a) + Sum(b)
    decreases |b|
  {
    if b == [] {
      assert a + b == a;
    } else {
      assert (a + b)[..|a + b| - 1] == a + b[..|b| - 1];
      SumConcat(a, b[..|b| - 1]);
    }
  }

  lemma SumOfParts(a: seq<Term>, b: seq<Term>, c: seq<Term>, base: int)
    ensures Sum(Apply(a + b + c, base)) == Sum(Apply(a, base)) + Sum(Apply(b, base)) + Sum(Apply(c, base))
  {
    assert Apply(a + b + c, base) == Apply(a, base) + Apply(b, base) + Apply(c, base);
    SumConcat(Apply(a, base) + Apply(b, base), Apply(c, base));
    SumConcat(Apply(a, base), Apply(b, base));
  }

  lemma DemandSum(rules: RuleSet, occupancy: int, base: int)
    ensures Sum(Apply(DemandTerms(rules, occupancy), base)) == Bp(base, SurchargeFor(rules.occupancyTiers, occupancy))
  {
    var terms := DemandTerms(rules, occupancy);
    if |terms| == 1 {
      var adjustments := Apply(terms, base);
      assert adjustments[..0] == [];
      assert Sum(adjustments) == Sum(adjustments[..0]) + adjustments[0].amount;
    }
  }

  lemma TermsSum(rules: RuleSet, input: RuleInput, base: int)
    ensures Total(Terms(rules, input), base)
         == base + Sum(Apply(PeakTerms(rules, input), base))
            + Bp(base, SurchargeFor(rules.occupancyTiers, input.occupancyBp)) + Sum(Apply(LaterTerms(rules, input), base))
  {
    SumOfParts(PeakTerms(rules, input), DemandTerms(rules, input.occupancyBp), LaterTerms(rules, input), base);
    DemandSum(rules, input.occupancyBp, base);
  }

  lemma BaseNotNegative(perSegment: int, segments: u8, quantity: int)
    requires perSegment >= 0 && quantity >= 0
    ensures BaseFare(perSegment, segments, quantity) >= 0
  {
    TimesMonotone(0, perSegment, segments);
    TimesMonotone(0, perSegment * segments, quantity);
  }

  lemma PeakIgnoresOccupancy(rules: RuleSet, input: RuleInput, fuller: int)
    ensures PeakTerms(rules, input.(occupancyBp := fuller)) == PeakTerms(rules, input)
  {}

  lemma LaterIgnoreOccupancy(rules: RuleSet, input: RuleInput, fuller: int)
    ensures LaterTerms(rules, input.(occupancyBp := fuller)) == LaterTerms(rules, input)
  {}

  lemma TotalRises(rules: RuleSet, input: RuleInput, fuller: int, base: int)
    requires RisingSurcharges(rules.occupancyTiers) && input.occupancyBp <= fuller && base >= 0
    ensures Total(Terms(rules, input), base) <= Total(Terms(rules, input.(occupancyBp := fuller)), base)
  {
    TermsSum(rules, input, base);
    TermsSum(rules, input.(occupancyBp := fuller), base);
    PeakIgnoresOccupancy(rules, input, fuller);
    LaterIgnoreOccupancy(rules, input, fuller);
    SurchargeMonotone(rules.occupancyTiers, input.occupancyBp, fuller);
    BpMonotone(base, SurchargeFor(rules.occupancyTiers, input.occupancyBp), SurchargeFor(rules.occupancyTiers, fuller));
  }

  ghost predicate FaresNotNegative(rules: RuleSet) {
    forall key <- rules.baseFarePerSegment :: rules.baseFarePerSegment[key] >= 0
  }

  /** A fuller trip is never quoted cheaper, through tier choice, truncation and the zero clamp. */
  lemma FullerIsNeverCheaper(rules: RuleSet, input: RuleInput, fuller: int)
    requires RisingSurcharges(rules.occupancyTiers)
    requires FaresNotNegative(rules)
    requires input.occupancyBp <= fuller && Evaluate(rules, input).Ok?
    ensures Evaluate(rules, input.(occupancyBp := fuller)).Ok?
    ensures Evaluate(rules, input).value.total <= Evaluate(rules, input.(occupancyBp := fuller)).value.total
  {
    var perSegment := rules.baseFarePerSegment[input.fareKey];
    BaseNotNegative(perSegment, input.segments, input.quantity);
    TotalRises(rules, input, fuller, BaseFare(perSegment, input.segments, input.quantity));
  }

  /** A fare of 10 000, these tiers and nothing else. */
  function OnlyTiers(tiers: seq<OccupancyTier>, key: string): RuleSet {
    RuleSet(map[key := 10_000], [], 0, tiers, [], map[], map[], 0)
  }

  lemma OnlyTiersQuote(tiers: seq<OccupancyTier>, key: string, input: RuleInput)
    requires input.fareKey == key && input.segments == 1 && input.quantity == 1
    ensures var quote := Evaluate(OnlyTiers(tiers, key), input);
            quote.Ok? && quote.value.total == AtLeastZero(10_000 + SurchargeFor(tiers, input.occupancyBp))
  {
    var rules := OnlyTiers(tiers, key);
    assert PeakTerms(rules, input) == [] && LaterTerms(rules, input) == [];
    assert Terms(rules, input) == DemandTerms(rules, input.occupancyBp);
    DemandSum(rules, input.occupancyBp, 10_000);
    assert BaseFare(10_000, 1, 1) == 10_000;
    WholeRate(SurchargeFor(tiers, input.occupancyBp));
  }

  lemma WholeRate(rate: int)
    ensures Bp(10_000, rate) == rate
  {}

  /** The tiers must rise: where a higher threshold carries a lower surcharge, reaching it lowers
      the price of a line that costs 10 000 before adjustments. */
  lemma FallingTierIsCheaper(
    tiers: seq<OccupancyTier>, lower: OccupancyTier, higher: OccupancyTier, key: string, input: RuleInput)
    requires lower in tiers && higher in tiers && lower.minOccupancyBp < higher.minOccupancyBp
    requires SurchargeFor(tiers, lower.minOccupancyBp) > SurchargeFor(tiers, higher.minOccupancyBp) >= 0
    requires input.fareKey == key && input.segments == 1 && input.quantity == 1
    ensures var before := Evaluate(OnlyTiers(tiers, key), input.(occupancyBp := lower.minOccupancyBp));
            var after := Evaluate(OnlyTiers(tiers, key), input.(occupancyBp := higher.minOccupancyBp));
            before.Ok? && after.Ok? && before.value.total > after.value.total
  {
    OnlyTiersQuote(tiers, key, input.(occupancyBp := lower.minOccupancyBp));
    OnlyTiersQuote(tiers, key, input.(occupancyBp := higher.minOccupancyBp));
  }

  lemma {:induction false} BelowEveryTier(tiers: seq<OccupancyTier>) returns (low: int)
    ensures forall t <- tiers :: low < t.minOccupancyBp
    decreases |tiers|
  {
    low := 0;
    if tiers != [] {
      var last := tiers[|tiers| - 1];
      low := BelowEveryTier(tiers[..|tiers| - 1]);
      low := if low < last.minOccupancyBp then low else last.minOccupancyBp - 1;
      assert tiers == tiers[..|tiers| - 1] + [last];
    }
  }

  /** Nor may a tier be a discount: reaching it costs less than reaching none. */
  lemma NegativeTierIsCheaper(tiers: seq<OccupancyTier>, tier: OccupancyTier, key: string, input: RuleInput)
    returns (low: int)
    requires tier in tiers && SurchargeFor(tiers, tier.minOccupancyBp) < 0
    requires input.fareKey == key && input.segments == 1 && input.quantity == 1
    ensures low < tier.minOccupancyBp
    ensures var before := Evaluate(OnlyTiers(tiers, key), input.(occupancyBp := low));
            var after := Evaluate(OnlyTiers(tiers, key), input.(occupancyBp := tier.minOccupancyBp));
            before.Ok? && after.Ok? && before.value.total > after.value.total
  {
    low := BelowEveryTier(tiers);
    TierIsHighestReached(tiers, low);
    OnlyTiersQuote(tiers, key, input.(occupancyBp := low));
    OnlyTiersQuote(tiers, key, input.(occupancyBp := tier.minOccupancyBp));
  }

  /** Filling up from `input` to `fuller` does not lower the price. */
  ghost predicate NoCheaper(rules: RuleSet, input: RuleInput, fuller: int) {
    input.occupancyBp <= fuller && Evaluate(rules, input).Ok? ==>
      && Evaluate(rules, input.(occupancyBp := fuller)).Ok?
      && Evaluate(rules, input).value.total <= Evaluate(rules, input.(occupancyBp := fuller)).value.total
  }

  ghost predicate NeverCheaper(tiers: seq<OccupancyTier>) {
    forall rules: RuleSet, input, fuller ::
      rules.occupancyTiers == tiers && FaresNotNegative(rules) ==> NoCheaper(rules, input, fuller)
  }

  /** Whatever else a rule set with these tiers holds, a fuller trip is never cheaper exactly when the
      surcharges in force rise with the thresholds and none is negative. */
  lemma NeverCheaperIff(tiers: seq<OccupancyTier>)
    ensures NeverCheaper(tiers) <==> RisingSurcharges(tiers)
  {
    if RisingSurcharges(tiers) {
      forall rules: RuleSet, input, fuller | rules.occupancyTiers == tiers && FaresNotNegative(rules)
        ensures NoCheaper(rules, input, fuller)
      {
        if input.occupancyBp <= fuller && Evaluate(rules, input).Ok? {
          FullerIsNeverCheaper(rules, input, fuller);
        }
      }
    } else {
      var input := RuleInput("", 1, 1, 0, 0, 0, None, None, false);
      var rules := OnlyTiers(tiers, "");
      if t: OccupancyTier :| t in tiers && SurchargeFor(tiers, t.minOccupancyBp) < 0 {
        var low := NegativeTierIsCheaper(tiers, t, "", input);
        assert !NoCheaper(rules, input.(occupancyBp := low), t.minOccupancyBp);
      } else {
        var t, u :| t in tiers && u in tiers && t.minOccupancyBp < u.minOccupancyBp
                    && SurchargeFor(tiers, t.minOccupancyBp) > SurchargeFor(tiers, u.minOccupancyBp);
        FallingTierIsCheaper(tiers, t, u, "", input);
        assert !NoCheaper(rules, input.(occupancyBp := t.minOccupancyBp), u.minOccupancyBp);
      }
    }
  }

  // ---- occupancy only grows under claims ---------------------------------------------------------------------

  lemma SeatClaimSellsMore(occ: Occupancy, c: Claim, bucket: set<Row>, span: Span)
    requires c.row.kind.Seat? && TryClaim(occ, c).Some?
    ensures Sold(occ, bucket, span) <= Sold(TryClaim(occ, c).value, bucket, span)
  {
    var next := TryClaim(occ, c).value;
    forall r | r in Sold(occ, bucket, span)
      ensures r in Sold(next, bucket, span)
    {
      UnionTouches(occ.seats[r], Mask(c.span), Mask(span));
    }
  }

  lemma SeatFillGrows(occ: Occupancy, c: Claim, bucket: set<Row>, span: Span)
    requires c.row.kind.Seat? && TryClaim(occ, c).Some?
    ensures SeatFill(occ, bucket, span) <= SeatFill(TryClaim(occ, c).value, bucket, span)
  {
    var next := TryClaim(occ, c).value;
    SeatClaimSellsMore(occ, c, bucket, span);
    SubsetSize(Sold(occ, bucket, span), Sold(next, bucket, span));
    if |bucket| > 0 {
      DivMonotone(|Sold(occ, bucket, span)| * 10_000, |Sold(next, bucket, span)| * 10_000, |bucket|);
    }
  }

  lemma LeastShrinks(pool: PoolRow, claimed: Span, qty: int, span: Span)
    requires qty >= 0
    ensures LeastRemaining(pool.(remaining := Shift(pool.remaining, claimed, -qty)), span) <= LeastRemaining(pool, span)
  {
    var next := pool.(remaining := Shift(pool.remaining, claimed, -qty));
    var a, b := Slice(pool.remaining, span), Slice(next.remaining, span);
    assert |a| == |b|;
    if a != [] {
      var k :| 0 <= k < |a| && a[k] == Min(a);
      assert b[k] <= a[k] && b[k] in b;
    }
  }

  lemma FillMonotone(capacity: int, least: int, lower: int)
    requires lower <= least
    ensures FillBp(capacity, least) <= FillBp(capacity, lower)
  {
    if capacity > 0 {
      TruncMonotone((capacity - least) * 10_000, (capacity - lower) * 10_000, capacity);
    }
  }

  lemma PoolFillGrows(pool: PoolRow, claimed: Span, qty: int, span: Span)
    requires qty >= 0
    ensures PoolFill(pool, span) <= PoolFill(pool.(remaining := Shift(pool.remaining, claimed, -qty)), span)
  {
    var next := pool.(remaining := Shift(pool.remaining, claimed, -qty));
    LeastShrinks(pool, claimed, qty, span);
    FillMonotone(pool.capacity, LeastRemaining(pool, span), LeastRemaining(next, span));
  }

  /** A claim that wins never lowers any unit's occupancy on any span. */
  lemma ClaimRaisesOccupancy(occ: Occupancy, c: Claim, classOf: map<nat, string>, row: Row, span: Span)
    requires TryClaim(occ, c).Some?
    ensures OccupancyBp(occ, classOf, row, span) <= OccupancyBp(TryClaim(occ, c).value, classOf, row, span)
  {
    var next := TryClaim(occ, c).value;
    if row.kind.Seat? {
      var bucket := Bucket(occ, classOf, row);
      assert Bucket(next, classOf, row) == bucket;
      if c.row.kind.Seat? {
        SeatFillGrows(occ, c, bucket, span);
      } else {
        assert Sold(next, bucket, span) == Sold(occ, bucket, span);
      }
    } else if row == c.row {
      PoolFillGrows(occ.pools[row], c.span, c.qty, span);
    }
  }

  lemma {:induction false} ClaimsRaiseOccupancy(
    occ: Occupancy, claims: seq<Claim>, classOf: map<nat, string>, row: Row, span: Span)
    requires ClaimAll(occ, claims).Ok?
    ensures OccupancyBp(occ, classOf, row, span) <= OccupancyBp(ClaimAll(occ, claims).value, classOf, row, span)
    decreases |claims|
  {
    if claims != [] {
      ClaimRaisesOccupancy(occ, claims[0], classOf, row, span);
      ClaimsRaiseOccupancy(TryClaim(occ, claims[0]).value, claims[1..], classOf, row, span);
    }
  }

  /** A line re-quoted after any order's claims went through is never cheaper. */
  lemma RequoteNeverCheaper(
    rules: RuleSet, input: RuleInput, occ: Occupancy, claims: seq<Claim>, classOf: map<nat, string>, row: Row, span: Span)
    requires RisingSurcharges(rules.occupancyTiers)
    requires FaresNotNegative(rules)
    requires ClaimAll(occ, claims).Ok?
    ensures var quoted := Evaluate(rules, input.(occupancyBp := OccupancyBp(occ, classOf, row, span)));
            var requoted := Evaluate(rules, input.(occupancyBp := OccupancyBp(ClaimAll(occ, claims).value, classOf, row, span)));
            quoted.Ok? ==> requoted.Ok? && quoted.value.total <= requoted.value.total
  {
    var before := input.(occupancyBp := OccupancyBp(occ, classOf, row, span));
    ClaimsRaiseOccupancy(occ, claims, classOf, row, span);
    if Evaluate(rules, before).Ok? {
      FullerIsNeverCheaper(rules, before, OccupancyBp(ClaimAll(occ, claims).value, classOf, row, span));
    }
  }

  // ---- splitting a line ----------------------------------------------------------------------------------------

  predicate Within(x: int, bound: int) {
    -bound <= x <= bound
  }

  lemma TruncSplits(x: int, y: int)
    ensures Within(TruncDiv(x + y, 10_000) - TruncDiv(x, 10_000) - TruncDiv(y, 10_000), 1)
  {}

  lemma AmountSplits(term: Term, a: int, b: int)
    ensures Within(Amount(term, a + b) - Amount(term, a) - Amount(term, b), 1)
  {
    assert (a + b) * term.rate == a * term.rate + b * term.rate;
    TruncSplits(a * term.rate, b * term.rate);
  }

  lemma {:induction false} SumSplits(terms: seq<Term>, a: int, b: int)
    ensures Within(Sum(Apply(terms, a + b)) - Sum(Apply(terms, a)) - Sum(Apply(terms, b)), |terms|)
    decreases |terms|
  {
    if terms != [] {
      var init, last := terms[..|terms| - 1], terms[|terms| - 1];
      SumSplits(init, a, b);
      AmountSplits(last, a, b);
      SumOfLast(terms, a);
      SumOfLast(terms, b);
      SumOfLast(terms, a + b);
    }
  }

  lemma SumOfLast(terms: seq<Term>, base: int)
    requires terms != []
    ensures Sum(Apply(terms, base)) == Sum(Apply(terms[..|terms| - 1], base)) + Amount(terms[|terms| - 1], base)
  {
    assert Apply(terms, base)[..|terms| - 1] == Apply(terms[..|terms| - 1], base);
  }

  lemma AtMostSixTerms(rules: RuleSet, input: RuleInput)
    ensures |Terms(rules, input)| <= 6
  {
    assert |LaterTerms(rules, input)| <= 4;
  }

  /** A quote before its clamp: its own base and adjustments. */
  function BeforeClamp(quote: Quote): int {
    quote.base + Sum(quote.adjustments)
  }

  lemma QuoteIsClamped(rules: RuleSet, input: RuleInput)
    requires Evaluate(rules, input).Ok?
    ensures Evaluate(rules, input).value.total == AtLeastZero(BeforeClamp(Evaluate(rules, input).value))
  {}

  ghost predicate IsQuote(quote: Quote, terms: seq<Term>, base: int) {
    quote.base == base && quote.adjustments == Apply(terms, base)
  }

  /** The adjustments of a line do not depend on its quantity, only their amounts do. */
  lemma QuoteFor(rules: RuleSet, input: RuleInput, quantity: int)
    requires quantity > 0 && input.segments > 0 && input.fareKey in rules.baseFarePerSegment
    ensures Evaluate(rules, input.(quantity := quantity)).Ok?
    ensures IsQuote(Evaluate(rules, input.(quantity := quantity)).value, Terms(rules, input),
                    BaseFare(rules.baseFarePerSegment[input.fareKey], input.segments, quantity))
  {
    assert Terms(rules, input.(quantity := quantity)) == Terms(rules, input);
  }

  lemma BaseSplits(perSegment: int, segments: u8, first: int, second: int)
    ensures BaseFare(perSegment, segments, first + second)
         == BaseFare(perSegment, segments, first) + BaseFare(perSegment, segments, second)
  {}

  lemma TotalSplits(terms: seq<Term>, perSegment: int, segments: u8, first: int, second: int)
    ensures Within(Total(terms, BaseFare(perSegment, segments, first + second))
                   - Total(terms, BaseFare(perSegment, segments, first))
                   - Total(terms, BaseFare(perSegment, segments, second)), |terms|)
  {
    BaseSplits(perSegment, segments, first, second);
    SumSplits(terms, BaseFare(perSegment, segments, first), BaseFare(perSegment, segments, second));
  }

  /** Three quotes, the first for the other two together. */
  ghost predicate NearlyAdditive(whole: Quote, first: Quote, second: Quote) {
    && whole.base == first.base + second.base
    && |first.adjustments| == |second.adjustments| == |whole.adjustments| <= 6
    && Within(BeforeClamp(whole) - BeforeClamp(first) - BeforeClamp(second), |whole.adjustments|)
  }

  lemma QuotesNearlyAdd(terms: seq<Term>, perSegment: int, segments: u8, first: int, second: int,
                        whole: Quote, a: Quote, b: Quote)
    requires |terms| <= 6
    requires IsQuote(whole, terms, BaseFare(perSegment, segments, first + second))
    requires IsQuote(a, terms, BaseFare(perSegment, segments, first))
    requires IsQuote(b, terms, BaseFare(perSegment, segments, second))
    ensures NearlyAdditive(whole, a, b)
  {
    BaseSplits(perSegment, segments, first, second);
    TotalSplits(terms, perSegment, segments, first, second);
  }

  /** One list of at most six terms prices the line at every quantity. */
  lemma LineTerms(rules: RuleSet, input: RuleInput) returns (terms: seq<Term>)
    requires input.segments > 0 && input.fareKey in rules.baseFarePerSegment
    ensures |terms| <= 6
    ensures forall q: int :: q > 0 ==>
              && Evaluate(rules, input.(quantity := q)).Ok?
              && IsQuote(Evaluate(rules, input.(quantity := q)).value, terms,
                         BaseFare(rules.baseFarePerSegment[input.fareKey], input.segments, q))
  {
    terms := Terms(rules, input);
    AtMostSixTerms(rules, input);
    forall q: int | q > 0
      ensures Evaluate(rules, input.(quantity := q)).Ok?
      ensures IsQuote(Evaluate(rules, input.(quantity := q)).value, terms,
                      BaseFare(rules.baseFarePerSegment[input.fareKey], input.segments, q))
    {
      QuoteFor(rules, input, q);
    }
  }

  /** Pricing a quantity as one line or as two gives the same base, and before the clamp differs by at
      most one minor unit for each adjustment, of which there are at most six. */
  lemma SplittingALine(rules: RuleSet, input: RuleInput, first: int, second: int)
    requires first > 0 && second > 0 && input.segments > 0 && input.fareKey in rules.baseFarePerSegment
    ensures var whole := Evaluate(rules, input.(quantity := first + second));
            var a := Evaluate(rules, input.(quantity := first));
            var b := Evaluate(rules, input.(quantity := second));
            whole.Ok? && a.Ok? && b.Ok? && NearlyAdditive(whole.value, a.value, b.value)
  {
    var terms := LineTerms(rules, input);
    var whole := Evaluate(rules, input.(quantity := first + second));
    var a := Evaluate(rules, input.(quantity := first));
    var b := Evaluate(rules, input.(quantity := second));
    QuotesNearlyAdd(terms, rules.baseFarePerSegment[input.fareKey], input.segments, first, second,
                    whole.value, a.value, b.value);
  }

  // ---- 64 bits are enough ----------------------------------------------------------------------------------------

  const FARE_BOUND := 1_048_576
  const RATE_BOUND := 10_000
  const MAX_QUANTITY := 2_147_483_647
  const BASE_BOUND := FARE_BOUND * 255 * MAX_QUANTITY

  predicate FitsI64(x: int) {
    -0x8000_0000_0000_0000 <= x < 0x8000_0000_0000_0000
  }

  /** Every `i64` the evaluation computes: both products of the base, each truncated share and its
      sign, each running sum, and the total before the clamp. */
  ghost predicate NoOverflow(terms: seq<Term>, perSegment: int, segments: u8, quantity: int) {
    var base := BaseFare(perSegment, segments, quantity);
    && FitsI64(perSegment * segments) && FitsI64(base)
    && (forall i :: 0 <= i < |terms| ==> FitsI64(Bp(base, terms[i].rate)) && FitsI64(Amount(terms[i], base)))
    && (forall i :: 0 <= i <= |terms| ==> FitsI64(Sum(Apply(terms[..i], base))))
    && FitsI64(Total(terms, base))
  }

  lemma WithinTimes(x: int, k: int, bound: int, limit: int)
    requires Within(x, bound) && 0 <= k <= limit && bound >= 0
    ensures Within(x * k, bound * limit)
  {
    TimesMonotone(k, limit, bound);
    TimesMonotone(x, bound, k);
    TimesMonotone(-bound, x, k);
  }

  lemma BaseBounded(perSegment: int, segments: u8, quantity: int)
    requires Within(perSegment, FARE_BOUND) && 0 < quantity <= MAX_QUANTITY
    ensures Within(perSegment * segments, FARE_BOUND * 255)
    ensures Within(BaseFare(perSegment, segments, quantity), BASE_BOUND)
  {
    WithinTimes(perSegment, segments, FARE_BOUND, 255);
    WithinTimes(perSegment * segments, quantity, FARE_BOUND * 255, MAX_QUANTITY);
  }

  lemma ShareBounded(base: int, rate: int)
    requires Within(rate, RATE_BOUND)
    ensures Within(Bp(base, rate), if base < 0 then -base else base)
  {
    var size := if base < 0 then -base else base;
    TimesMonotone(rate, RATE_BOUND, size);
    TimesMonotone(-RATE_BOUND, rate, size);
    TruncMonotone(base * rate, size * RATE_BOUND, 10_000);
    TruncMonotone(-size * RATE_BOUND, base * rate, 10_000);
  }

  lemma AmountBounded(term: Term, base: int, bound: int)
    requires Within(base, bound) && Within(term.rate, RATE_BOUND)
    ensures Within(Bp(base, term.rate), bound) && Within(Amount(term, base), bound)
  {
    ShareBounded(base, term.rate);
  }

  lemma OneMore(n: nat, bound: int)
    ensures (n + 1) * bound == n * bound + bound
  {}

  lemma {:induction false} SumsBounded(terms: seq<Term>, base: int, bound: int)
    requires Within(base, bound) && forall i :: 0 <= i < |terms| ==> Within(terms[i].rate, RATE_BOUND)
    ensures Within(Sum(Apply(terms, base)), |terms| * bound)
    decreases |terms|
  {
    if terms != [] {
      var init, last := terms[..|terms| - 1], terms[|terms| - 1];
      SumsBounded(init, base, bound);
      SumOfLast(terms, base);
      AmountBounded(last, base, bound);
      OneMore(|init|, bound);
    }
  }

  lemma BoundedTermsFit(terms: seq<Term>, perSegment: int, segments: u8, quantity: int)
    requires |terms| <= 6 && forall i :: 0 <= i < |terms| ==> Within(terms[i].rate, RATE_BOUND)
    requires Within(perSegment, FARE_BOUND) && 0 < quantity <= MAX_QUANTITY
    ensures NoOverflow(terms, perSegment, segments, quantity)
  {
    var base := BaseFare(perSegment, segments, quantity);
    BaseBounded(perSegment, segments, quantity);
    SumFits(terms, base);
    forall i | 0 <= i <= |terms|
      ensures FitsI64(Sum(Apply(terms[..i], base)))
    {
      SumFits(terms[..i], base);
    }
    forall i | 0 <= i < |terms|
      ensures FitsI64(Bp(base, terms[i].rate)) && FitsI64(Amount(terms[i], base))
    {
      AmountBounded(terms[i], base, BASE_BOUND);
    }
  }

  lemma SumFits(terms: seq<Term>, base: int)
    requires |terms| <= 6 && forall i :: 0 <= i < |terms| ==> Within(terms[i].rate, RATE_BOUND)
    requires Within(base, BASE_BOUND)
    ensures FitsI64(Sum(Apply(terms, base))) && FitsI64(base + Sum(Apply(terms, base)))
  {
    SumsBounded(terms, base, BASE_BOUND);
    TimesMonotone(|terms|, 6, BASE_BOUND);
  }

  /** With fares of at most 2^20 and rates of at most 100 per cent either way, no intermediate of the
      evaluation leaves 64 bits, so the unbounded model and the program agree. */
  lemma NoIntermediateOverflows(rules: RuleSet, input: RuleInput)
    requires Evaluate(rules, input).Ok? && input.quantity <= MAX_QUANTITY
    requires Within(rules.baseFarePerSegment[input.fareKey], FARE_BOUND)
    requires forall i :: 0 <= i < |Terms(rules, input)| ==> Within(Terms(rules, input)[i].rate, RATE_BOUND)
    ensures NoOverflow(Terms(rules, input), rules.baseFarePerSegment[input.fareKey], input.segments, input.quantity)
  {
    AtMostSixTerms(rules, input);
    BoundedTermsFit(Terms(rules, input), rules.baseFarePerSegment[input.fareKey], input.segments, input.quantity);
  }
}
