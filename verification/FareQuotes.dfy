/** What a quote comes to, condition by condition (crates/lulan-pricing/src/rules.rs, evaluate): surcharges
are added, discounts taken off, each exactly when it applies. */
module FareQuotes {
  import opened Outcomes
  import opened Segments
  import opened Ledger
  import opened Fares
  import opened FareLaws

  // ---- which tier ------------------------------------------------------------------------------------

  /** Tier `k` is reached; no tier reached has a higher threshold, and none listed later has the same one. */
  ghost predicate BestOccupancyTier(tiers: seq<OccupancyTier>, occupancy: int, k: nat) {
    && k < |tiers| && tiers[k].minOccupancyBp <= occupancy
    && forall j :: 0 <= j < |tiers| && tiers[j].minOccupancyBp <= occupancy ==>
         tiers[j].minOccupancyBp < tiers[k].minOccupancyBp
         || (j <= k && tiers[j].minOccupancyBp == tiers[k].minOccupancyBp)
  }

  lemma {:induction false} OccupancyTierIff(tiers: seq<OccupancyTier>, occupancy: int) returns (k: nat)
    ensures OccupancyTierFor(tiers, occupancy).None? ==> forall t <- tiers :: t.minOccupancyBp > occupancy
    ensures OccupancyTierFor(tiers, occupancy).Some? ==>
              BestOccupancyTier(tiers, occupancy, k) && OccupancyTierFor(tiers, occupancy).value == tiers[k]
    decreases |tiers|
  {
    k := 0;
    if tiers != [] {
      var n := |tiers| - 1;
      k := OccupancyTierIff(tiers[..n], occupancy);
      assert forall t <- tiers :: t in tiers[..n] || t == tiers[n];
      if tiers[n].minOccupancyBp <= occupancy && (OccupancyTierFor(tiers[..n], occupancy).None? || tiers[n].minOccupancyBp >= tiers[k].minOccupancyBp) {
        k := n;
      }
    }
  }

  ghost predicate BestAdvanceTier(tiers: seq<AdvanceTier>, days: int, k: nat) {
    && k < |tiers| && tiers[k].minDays <= days
    && forall j :: 0 <= j < |tiers| && tiers[j].minDays <= days ==>
         tiers[j].minDays < tiers[k].minDays || (j <= k && tiers[j].minDays == tiers[k].minDays)
  }

  lemma {:induction false} AdvanceTierIff(tiers: seq<AdvanceTier>, days: int) returns (k: nat)
    ensures AdvanceTierFor(tiers, days).None? ==> forall t <- tiers :: t.minDays > days
    ensures AdvanceTierFor(tiers, days).Some? ==>
              BestAdvanceTier(tiers, days, k) && AdvanceTierFor(tiers, days).value == tiers[k]
    decreases |tiers|
  {
    k := 0;
    if tiers != [] {
      var n := |tiers| - 1;
      k := AdvanceTierIff(tiers[..n], days);
      assert forall t <- tiers :: t in tiers[..n] || t == tiers[n];
      if tiers[n].minDays <= days && (AdvanceTierFor(tiers[..n], days).None? || tiers[n].minDays >= tiers[k].minDays) {
        k := n;
      }
    }
  }

  // ---- the rates in force ----------------------------------------------------------------------------

  function PeakRate(rules: RuleSet, input: RuleInput): int {
    if input.weekday in rules.peakWeekdays then rules.peakSurchargeBp else 0
  }

  function AdvanceRate(rules: RuleSet, input: RuleInput): int {
    var tier := AdvanceTierFor(rules.advanceTiers, input.daysBeforeDeparture);
    if tier.Some? then tier.value.discountBp else 0
  }

  function PassengerRate(rules: RuleSet, input: RuleInput): int {
    if input.passengerType.Some? && input.passengerType.value in rules.passengerTypeDiscounts
    then rules.passengerTypeDiscounts[input.passengerType.value] else 0
  }

  function RoundTripRate(rules: RuleSet, input: RuleInput): int {
    if input.isRoundTrip then rules.roundTripDiscountBp else 0
  }

  predicate PromoKnown(rules: RuleSet, input: RuleInput) {
    input.promoCode.Some? && input.promoCode.value in rules.promos
  }

  function PromoRate(rules: RuleSet, input: RuleInput): int {
    if PromoKnown(rules, input) then rules.promos[input.promoCode.value] else 0
  }

  function PassengerKind(input: RuleInput): string {
    if input.passengerType.Some? then input.passengerType.value else ""
  }

  function PromoCode(input: RuleInput): string {
    if input.promoCode.Some? then input.promoCode.value else ""
  }

  function Entry(present: bool, reason: Reason, amount: int): seq<Adjustment> {
    if present then [Adjustment(reason, amount)] else []
  }

  /** Added to the base. */
  function Surcharges(rules: RuleSet, input: RuleInput, base: int): seq<Adjustment> {
    var peak, demand := PeakRate(rules, input), SurchargeFor(rules.occupancyTiers, input.occupancyBp);
    Entry(peak != 0, PeakWeekday, Bp(base, peak)) + Entry(demand != 0, Demand, Bp(base, demand))
  }

  /** Taken off it. */
  function Discounts(rules: RuleSet, input: RuleInput, base: int): seq<Adjustment> {
    var advance, passenger := AdvanceRate(rules, input), PassengerRate(rules, input);
    Entry(advance != 0, AdvancePurchase, -Bp(base, advance))
    + Entry(passenger != 0, Passenger(PassengerKind(input)), -Bp(base, passenger))
    + Entry(RoundTripRate(rules, input) != 0, RoundTrip, -Bp(base, RoundTripRate(rules, input)))
    + Entry(PromoKnown(rules, input), Promo(PromoCode(input)), -Bp(base, PromoRate(rules, input)))
  }

  /** What all of them together come to. */
  function Adjusted(rules: RuleSet, input: RuleInput, base: int): int {
    base + Bp(base, PeakRate(rules, input)) + Bp(base, SurchargeFor(rules.occupancyTiers, input.occupancyBp))
    - Bp(base, AdvanceRate(rules, input)) - Bp(base, PassengerRate(rules, input))
    - Bp(base, RoundTripRate(rules, input)) - Bp(base, PromoRate(rules, input))
  }

  // ---- the whole quote -------------------------------------------------------------------------------

  lemma NoRateNoShare(base: int)
    ensures Bp(base, 0) == 0
  {}

  lemma EntrySum(present: bool, reason: Reason, amount: int)
    ensures Sum(Entry(present, reason, amount)) == if present then amount else 0
  {
    if present {
      assert [Adjustment(reason, amount)][..0] == [];
    }
  }

  lemma FourSum(a: seq<Adjustment>, b: seq<Adjustment>, c: seq<Adjustment>, d: seq<Adjustment>)
    ensures Sum(a + b + c + d) == Sum(a) + Sum(b) + Sum(c) + Sum(d)
  {
    SumConcat(a + b + c, d);
    SumConcat(a + b, c);
    SumConcat(a, b);
  }

  lemma SurchargesSum(rules: RuleSet, input: RuleInput, base: int)
    ensures Sum(Surcharges(rules, input, base))
         == Bp(base, PeakRate(rules, input)) + Bp(base, SurchargeFor(rules.occupancyTiers, input.occupancyBp))
  {
    var peak, demand := PeakRate(rules, input), SurchargeFor(rules.occupancyTiers, input.occupancyBp);
    NoRateNoShare(base);
    EntrySum(peak != 0, PeakWeekday, Bp(base, peak));
    EntrySum(demand != 0, Demand, Bp(base, demand));
    SumConcat(Entry(peak != 0, PeakWeekday, Bp(base, peak)), Entry(demand != 0, Demand, Bp(base, demand)));
  }

  lemma DiscountsSum(rules: RuleSet, input: RuleInput, base: int)
    ensures Sum(Discounts(rules, input, base))
         == -Bp(base, AdvanceRate(rules, input)) - Bp(base, PassengerRate(rules, input))
            - Bp(base, RoundTripRate(rules, input)) - Bp(base, PromoRate(rules, input))
  {
    var advance, passenger := AdvanceRate(rules, input), PassengerRate(rules, input);
    var trip, promo := RoundTripRate(rules, input), PromoRate(rules, input);
    NoRateNoShare(base);
    EntrySum(advance != 0, AdvancePurchase, -Bp(base, advance));
    EntrySum(passenger != 0, Passenger(PassengerKind(input)), -Bp(base, passenger));
    EntrySum(trip != 0, RoundTrip, -Bp(base, trip));
    EntrySum(PromoKnown(rules, input), Promo(PromoCode(input)), -Bp(base, promo));
    FourSum(Entry(advance != 0, AdvancePurchase, -Bp(base, advance)),
            Entry(passenger != 0, Passenger(PassengerKind(input)), -Bp(base, passenger)),
            Entry(trip != 0, RoundTrip, -Bp(base, trip)),
            Entry(PromoKnown(rules, input), Promo(PromoCode(input)), -Bp(base, promo)));
  }

  lemma ApplyConcat(a: seq<Term>, b: seq<Term>, base: int)
    ensures Apply(a + b, base) == Apply(a, base) + Apply(b, base)
  {}

  lemma SurchargeTerms(rules: RuleSet, input: RuleInput, base: int)
    ensures Apply(PeakTerms(rules, input) + DemandTerms(rules, input.occupancyBp), base) == Surcharges(rules, input, base)
  {
    ApplyConcat(PeakTerms(rules, input), DemandTerms(rules, input.occupancyBp), base);
  }

  lemma AdvanceEntry(rules: RuleSet, input: RuleInput, base: int)
    ensures Apply(AdvanceTerms(rules, input), base)
         == Entry(AdvanceRate(rules, input) != 0, AdvancePurchase, -Bp(base, AdvanceRate(rules, input)))
  {}

  lemma PassengerEntry(rules: RuleSet, input: RuleInput, base: int)
    ensures Apply(PassengerTerms(rules, input), base)
         == Entry(PassengerRate(rules, input) != 0, Passenger(PassengerKind(input)), -Bp(base, PassengerRate(rules, input)))
  {}

  lemma TripEntry(rules: RuleSet, input: RuleInput, base: int)
    ensures Apply(RoundTripTerms(rules, input), base)
         == Entry(RoundTripRate(rules, input) != 0, RoundTrip, -Bp(base, RoundTripRate(rules, input)))
  {}

  lemma PromoEntry(rules: RuleSet, input: RuleInput, base: int)
    ensures Apply(PromoTerms(rules, input), base)
         == Entry(PromoKnown(rules, input), Promo(PromoCode(input)), -Bp(base, PromoRate(rules, input)))
  {}

  lemma ApplyFour(a: seq<Term>, b: seq<Term>, c: seq<Term>, d: seq<Term>, base: int)
    ensures Apply(a + b + c + d, base) == Apply(a, base) + Apply(b, base) + Apply(c, base) + Apply(d, base)
  {
    ApplyConcat(a + b + c, d, base);
    ApplyConcat(a + b, c, base);
    ApplyConcat(a, b, base);
  }

  lemma DiscountTerms(rules: RuleSet, input: RuleInput, base: int)
    ensures Apply(LaterTerms(rules, input), base) == Discounts(rules, input, base)
  {
    AdvanceEntry(rules, input, base);
    PassengerEntry(rules, input, base);
    TripEntry(rules, input, base);
    PromoEntry(rules, input, base);
    ApplyFour(AdvanceTerms(rules, input), PassengerTerms(rules, input), RoundTripTerms(rules, input),
              PromoTerms(rules, input), base);
  }

  lemma TermsListed(rules: RuleSet, input: RuleInput, base: int)
    ensures Apply(Terms(rules, input), base) == Surcharges(rules, input, base) + Discounts(rules, input, base)
    ensures Total(Terms(rules, input), base) == Adjusted(rules, input, base)
  {
    SurchargeTerms(rules, input, base);
    DiscountTerms(rules, input, base);
    ApplyConcat(PeakTerms(rules, input) + DemandTerms(rules, input.occupancyBp), LaterTerms(rules, input), base);
    SumConcat(Surcharges(rules, input, base), Discounts(rules, input, base));
    SurchargesSum(rules, input, base);
    DiscountsSum(rules, input, base);
  }

  /** The quote in full: the base is fare times segments times quantity, every surcharge and discount is
      listed exactly under its own condition with its own sign, and the total is theirs, never below zero. */
  lemma QuoteInFull(rules: RuleSet, input: RuleInput)
    requires input.segments > 0 && input.quantity > 0 && input.fareKey in rules.baseFarePerSegment
    ensures Evaluate(rules, input).Ok?
    ensures var quote := Evaluate(rules, input).value;
            && quote.base == rules.baseFarePerSegment[input.fareKey] * input.segments * input.quantity
            && quote.adjustments == Surcharges(rules, input, quote.base) + Discounts(rules, input, quote.base)
            && quote.total == (var sum := Adjusted(rules, input, quote.base); if sum < 0 then 0 else sum)
  {
    var base := rules.baseFarePerSegment[input.fareKey] * input.segments * input.quantity;
    TermsListed(rules, input, base);
  }

  /** The three ways an evaluation is refused, in the order they are looked at. */
  lemma RefusedIff(rules: RuleSet, input: RuleInput)
    ensures Evaluate(rules, input) == Err(NoSegments) <==> input.segments == 0
    ensures Evaluate(rules, input) == Err(NonPositiveQuantity(input.quantity)) <==>
            input.segments > 0 && input.quantity <= 0
    ensures Evaluate(rules, input) == Err(UnknownFareKey(input.fareKey)) <==>
            input.segments > 0 && input.quantity > 0 && input.fareKey !in rules.baseFarePerSegment
    ensures Evaluate(rules, input).Ok? <==>
            input.segments > 0 && input.quantity > 0 && input.fareKey in rules.baseFarePerSegment
  {}

  // ---- what each does to the price -------------------------------------------------------------------

  lemma ShareNotNegative(base: int, rate: int)
    requires base >= 0 && rate >= 0
    ensures Bp(base, rate) >= 0
  {
    NoRateNoShare(base);
    BpMonotone(base, 0, rate);
  }

  lemma BaseOf(rules: RuleSet, input: RuleInput)
    requires Evaluate(rules, input).Ok? && FaresNotNegative(rules)
    ensures Evaluate(rules, input).value.base >= 0
  {
    BaseNotNegative(rules.baseFarePerSegment[input.fareKey], input.segments, input.quantity);
  }

  lemma WithoutPromo(rules: RuleSet, input: RuleInput, base: int)
    requires base >= 0 && PromoRate(rules, input) >= 0
    ensures Adjusted(rules, input, base) <= Adjusted(rules, input.(promoCode := None), base)
  {
    NoRateNoShare(base);
    ShareNotNegative(base, PromoRate(rules, input));
  }

  lemma WithoutPassengerType(rules: RuleSet, input: RuleInput, base: int)
    requires base >= 0 && PassengerRate(rules, input) >= 0
    ensures Adjusted(rules, input, base) <= Adjusted(rules, input.(passengerType := None), base)
  {
    NoRateNoShare(base);
    ShareNotNegative(base, PassengerRate(rules, input));
  }

  lemma WithoutRoundTrip(rules: RuleSet, input: RuleInput, base: int)
    requires base >= 0 && RoundTripRate(rules, input) >= 0
    ensures Adjusted(rules, input, base) <= Adjusted(rules, input.(isRoundTrip := false), base)
  {
    NoRateNoShare(base);
    ShareNotNegative(base, RoundTripRate(rules, input));
  }

  lemma WithoutAdvance(rules: RuleSet, input: RuleInput, base: int)
    requires base >= 0 && AdvanceRate(rules, input) >= 0
    ensures Adjusted(rules, input, base) <= Adjusted(rules.(advanceTiers := []), input, base)
  {
    NoRateNoShare(base);
    ShareNotNegative(base, AdvanceRate(rules, input));
  }

  lemma WithoutPeak(rules: RuleSet, input: RuleInput, base: int)
    requires base >= 0 && PeakRate(rules, input) >= 0
    ensures Adjusted(rules, input, base) >= Adjusted(rules.(peakWeekdays := []), input, base)
  {
    NoRateNoShare(base);
    ShareNotNegative(base, PeakRate(rules, input));
  }

  lemma WithoutDemand(rules: RuleSet, input: RuleInput, base: int)
    requires base >= 0 && SurchargeFor(rules.occupancyTiers, input.occupancyBp) >= 0
    ensures Adjusted(rules, input, base) >= Adjusted(rules.(occupancyTiers := []), input, base)
  {
    NoRateNoShare(base);
    ShareNotNegative(base, SurchargeFor(rules.occupancyTiers, input.occupancyBp));
  }

  /** Two quotes on the same base are ordered as what is adjusted. */
  lemma QuotesOrdered(rules: RuleSet, input: RuleInput, others: RuleSet, other: RuleInput)
    requires Evaluate(rules, input).Ok? && others.baseFarePerSegment == rules.baseFarePerSegment
    requires other.fareKey == input.fareKey && other.segments == input.segments && other.quantity == input.quantity
    ensures Evaluate(others, other).Ok?
    ensures var base := Evaluate(rules, input).value.base;
            && (Adjusted(rules, input, base) <= Adjusted(others, other, base) ==>
                  Evaluate(rules, input).value.total <= Evaluate(others, other).value.total)
            && (Adjusted(rules, input, base) >= Adjusted(others, other, base) ==>
                  Evaluate(rules, input).value.total >= Evaluate(others, other).value.total)
  {
    QuoteInFull(rules, input);
    QuoteInFull(others, other);
  }

  /** With fares that are not negative, each discount with a rate that is not lowers the price or leaves it;
      each surcharge raises it or leaves it. */
  lemma PromoNeverRaises(rules: RuleSet, input: RuleInput)
    requires Evaluate(rules, input).Ok? && FaresNotNegative(rules) && PromoRate(rules, input) >= 0
    ensures Evaluate(rules, input).value.total <= Evaluate(rules, input.(promoCode := None)).value.total
  {
    BaseOf(rules, input);
    WithoutPromo(rules, input, Evaluate(rules, input).value.base);
    QuotesOrdered(rules, input, rules, input.(promoCode := None));
  }

  lemma PassengerTypeNeverRaises(rules: RuleSet, input: RuleInput)
    requires Evaluate(rules, input).Ok? && FaresNotNegative(rules) && PassengerRate(rules, input) >= 0
    ensures Evaluate(rules, input).value.total <= Evaluate(rules, input.(passengerType := None)).value.total
  {
    BaseOf(rules, input);
    WithoutPassengerType(rules, input, Evaluate(rules, input).value.base);
    QuotesOrdered(rules, input, rules, input.(passengerType := None));
  }

  lemma RoundTripNeverRaises(rules: RuleSet, input: RuleInput)
    requires Evaluate(rules, input).Ok? && FaresNotNegative(rules) && RoundTripRate(rules, input) >= 0
    ensures Evaluate(rules, input).value.total <= Evaluate(rules, input.(isRoundTrip := false)).value.total
  {
    BaseOf(rules, input);
    WithoutRoundTrip(rules, input, Evaluate(rules, input).value.base);
    QuotesOrdered(rules, input, rules, input.(isRoundTrip := false));
  }

  lemma AdvanceNeverRaises(rules: RuleSet, input: RuleInput)
    requires Evaluate(rules, input).Ok? && FaresNotNegative(rules) && AdvanceRate(rules, input) >= 0
    ensures Evaluate(rules, input).value.total <= Evaluate(rules.(advanceTiers := []), input).value.total
  {
    BaseOf(rules, input);
    WithoutAdvance(rules, input, Evaluate(rules, input).value.base);
    QuotesOrdered(rules, input, rules.(advanceTiers := []), input);
  }

  lemma PeakNeverLowers(rules: RuleSet, input: RuleInput)
    requires Evaluate(rules, input).Ok? && FaresNotNegative(rules) && PeakRate(rules, input) >= 0
    ensures Evaluate(rules, input).value.total >= Evaluate(rules.(peakWeekdays := []), input).value.total
  {
    BaseOf(rules, input);
    WithoutPeak(rules, input, Evaluate(rules, input).value.base);
    QuotesOrdered(rules, input, rules.(peakWeekdays := []), input);
  }

  lemma DemandNeverLowers(rules: RuleSet, input: RuleInput)
    requires Evaluate(rules, input).Ok? && FaresNotNegative(rules) && SurchargeFor(rules.occupancyTiers, input.occupancyBp) >= 0
    ensures Evaluate(rules, input).value.total >= Evaluate(rules.(occupancyTiers := []), input).value.total
  {
    BaseOf(rules, input);
    WithoutDemand(rules, input, Evaluate(rules, input).value.base);
    QuotesOrdered(rules, input, rules.(occupancyTiers := []), input);
  }

  // ---- the occupancy that sets the demand tier ----------------------------------------------------------

  ghost predicate SameClass(classOf: map<nat, string>, row: Row, r: Row) {
    && r.trip == row.trip && r.unit in classOf && row.unit in classOf && classOf[r.unit] == classOf[row.unit]
  }

  /** The seat is taken on some segment of the span. */
  ghost predicate TakenOn(occ: Occupancy, span: Span, r: Row) {
    r in occ.seats && exists i: nat :: i < 64 && Covers(span, i) && Bit(occ.seats[r], i)
  }

  lemma SoldIffTaken(occ: Occupancy, span: Span, r: Row)
    requires r in occ.seats
    ensures And(occ.seats[r], Mask(span)) != ZERO <==> TakenOn(occ, span, r)
  {
    DisjointMasks(occ.seats[r], Mask(span));
    forall i: nat | i < 64
      ensures Bit(Mask(span), i) <==> Covers(span, i)
    {
      MaskBit(span, i);
    }
  }

  /** A seat's occupancy is the share of its class on the trip that is taken anywhere on the span, in basis
      points, rounded down; without any such seat it is zero. */
  lemma SeatOccupancyIs(occ: Occupancy, classOf: map<nat, string>, row: Row, span: Span)
    requires row.kind.Seat?
    ensures var of := set r | r in occ.seats && SameClass(classOf, row, r);
            var taken := set r | r in of && TakenOn(occ, span, r);
            var occupancy := OccupancyBp(occ, classOf, row, span);
            && (of == {} ==> occupancy == 0)
            && (of != {} ==> occupancy * |of| <= |taken| * 10_000 < occupancy * |of| + |of|)
            && 0 <= occupancy <= 10_000
  {
    var of := set r | r in occ.seats && SameClass(classOf, row, r);
    var taken := set r | r in of && TakenOn(occ, span, r);
    assert of == Bucket(occ, classOf, row);
    forall r | r in of
      ensures r in taken <==> r in Sold(occ, of, span)
    {
      SoldIffTaken(occ, span, r);
    }
    assert taken == Sold(occ, of, span);
    SubsetSize(taken, of);
    ShareIsWithin(|taken|, |of|);
  }

  lemma ShareIsWithin(part: nat, whole: nat)
    requires part <= whole
    ensures whole > 0 ==> 0 <= part * 10_000 / whole <= 10_000
    ensures whole > 0 ==> part * 10_000 / whole * whole <= part * 10_000 < part * 10_000 / whole * whole + whole
  {
    if whole > 0 {
      DivFloor(part * 10_000, whole);
      DivMonotone(part * 10_000, whole * 10_000, whole);
      DivExact(whole, 10_000);
    }
  }

  lemma DivExact(n: int, k: int)
    requires n > 0
    ensures n * k / n == k
  {
    var q := n * k / n;
    DivFloor(n * k, n);
    if q > k {
      TimesMonotone(k + 1, q, n);
    } else if q < k {
      TimesMonotone(q + 1, k, n);
    }
  }

  lemma FullPool(capacity: int)
    requires capacity > 0
    ensures FillBp(capacity, 0) == 10_000
  {
    DivExact(capacity, 10_000);
  }

  /** Segment `i` is the tightest that the pool has on the span. */
  ghost predicate Tightest(pool: PoolRow, span: Span, i: nat) {
    && i < |pool.remaining| && Covers(span, i)
    && forall j: nat :: j < |pool.remaining| && Covers(span, j) ==> pool.remaining[i] <= pool.remaining[j]
  }

  /** A pool's occupancy is what is sold of its capacity on its tightest segment; all of it, where the span
      starts past the counters; zero for a pool that is unknown or has no capacity. */
  lemma PoolOccupancyIs(occ: Occupancy, classOf: map<nat, string>, row: Row, span: Span)
    requires row.kind.Pool?
    ensures var occupancy := OccupancyBp(occ, classOf, row, span);
            && (row !in occ.pools || occ.pools[row].capacity <= 0 ==> occupancy == 0)
            && (row in occ.pools && occ.pools[row].capacity > 0 ==>
                  var pool := occ.pools[row];
                  && (span.from >= |pool.remaining| ==> occupancy == 10_000)
                  && forall i: nat :: Tightest(pool, span, i) ==>
                       occupancy == TruncDiv((pool.capacity - pool.remaining[i]) * 10_000, pool.capacity))
  {
    if row in occ.pools && occ.pools[row].capacity > 0 {
      var pool := occ.pools[row];
      FullPool(pool.capacity);
      forall i: nat | Tightest(pool, span, i)
        ensures LeastRemaining(pool, span) == pool.remaining[i]
      {
        LeastIsTightest(pool, span, i);
      }
    }
  }

  lemma LeastIsTightest(pool: PoolRow, span: Span, i: nat)
    requires Tightest(pool, span, i)
    ensures LeastRemaining(pool, span) == pool.remaining[i]
  {
    SliceAt(pool.remaining, span);
    var least := Min(Slice(pool.remaining, span));
    var k: nat :| k < |pool.remaining| && Covers(span, k) && pool.remaining[k] == least;
    assert pool.remaining[i] in Slice(pool.remaining, span);
  }
}
