/** Fare evaluation (crates/lulan-pricing/src/rules.rs) and the demand input it reads
(crates/lulan-engine/src/inventory/store.rs, span_occupancy_bp). Amounts are minor units, rates are
basis points. */
module Fares {
  import opened Outcomes
  import opened Segments
  import opened Ledger

  datatype OccupancyTier = OccupancyTier(minOccupancyBp: int, surchargeBp: int)

  datatype AdvanceTier = AdvanceTier(minDays: int, discountBp: int)

  datatype RuleSet = RuleSet(
    baseFarePerSegment: map<string, int>,
    peakWeekdays: seq<u8>,
    peakSurchargeBp: int,
    occupancyTiers: seq<OccupancyTier>,
    advanceTiers: seq<AdvanceTier>,
    promos: map<string, int>,
    passengerTypeDiscounts: map<string, int>,
    roundTripDiscountBp: int)

  datatype RuleInput = RuleInput(
    fareKey: string,
    segments: u8,
    quantity: int,
    weekday: u8,
    daysBeforeDeparture: int,
    occupancyBp: int,
    promoCode: Option<string>,
    passengerType: Option<string>,
    isRoundTrip: bool)

  datatype Reason = PeakWeekday | Demand | AdvancePurchase | Passenger(kind: string) | RoundTrip | Promo(code: string)

  datatype Adjustment = Adjustment(reason: Reason, amount: int)

  datatype Quote = Quote(base: int, adjustments: seq<Adjustment>, total: int)

  datatype EvalError = UnknownFareKey(key: string) | NoSegments | NonPositiveQuantity(quantity: int)

  /** Rust's `/`: toward zero. */
  function TruncDiv(a: int, n: int): int
    requires n > 0
  {
    if a >= 0 then a / n else -(-a / n)
  }

  function Bp(amount: int, rate: int): int {
    TruncDiv(amount * rate, 10_000)
  }

  /** `max_by_key` over the tiers reached: the last one with the greatest threshold. */
  function OccupancyTierFor(tiers: seq<OccupancyTier>, occupancy: int): Option<OccupancyTier> {
    if tiers == [] then None
    else
      var best := OccupancyTierFor(tiers[..|tiers| - 1], occupancy);
      var last := tiers[|tiers| - 1];
      if last.minOccupancyBp <= occupancy && (best.None? || last.minOccupancyBp >= best.value.minOccupancyBp)
      then Some(last) else best
  }

  function AdvanceTierFor(tiers: seq<AdvanceTier>, days: int): Option<AdvanceTier> {
    if tiers == [] then None
    else
      var best := AdvanceTierFor(tiers[..|tiers| - 1], days);
      var last := tiers[|tiers| - 1];
      if last.minDays <= days && (best.None? || last.minDays >= best.value.minDays) then Some(last) else best
  }

  /** One adjustment, before it is applied to the base. */
  datatype Term = Surcharge(reason: Reason, rate: int) | Discount(reason: Reason, rate: int)

  function Surcharging(reason: Reason, rate: int): seq<Term> {
    if rate != 0 then [Surcharge(reason, rate)] else []
  }

  function Discounting(reason: Reason, rate: int): seq<Term> {
    if rate != 0 then [Discount(reason, rate)] else []
  }

  function PeakTerms(rules: RuleSet, input: RuleInput): seq<Term> {
    if input.weekday in rules.peakWeekdays then Surcharging(PeakWeekday, rules.peakSurchargeBp) else []
  }

  function DemandTerms(rules: RuleSet, occupancy: int): seq<Term> {
    match OccupancyTierFor(rules.occupancyTiers, occupancy)
    case None => []
    case Some(tier) => Surcharging(Demand, tier.surchargeBp)
  }

  function AdvanceTerms(rules: RuleSet, input: RuleInput): seq<Term> {
    match AdvanceTierFor(rules.advanceTiers, input.daysBeforeDeparture)
    case None => []
    case Some(tier) => Discounting(AdvancePurchase, tier.discountBp)
  }

  function PassengerTerms(rules: RuleSet, input: RuleInput): seq<Term> {
    if input.passengerType.Some? && input.passengerType.value in rules.passengerTypeDiscounts
    then Discounting(Passenger(input.passengerType.value), rules.passengerTypeDiscounts[input.passengerType.value])
    else []
  }

  function RoundTripTerms(rules: RuleSet, input: RuleInput): seq<Term> {
    if input.isRoundTrip then Discounting(RoundTrip, rules.roundTripDiscountBp) else []
  }

  /** A promo is listed even when its rate is zero. */
  function PromoTerms(rules: RuleSet, input: RuleInput): seq<Term> {
    if input.promoCode.Some? && input.promoCode.value in rules.promos
    then [Discount(Promo(input.promoCode.value), rules.promos[input.promoCode.value])]
    else []
  }

  function LaterTerms(rules: RuleSet, input: RuleInput): seq<Term> {
    AdvanceTerms(rules, input) + PassengerTerms(rules, input) + RoundTripTerms(rules, input) + PromoTerms(rules, input)
  }

  function Terms(rules: RuleSet, input: RuleInput): seq<Term> {
    PeakTerms(rules, input) + DemandTerms(rules, input.occupancyBp) + LaterTerms(rules, input)
  }

  function Amount(term: Term, base: int): int {
    match term
    case Surcharge(_, rate) => Bp(base, rate)
    case Discount(_, rate) => -Bp(base, rate)
  }

  function Apply(terms: seq<Term>, base: int): (adjustments: seq<Adjustment>)
    ensures |adjustments| == |terms|
    ensures forall i :: 0 <= i < |terms| ==> adjustments[i] == Adjustment(terms[i].reason, Amount(terms[i], base))
  {
    seq(|terms|, i requires 0 <= i < |terms| => Adjustment(terms[i].reason, Amount(terms[i], base)))
  }

  function Sum(adjustments: seq<Adjustment>): int {
    if adjustments == [] then 0
    else Sum(adjustments[..|adjustments| - 1]) + adjustments[|adjustments| - 1].amount
  }

  function BaseFare(perSegment: int, segments: u8, quantity: int): int {
    perSegment * segments * quantity
  }

  /** What the clamp is applied to. */
  function Total(terms: seq<Term>, base: int): int {
    base + Sum(Apply(terms, base))
  }

  function AtLeastZero(x: int): int {
    if x < 0 then 0 else x
  }

  function Evaluate(rules: RuleSet, input: RuleInput): Result<Quote, EvalError> {
    if input.segments == 0 then Err(NoSegments)
    else if input.quantity <= 0 then Err(NonPositiveQuantity(input.quantity))
    else if input.fareKey !in rules.baseFarePerSegment then Err(UnknownFareKey(input.fareKey))
    else
      var base := BaseFare(rules.baseFarePerSegment[input.fareKey], input.segments, input.quantity);
      var terms := Terms(rules, input);
      Ok(Quote(base, Apply(terms, base), AtLeastZero(Total(terms, base))))
  }

  // ---- occupancy ---------------------------------------------------------------------------------------

  /** The seats of a trip in one fare class; a seat without a class matches none. */
  function Bucket(occ: Occupancy, classOf: map<nat, string>, row: Row): set<Row> {
    set r | r in occ.seats && r.trip == row.trip
            && r.unit in classOf && row.unit in classOf && classOf[r.unit] == classOf[row.unit]
  }

  function Sold(occ: Occupancy, bucket: set<Row>, span: Span): set<Row> {
    set r | r in bucket && r in occ.seats && And(occ.seats[r], Mask(span)) != ZERO
  }

  /** The minimum of an empty slice is NULL, read as 0. */
  function LeastRemaining(pool: PoolRow, span: Span): int {
    if Slice(pool.remaining, span) == [] then 0 else Min(Slice(pool.remaining, span))
  }

  function SeatFill(occ: Occupancy, bucket: set<Row>, span: Span): int {
    if |bucket| == 0 then 0 else |Sold(occ, bucket, span)| * 10_000 / |bucket|
  }

  function FillBp(capacity: int, least: int): int {
    if capacity <= 0 then 0 else TruncDiv((capacity - least) * 10_000, capacity)
  }

  function PoolFill(pool: PoolRow, span: Span): int {
    FillBp(pool.capacity, LeastRemaining(pool, span))
  }

  /** `span_occupancy_bp`. */
  function OccupancyBp(occ: Occupancy, classOf: map<nat, string>, row: Row, span: Span): int {
    if row.kind.Seat? then SeatFill(occ, Bucket(occ, classOf, row), span)
    else if row in occ.pools then PoolFill(occ.pools[row], span)
    else 0
  }
}
