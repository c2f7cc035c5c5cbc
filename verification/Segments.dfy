/** Segment spans and 64-bit occupancy masks (crates/lulan-engine/src/domain/segment.rs).

A mask is a real 64-bit vector, wrapped in `Word`, and claiming, releasing and testing are the
source's own or, and-not and and. The rest of the project sees masks through `Bit`; this module
proves what the word operations do to single bits and that the bits determine the word. */
module Segments {
  import opened Outcomes

  const MAX_SEGMENTS: nat := 64

  type u8 = n: nat | n < 256

  datatype SpanError = Empty(from: u8, to: u8) | TooLong(to: u8)

  /** What `SegmentSpan::new` lets through: non-empty and within 64 segments. */
  datatype RawSpan = RawSpan(from: u8, to: u8)
  type Span = s: RawSpan | s.from < s.to <= MAX_SEGMENTS witness RawSpan(0, 1)

  function NewSpan(from: u8, to: u8): (r: Result<Span, SpanError>)
    ensures r.Ok? <==> from < to <= MAX_SEGMENTS
    ensures r.Ok? ==> r.value.from == from && r.value.to == to
    ensures r.Err? ==> (r.error.Empty? <==> from >= to)
  {
    if from >= to then Err(Empty(from, to))
    else if to > MAX_SEGMENTS then Err(TooLong(to))
    else Ok(RawSpan(from, to))
  }

  predicate Covers(span: Span, i: nat) {
    span.from <= i < span.to
  }

  predicate IntervalsOverlap(a: Span, b: Span) {
    a.from < b.to && b.from < a.to
  }

  // ---- words ---------------------------------------------------------------------------------

  /** A `u64`. */
  datatype Word = Word(bits: bv64)

  const ZERO := Word(0)
  const ONE := Word(1)
  const ALL := Word(0xFFFF_FFFF_FFFF_FFFF)

  function And(a: Word, b: Word): Word { Word(a.bits & b.bits) }

  function Or(a: Word, b: Word): Word { Word(a.bits | b.bits) }

  function AndNot(a: Word, b: Word): Word { Word(a.bits & !b.bits) }

  function Half(a: Word): Word { Word(a.bits >> 1) }

  function Double(a: Word): Word { Word(a.bits << 1) }

  function Pred(a: Word): Word { Word(a.bits - 1) }

  predicate Odd(a: Word) { a.bits & 1 == 1 }

  /** `m >> i`, one place at a time. */
  function ShiftRight(m: Word, i: nat): Word
    decreases i
  {
    if i == 0 then m else ShiftRight(Half(m), i - 1)
  }

  /** `x << k`, one place at a time; the top bit falls off. */
  function ShiftLeft(x: Word, k: nat): Word
    decreases k
  {
    if k == 0 then x else Double(ShiftLeft(x, k - 1))
  }

  /** Segment `i` is occupied in `m`. */
  predicate Bit(m: Word, i: nat) {
    Odd(ShiftRight(m, i))
  }

  /** `SegmentSpan::mask`: a full-width span is special-cased because 1 << 64 overflows. */
  function Mask(span: Span): Word {
    var width := span.to - span.from;
    if width == 64 then ALL else ShiftLeft(Pred(ShiftLeft(ONE, width)), span.from)
  }

  predicate IsAvailable(span: Span, occupied: Word) {
    And(occupied, Mask(span)) == ZERO
  }

  predicate Overlaps(a: Span, b: Span) {
    And(Mask(a), Mask(b)) != ZERO
  }

  // ---- single bits of the bitwise operators --------------------------------------------------

  lemma HalveAnd(a: Word, b: Word)
    ensures Half(And(a, b)) == And(Half(a), Half(b))
  {}

  lemma HalveOr(a: Word, b: Word)
    ensures Half(Or(a, b)) == Or(Half(a), Half(b))
  {}

  lemma HalveAndNot(a: Word, b: Word)
    ensures Half(AndNot(a, b)) == AndNot(Half(a), Half(b))
  {}

  lemma LowAnd(a: Word, b: Word)
    ensures Odd(And(a, b)) <==> Odd(a) && Odd(b)
  {}

  lemma LowOr(a: Word, b: Word)
    ensures Odd(Or(a, b)) <==> Odd(a) || Odd(b)
  {}

  lemma LowAndNot(a: Word, b: Word)
    ensures Odd(AndNot(a, b)) <==> Odd(a) && !Odd(b)
  {}

  lemma {:induction false} ShiftAnd(a: Word, b: Word, i: nat)
    ensures ShiftRight(And(a, b), i) == And(ShiftRight(a, i), ShiftRight(b, i))
    decreases i
  {
    if i > 0 {
      HalveAnd(a, b);
      ShiftAnd(Half(a), Half(b), i - 1);
    }
  }

  lemma AndAt(a: Word, b: Word, i: nat)
    ensures Bit(And(a, b), i) <==> Bit(a, i) && Bit(b, i)
  {
    ShiftAnd(a, b, i);
    LowAnd(ShiftRight(a, i), ShiftRight(b, i));
  }

  lemma {:induction false} ShiftOr(a: Word, b: Word, i: nat)
    ensures ShiftRight(Or(a, b), i) == Or(ShiftRight(a, i), ShiftRight(b, i))
    decreases i
  {
    if i > 0 {
      HalveOr(a, b);
      ShiftOr(Half(a), Half(b), i - 1);
    }
  }

  lemma OrAt(a: Word, b: Word, i: nat)
    ensures Bit(Or(a, b), i) <==> Bit(a, i) || Bit(b, i)
  {
    ShiftOr(a, b, i);
    LowOr(ShiftRight(a, i), ShiftRight(b, i));
  }

  lemma {:induction false} ShiftAndNot(a: Word, b: Word, i: nat)
    ensures ShiftRight(AndNot(a, b), i) == AndNot(ShiftRight(a, i), ShiftRight(b, i))
    decreases i
  {
    if i > 0 {
      HalveAndNot(a, b);
      ShiftAndNot(Half(a), Half(b), i - 1);
    }
  }

  lemma AndNotAt(a: Word, b: Word, i: nat)
    ensures Bit(AndNot(a, b), i) <==> Bit(a, i) && !Bit(b, i)
  {
    ShiftAndNot(a, b, i);
    LowAndNot(ShiftRight(a, i), ShiftRight(b, i));
  }

  lemma {:induction false} ZeroAt(i: nat)
    ensures !Bit(ZERO, i)
    decreases i
  {
    if i > 0 {
      assert Half(ZERO) == ZERO;
      ZeroAt(i - 1);
    }
  }

  // ---- bits determine the word ---------------------------------------------------------------

  function Drop2(m: Word): Word { Word(m.bits >> 2) }

  function Drop4(m: Word): Word { Word(m.bits >> 4) }

  function Drop8(m: Word): Word { Word(m.bits >> 8) }

  function Drop16(m: Word): Word { Word(m.bits >> 16) }

  function Drop32(m: Word): Word { Word(m.bits >> 32) }

  lemma HalfTwice(m: Word)
    ensures Half(Half(m)) == Drop2(m)
  {}

  lemma ShiftByTwo(m: Word, i: nat)
    requires i >= 2
    ensures ShiftRight(m, i) == ShiftRight(Drop2(m), i - 2)
  {
    HalfTwice(m);
    assert ShiftRight(m, i) == ShiftRight(Half(Half(m)), i - 2);
  }

  lemma Drop2Twice(m: Word)
    ensures Drop2(Drop2(m)) == Drop4(m)
  {}

  lemma ShiftByFour(m: Word, i: nat)
    requires i >= 4
    ensures ShiftRight(m, i) == ShiftRight(Drop4(m), i - 4)
  {
    Drop2Twice(m);
    ShiftByTwo(m, i);
    ShiftByTwo(Drop2(m), i - 2);
  }

  lemma Drop4Twice(m: Word)
    ensures Drop4(Drop4(m)) == Drop8(m)
  {}

  lemma ShiftByEight(m: Word, i: nat)
    requires i >= 8
    ensures ShiftRight(m, i) == ShiftRight(Drop8(m), i - 8)
  {
    Drop4Twice(m);
    ShiftByFour(m, i);
    ShiftByFour(Drop4(m), i - 4);
  }

  lemma Drop8Twice(m: Word)
    ensures Drop8(Drop8(m)) == Drop16(m)
  {}

  lemma ShiftBySixteen(m: Word, i: nat)
    requires i >= 16
    ensures ShiftRight(m, i) == ShiftRight(Drop16(m), i - 16)
  {
    Drop8Twice(m);
    ShiftByEight(m, i);
    ShiftByEight(Drop8(m), i - 8);
  }

  lemma Drop16Twice(m: Word)
    ensures Drop16(Drop16(m)) == Drop32(m)
  {}

  lemma ShiftByThirtyTwo(m: Word, i: nat)
    requires i >= 32
    ensures ShiftRight(m, i) == ShiftRight(Drop32(m), i - 32)
  {
    Drop16Twice(m);
    ShiftBySixteen(m, i);
    ShiftBySixteen(Drop16(m), i - 16);
  }

  lemma Drop32Twice(m: Word)
    ensures Drop32(Drop32(m)) == ZERO
  {}

  lemma ShiftedOut(m: Word)
    ensures ShiftRight(m, 64) == ZERO
  {
    ShiftByThirtyTwo(m, 64);
    ShiftByThirtyTwo(Drop32(m), 32);
    Drop32Twice(m);
  }

  lemma JoinLowBit(x: Word, y: Word)
    requires Half(x) == Half(y) && (Odd(x) <==> Odd(y))
    ensures x == y
  {}

  ghost predicate SameBits(a: Word, b: Word, n: nat) {
    forall i: nat {:trigger Bit(a, i)} {:trigger Bit(b, i)} :: i < n ==> (Bit(a, i) <==> Bit(b, i))
  }

  lemma HalvesSameBits(a: Word, b: Word, n: nat)
    requires n > 0 && SameBits(a, b, n)
    ensures SameBits(Half(a), Half(b), n - 1)
    ensures Odd(a) <==> Odd(b)
  {
    assert Bit(a, 0) <==> Bit(b, 0);
    forall i: nat | i < n - 1
      ensures Bit(Half(a), i) <==> Bit(Half(b), i)
    {
      assert Bit(a, i + 1) <==> Bit(b, i + 1);
    }
  }

  lemma {:induction false} BitsDetermine(a: Word, b: Word, n: nat)
    requires ShiftRight(a, n) == ShiftRight(b, n)
    requires SameBits(a, b, n)
    ensures a == b
    decreases n
  {
    if n > 0 {
      HalvesSameBits(a, b, n);
      BitsDetermine(Half(a), Half(b), n - 1);
      JoinLowBit(a, b);
    }
  }

  lemma BitsDetermineMask(a: Word, b: Word)
    requires SameBits(a, b, 64)
    ensures a == b
  {
    ShiftedOut(a);
    ShiftedOut(b);
    BitsDetermine(a, b, 64);
  }

  ghost predicate NoCommonBit(a: Word, b: Word) {
    forall i: nat :: i < 64 ==> !(Bit(a, i) && Bit(b, i))
  }

  ghost predicate AllBitsIn(b: Word, a: Word) {
    forall i: nat :: i < 64 && Bit(b, i) ==> Bit(a, i)
  }

  /** The guard of a claim: two masks are disjoint exactly when no segment is set in both. */
  lemma DisjointMasks(a: Word, b: Word)
    ensures And(a, b) == ZERO <==> NoCommonBit(a, b)
  {
    forall i: nat | i < 64
      ensures Bit(And(a, b), i) <==> Bit(a, i) && Bit(b, i)
      ensures !Bit(ZERO, i)
    {
      AndAt(a, b, i);
      ZeroAt(i);
    }
    if NoCommonBit(a, b) {
      BitsDetermineMask(And(a, b), ZERO);
    }
  }

  /** The guard of a release: every bit of `b` is set in `a`. */
  lemma ContainedMask(a: Word, b: Word)
    ensures And(a, b) == b <==> AllBitsIn(b, a)
  {
    forall i: nat | i < 64
      ensures Bit(And(a, b), i) <==> Bit(a, i) && Bit(b, i)
    {
      AndAt(a, b, i);
    }
    if AllBitsIn(b, a) {
      BitsDetermineMask(And(a, b), b);
    }
  }

  lemma AndDistributes(a: Word, b: Word, m: Word)
    ensures And(Or(a, b), m) == Or(And(a, m), And(b, m))
  {}

  lemma BothZero(a: Word, b: Word)
    requires Or(a, b) == ZERO
    ensures a == ZERO && b == ZERO
  {
    assert a.bits & (a.bits | b.bits) == a.bits;
    assert b.bits & (a.bits | b.bits) == b.bits;
  }

  lemma ZeroMeetsNothing(m: Word)
    ensures And(ZERO, m) == ZERO && And(m, m) == m
  {}

  /** A union shares a segment with `m` exactly when one of its parts does. */
  lemma UnionTouches(a: Word, b: Word, m: Word)
    ensures And(Or(a, b), m) != ZERO <==> And(a, m) != ZERO || And(b, m) != ZERO
  {
    AndDistributes(a, b, m);
    if And(Or(a, b), m) == ZERO {
      BothZero(And(a, m), And(b, m));
    }
  }

  // ---- single bits of a span's mask ----------------------------------------------------------

  lemma AllAt(i: nat)
    requires i < 64
    ensures Bit(ALL, i)
  {
    var m, j := ALL, i;
    if j >= 32 { ShiftByThirtyTwo(m, j); m, j := Drop32(m), j - 32; }
    assert m.bits & 0xFFFF_FFFF == 0xFFFF_FFFF;
    if j >= 16 { ShiftBySixteen(m, j); m, j := Drop16(m), j - 16; }
    assert m.bits & 0xFFFF == 0xFFFF;
    if j >= 8 { ShiftByEight(m, j); m, j := Drop8(m), j - 8; }
    assert m.bits & 0xFF == 0xFF;
    if j >= 4 { ShiftByFour(m, j); m, j := Drop4(m), j - 4; }
    assert m.bits & 0xF == 0xF;
    if j >= 2 { ShiftByTwo(m, j); m, j := Drop2(m), j - 2; }
    assert m.bits & 3 == 3;
    assert ShiftRight(m, j) == if j == 0 then m else Half(m);
  }

  lemma DoubleIsEven(x: Word)
    ensures !Odd(Double(x))
  {}

  lemma HalfOfDouble(x: Word)
    ensures Half(Double(x)) == And(x, Half(ALL))
  {}

  lemma PredOfDouble(x: Word)
    ensures Pred(Double(x)) == Or(Double(Pred(x)), ONE)
  {}

  /** Doubling moves every bit up one place; bit 63 falls off. */
  lemma DoubleAt(x: Word, i: nat)
    requires i < 64
    ensures Bit(Double(x), i) <==> i > 0 && Bit(x, i - 1)
  {
    DoubleIsEven(x);
    if i > 0 {
      HalfOfDouble(x);
      AndAt(x, Half(ALL), i - 1);
      AllAt(i);
    }
  }

  lemma {:induction false} ShiftLeftAt(x: Word, k: nat, i: nat)
    requires i < 64
    ensures Bit(ShiftLeft(x, k), i) <==> i >= k && Bit(x, i - k)
    decreases k
  {
    if k > 0 {
      DoubleAt(ShiftLeft(x, k - 1), i);
      if i > 0 {
        ShiftLeftAt(x, k - 1, i - 1);
      }
    }
  }

  lemma OneAt(i: nat)
    ensures Bit(ONE, i) <==> i == 0
  {
    assert Half(ONE) == ZERO;
    if i > 0 {
      ZeroAt(i - 1);
    }
  }

  lemma {:induction false} OnesAt(w: nat, i: nat)
    requires i < 64
    ensures Bit(Pred(ShiftLeft(ONE, w)), i) <==> i < w
    decreases w
  {
    if w == 0 {
      assert Pred(ONE) == ZERO;
      ZeroAt(i);
    } else {
      var power := ShiftLeft(ONE, w - 1);
      PredOfDouble(power);
      OrAt(Double(Pred(power)), ONE, i);
      DoubleAt(Pred(power), i);
      OneAt(i);
      if i > 0 {
        OnesAt(w - 1, i - 1);
      }
    }
  }

  /** Bit `i` of a span's mask is set exactly when the span covers segment `i`. */
  lemma MaskBit(span: Span, i: nat)
    requires i < 64
    ensures Bit(Mask(span), i) <==> Covers(span, i)
  {
    var width := span.to - span.from;
    if width == 64 {
      AllAt(i);
    } else {
      ShiftLeftAt(Pred(ShiftLeft(ONE, width)), span.from, i);
      if i >= span.from {
        OnesAt(width, i - span.from);
      }
    }
  }

  // ---- spans as masks ------------------------------------------------------------------------

  ghost predicate FreeAcross(occupied: Word, span: Span) {
    forall i: nat :: i < 64 && Covers(span, i) ==> !Bit(occupied, i)
  }

  ghost predicate HeldAcross(occupied: Word, span: Span) {
    forall i: nat :: i < 64 && Covers(span, i) ==> Bit(occupied, i)
  }

  /** A span can be claimed exactly when it touches no occupied segment. */
  lemma AvailableSpan(span: Span, occupied: Word)
    ensures IsAvailable(span, occupied) <==> FreeAcross(occupied, span)
  {
    DisjointMasks(occupied, Mask(span));
    forall i: nat | i < 64
      ensures Bit(Mask(span), i) <==> Covers(span, i)
    {
      MaskBit(span, i);
    }
  }

  /** A span can be released exactly when all of it is occupied. */
  lemma OccupiedSpan(span: Span, occupied: Word)
    ensures And(occupied, Mask(span)) == Mask(span) <==> HeldAcross(occupied, span)
  {
    ContainedMask(occupied, Mask(span));
    forall i: nat | i < 64
      ensures Bit(Mask(span), i) <==> Covers(span, i)
    {
      MaskBit(span, i);
    }
  }

  lemma ClaimedAt(span: Span, occupied: Word, i: nat)
    requires i < 64
    ensures Bit(Or(occupied, Mask(span)), i) <==> Bit(occupied, i) || Covers(span, i)
    ensures Bit(AndNot(occupied, Mask(span)), i) <==> Bit(occupied, i) && !Covers(span, i)
  {
    OrAt(occupied, Mask(span), i);
    AndNotAt(occupied, Mask(span), i);
    MaskBit(span, i);
  }

  /** Mask overlap is interval overlap, and availability against one span is its negation. */
  lemma OverlapIsIntervalOverlap(a: Span, b: Span)
    ensures Overlaps(a, b) <==> IntervalsOverlap(a, b)
    ensures IsAvailable(a, Mask(b)) <==> !IntervalsOverlap(a, b)
  {
    DisjointMasks(Mask(a), Mask(b));
    AvailableSpan(a, Mask(b));
    forall i: nat | i < 64
      ensures Bit(Mask(a), i) <==> Covers(a, i)
      ensures Bit(Mask(b), i) <==> Covers(b, i)
    {
      MaskBit(a, i);
      MaskBit(b, i);
    }
    var first: nat := if a.from < b.from then b.from else a.from;
    assert IntervalsOverlap(a, b) <==> Covers(a, first) && Covers(b, first);
  }

  // ---- decoding a mask back into a span (store.rs, pool_availability_batch) --------------------

  function TrailingZerosFrom(m: Word, i: nat): nat
    requires i <= 64
    decreases 64 - i
  {
    if i == 64 || Bit(m, i) then i else TrailingZerosFrom(m, i + 1)
  }

  /** `u64::trailing_zeros`. */
  function TrailingZeros(m: Word): nat {
    TrailingZerosFrom(m, 0)
  }

  function LeadingZerosBelow(m: Word, i: nat): nat
    requires i <= 64
    decreases i
  {
    if i == 0 || Bit(m, i - 1) then 64 - i else LeadingZerosBelow(m, i - 1)
  }

  /** `u64::leading_zeros`. */
  function LeadingZeros(m: Word): nat {
    LeadingZerosBelow(m, 64)
  }

  lemma {:induction false} SkipTrailing(span: Span, i: nat)
    requires i <= span.from
    ensures TrailingZerosFrom(Mask(span), i) == span.from
    decreases span.from - i
  {
    MaskBit(span, i);
    if i < span.from {
      SkipTrailing(span, i + 1);
    }
  }

  lemma {:induction false} SkipLeading(span: Span, i: nat)
    requires span.to <= i <= 64
    ensures LeadingZerosBelow(Mask(span), i) == 64 - span.to
    decreases i
  {
    MaskBit(span, i - 1);
    if span.to < i {
      SkipLeading(span, i - 1);
    }
  }

  /** The batch availability query recovers a span's ends from its mask alone. */
  lemma MaskDecodes(span: Span)
    ensures TrailingZeros(Mask(span)) == span.from
    ensures 64 - LeadingZeros(Mask(span)) == span.to
  {
    SkipTrailing(span, 0);
    SkipLeading(span, 64);
  }

  // ---- the two 32-bit halves of a hold (holds.rs) ---------------------------------------------

  /** A `u32`, the widest a Redis Lua bit operation takes. */
  datatype Word32 = Word32(bits: bv32)

  const ZERO32 := Word32(0)

  function And32(a: Word32, b: Word32): Word32 { Word32(a.bits & b.bits) }

  function Or32(a: Word32, b: Word32): Word32 { Word32(a.bits | b.bits) }

  /** A mask as the hold hash stores it. */
  datatype Halves = Halves(hi: Word32, lo: Word32)

  const NO_HALVES := Halves(ZERO32, ZERO32)

  function Split(m: Word): Halves {
    Halves(Word32((m.bits >> 32) as bv32), Word32((m.bits & 0xFFFF_FFFF) as bv32))
  }

  function Join(h: Halves): Word {
    Word(((h.hi.bits as bv64) << 32) | (h.lo.bits as bv64))
  }

  predicate Meets(a: Word32, b: Word32) { And32(a, b) != ZERO32 }

  /** The admission script's overlap test: either half shares a bit. */
  predicate HalvesOverlap(a: Halves, b: Halves) {
    Meets(a.hi, b.hi) || Meets(a.lo, b.lo)
  }

  function OrHalves(a: Halves, b: Halves): Halves {
    Halves(Or32(a.hi, b.hi), Or32(a.lo, b.lo))
  }

  lemma JoinOfSplit(m: Word)
    ensures Join(Split(m)) == m
  {}

  lemma HalvesKeepOverlap(a: Halves, b: Halves)
    ensures HalvesOverlap(a, b) <==> And(Join(a), Join(b)) != ZERO
  {}

  lemma HalvesKeepUnion(a: Halves, b: Halves)
    ensures Join(OrHalves(a, b)) == Or(Join(a), Join(b))
  {}

  lemma NoHalvesOverlapNothing(a: Halves)
    ensures !HalvesOverlap(NO_HALVES, a)
  {}

  lemma AndDistributes32(a: Word32, b: Word32, m: Word32)
    ensures And32(Or32(a, b), m) == Or32(And32(a, m), And32(b, m))
  {}

  lemma BothZero32(a: Word32, b: Word32)
    requires Or32(a, b) == ZERO32
    ensures a == ZERO32 && b == ZERO32
  {
    assert a.bits & (a.bits | b.bits) == a.bits;
    assert b.bits & (a.bits | b.bits) == b.bits;
  }

  lemma UnionMeets(a: Word32, b: Word32, m: Word32)
    ensures Meets(Or32(a, b), m) <==> Meets(a, m) || Meets(b, m)
  {
    AndDistributes32(a, b, m);
    if !Meets(Or32(a, b), m) {
      BothZero32(And32(a, m), And32(b, m));
    }
  }

  /** A mask clashes with a union of holds exactly when it clashes with one of them. */
  lemma OverlapOfUnion(a: Halves, b: Halves, m: Halves)
    ensures HalvesOverlap(OrHalves(a, b), m) <==> HalvesOverlap(a, m) || HalvesOverlap(b, m)
  {
    UnionMeets(a.hi, b.hi, m.hi);
    UnionMeets(a.lo, b.lo, m.lo);
  }

  /** The script's test on two split masks is interval overlap. */
  lemma SplitOverlapIsIntervalOverlap(a: Span, b: Span)
    ensures HalvesOverlap(Split(Mask(a)), Split(Mask(b))) <==> IntervalsOverlap(a, b)
  {
    JoinOfSplit(Mask(a));
    JoinOfSplit(Mask(b));
    HalvesKeepOverlap(Split(Mask(a)), Split(Mask(b)));
    OverlapIsIntervalOverlap(a, b);
  }

  // ---- one mask against a list of intervals ----------------------------------------------------

  /** The verdicts of claiming `spans` one after another on one mask. */
  function MaskVerdicts(occupied: Word, spans: seq<Span>): seq<bool>
    decreases |spans|
  {
    if spans == [] then []
    else if IsAvailable(spans[0], occupied) then
      [true] + MaskVerdicts(Or(occupied, Mask(spans[0])), spans[1..])
    else
      [false] + MaskVerdicts(occupied, spans[1..])
  }

  /** The same, keeping the accepted intervals themselves. */
  function ListVerdicts(taken: set<Span>, spans: seq<Span>): seq<bool>
    decreases |spans|
  {
    if spans == [] then []
    else if forall t <- taken :: !IntervalsOverlap(spans[0], t) then
      [true] + ListVerdicts(taken + {spans[0]}, spans[1..])
    else
      [false] + ListVerdicts(taken, spans[1..])
  }

  ghost predicate Represents(occupied: Word, taken: set<Span>) {
    forall i: nat :: i < 64 ==> (Bit(occupied, i) <==> exists t <- taken :: Covers(t, i))
  }

  lemma FreeInBoth(occupied: Word, taken: set<Span>, span: Span)
    requires Represents(occupied, taken)
    ensures IsAvailable(span, occupied) <==> forall t <- taken :: !IntervalsOverlap(span, t)
  {
    AvailableSpan(span, occupied);
    if IsAvailable(span, occupied) {
      forall t | t in taken
        ensures !IntervalsOverlap(span, t)
      {
        var first: nat := if span.from < t.from then t.from else span.from;
        if IntervalsOverlap(span, t) {
          assert Covers(t, first) && Covers(span, first) && first < 64;
        }
      }
    }
  }

  lemma TakeInBoth(occupied: Word, taken: set<Span>, span: Span)
    requires Represents(occupied, taken)
    ensures Represents(Or(occupied, Mask(span)), taken + {span})
  {
    forall i: nat | i < 64
      ensures Bit(Or(occupied, Mask(span)), i) <==> exists t <- taken + {span} :: Covers(t, i)
    {
      ClaimedAt(span, occupied, i);
      if Covers(span, i) {
        assert span in taken + {span};
      }
    }
  }

  lemma {:induction false} MaskAgreesWithIntervals(occupied: Word, taken: set<Span>, spans: seq<Span>)
    requires Represents(occupied, taken)
    ensures MaskVerdicts(occupied, spans) == ListVerdicts(taken, spans)
    decreases |spans|
  {
    if spans != [] {
      FreeInBoth(occupied, taken, spans[0]);
      if IsAvailable(spans[0], occupied) {
        TakeInBoth(occupied, taken, spans[0]);
        MaskAgreesWithIntervals(Or(occupied, Mask(spans[0])), taken + {spans[0]}, spans[1..]);
      } else {
        MaskAgreesWithIntervals(occupied, taken, spans[1..]);
      }
    }
  }

  /** From an empty mask, any sequence of claims is judged exactly as a list of intervals would. */
  lemma AnyClaimSequence(spans: seq<Span>)
    ensures MaskVerdicts(ZERO, spans) == ListVerdicts({}, spans)
  {
    forall i: nat | i < 64
      ensures Bit(ZERO, i) <==> exists t <- {} :: Covers(t, i)
    {
      ZeroAt(i);
    }
    MaskAgreesWithIntervals(ZERO, {}, spans);
  }
}
