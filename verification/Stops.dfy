/** Resolving an origin and a destination to a span of the route
(crates/lulan-engine/src/inventory/store.rs, pick_span). A route may call at one place twice. */
module Stops {
  import opened Outcomes
  import opened Segments

  datatype Stop = Stop(index: int, code: string, departOffset: int)

  datatype StopError =
    | UnknownStop(code: string)
    | StopsOutOfOrder(origin: string, destination: string)
    | BadSpan(error: SpanError)

  datatype Journey = Journey(span: Span, departOffset: int)

  /** Stable: a stop goes after its equals. */
  function Insert(ordered: seq<Stop>, stop: Stop): seq<Stop> {
    if ordered == [] || ordered[|ordered| - 1].index <= stop.index then ordered + [stop]
    else Insert(ordered[..|ordered| - 1], stop) + [ordered[|ordered| - 1]]
  }

  function Sort(stops: seq<Stop>): seq<Stop> {
    if stops == [] then [] else Insert(Sort(stops[..|stops| - 1]), stops[|stops| - 1])
  }

  /** The first stop called `code`, past `after` when one is given. */
  function Find(ordered: seq<Stop>, code: string, after: Option<int>): Option<Stop>
    decreases |ordered|
  {
    if ordered == [] then None
    else if ordered[0].code == code && (after.None? || ordered[0].index > after.value) then Some(ordered[0])
    else Find(ordered[1..], code, after)
  }

  /** `as u8`. */
  function AsU8(index: int): u8 { index % 256 }

  function PickSpan(stops: seq<Stop>, origin: string, destination: string): Result<Journey, StopError> {
    var ordered := Sort(stops);
    var from := Find(ordered, origin, None);
    if from.None? then Err(UnknownStop(origin))
    else if Find(ordered, destination, None).None? then Err(UnknownStop(destination))
    else
      var to := Find(ordered, destination, Some(from.value.index));
      if to.None? then Err(StopsOutOfOrder(origin, destination))
      else match NewSpan(AsU8(from.value.index), AsU8(to.value.index))
           case Err(error) => Err(BadSpan(error))
           case Ok(span) => Ok(Journey(span, from.value.departOffset))
  }

  // ---- sorting --------------------------------------------------------------------------------------------

  ghost predicate Sorted(stops: seq<Stop>) {
    forall i, j :: 0 <= i < j < |stops| ==> stops[i].index <= stops[j].index
  }

  lemma {:induction false} InsertHas(ordered: seq<Stop>, stop: Stop, s: Stop)
    ensures s in Insert(ordered, stop) <==> s in ordered || s == stop
    decreases |ordered|
  {
    if ordered != [] && ordered[|ordered| - 1].index > stop.index {
      assert ordered == ordered[..|ordered| - 1] + [ordered[|ordered| - 1]];
      InsertHas(ordered[..|ordered| - 1], stop, s);
    }
  }

  lemma {:induction false} InsertSorts(ordered: seq<Stop>, stop: Stop)
    requires Sorted(ordered)
    ensures Sorted(Insert(ordered, stop))
    decreases |ordered|
  {
    if ordered != [] && ordered[|ordered| - 1].index > stop.index {
      var init, last := ordered[..|ordered| - 1], ordered[|ordered| - 1];
      InsertSorts(init, stop);
      forall k | 0 <= k < |Insert(init, stop)|
        ensures Insert(init, stop)[k].index <= last.index
      {
        InsertHas(init, stop, Insert(init, stop)[k]);
      }
    }
  }

  lemma {:induction false} SortSorts(stops: seq<Stop>)
    ensures Sorted(Sort(stops)) && forall s :: s in Sort(stops) <==> s in stops
    decreases |stops|
  {
    if stops != [] {
      var init, last := stops[..|stops| - 1], stops[|stops| - 1];
      SortSorts(init);
      InsertSorts(Sort(init), last);
      assert stops == init + [last];
      forall s
        ensures s in Sort(stops) <==> s in stops
      {
        InsertHas(Sort(init), last, s);
      }
    }
  }

  // ---- the earliest stops -----------------------------------------------------------------------------------

  predicate Matches(stop: Stop, code: string, after: Option<int>) {
    stop.code == code && (after.None? || stop.index > after.value)
  }

  /** `found` is the earliest matching stop of the route, or there is none. */
  ghost predicate Earliest(stops: seq<Stop>, code: string, after: Option<int>, found: Option<Stop>) {
    match found
    case None => forall s <- stops :: !Matches(s, code, after)
    case Some(stop) =>
      && stop in stops && Matches(stop, code, after)
      && forall s <- stops :: Matches(s, code, after) ==> stop.index <= s.index
  }

  lemma {:induction false} FindIsEarliest(ordered: seq<Stop>, code: string, after: Option<int>)
    requires Sorted(ordered)
    ensures Earliest(ordered, code, after, Find(ordered, code, after))
    decreases |ordered|
  {
    if ordered != [] {
      assert ordered == [ordered[0]] + ordered[1..];
      FindIsEarliest(ordered[1..], code, after);
    }
  }

  lemma FindInRoute(stops: seq<Stop>, code: string, after: Option<int>)
    ensures Earliest(stops, code, after, Find(Sort(stops), code, after))
  {
    SortSorts(stops);
    FindIsEarliest(Sort(stops), code, after);
  }

  ghost predicate CallsAt(stops: seq<Stop>, code: string) {
    exists s <- stops :: s.code == code
  }

  /** A call at the destination later than some call at the origin. */
  ghost predicate Reachable(stops: seq<Stop>, origin: string, destination: string) {
    exists a <- stops, b <- stops :: a.code == origin && b.code == destination && a.index < b.index
  }

  /** The earliest call at the origin and the earliest call at the destination after it. */
  ghost predicate Ends(stops: seq<Stop>, origin: string, destination: string, a: Stop, b: Stop) {
    Earliest(stops, origin, None, Some(a)) && Earliest(stops, destination, Some(a.index), Some(b))
  }

  lemma EndsIff(stops: seq<Stop>, origin: string, destination: string) returns (a: Stop, b: Stop)
    ensures Reachable(stops, origin, destination) ==>
              && Ends(stops, origin, destination, a, b)
              && Find(Sort(stops), origin, None) == Some(a)
              && Find(Sort(stops), destination, Some(a.index)) == Some(b)
              && Find(Sort(stops), destination, None).Some?
  {
    a, b := Stop(0, "", 0), Stop(0, "", 0);
    if Reachable(stops, origin, destination) {
      FindInRoute(stops, origin, None);
      FindInRoute(stops, destination, None);
      a := Find(Sort(stops), origin, None).value;
      FindInRoute(stops, destination, Some(a.index));
      b := Find(Sort(stops), destination, Some(a.index)).value;
    }
  }

  /** Each refusal of the search names its cause, and there is none exactly when the destination is
      called at after some call at the origin, loops and out-and-back routes included. */
  lemma SearchRefusesIff(stops: seq<Stop>, origin: string, destination: string)
    ensures PickSpan(stops, origin, destination) == Err(UnknownStop(origin)) <== !CallsAt(stops, origin)
    ensures CallsAt(stops, origin) && !CallsAt(stops, destination) ==>
              PickSpan(stops, origin, destination) == Err(UnknownStop(destination))
    ensures PickSpan(stops, origin, destination) == Err(StopsOutOfOrder(origin, destination)) <==>
            CallsAt(stops, origin) && CallsAt(stops, destination) && !Reachable(stops, origin, destination)
    ensures Reachable(stops, origin, destination) <==>
            PickSpan(stops, origin, destination).Ok? || PickSpan(stops, origin, destination).error.BadSpan?
  {
    FindInRoute(stops, origin, None);
    FindInRoute(stops, destination, None);
    var from := Find(Sort(stops), origin, None);
    if from.Some? {
      FindInRoute(stops, destination, Some(from.value.index));
    }
  }

  /** On any route, whatever its indexes: the answer to a reachable pair is the span of the two ends cut
      to eight bits, or the reason that is none; to any other pair it is a refusal. */
  lemma PickSpanIsEarliest(stops: seq<Stop>, origin: string, destination: string)
    ensures Reachable(stops, origin, destination) ==>
              exists a <- stops, b <- stops ::
                && Ends(stops, origin, destination, a, b)
                && match NewSpan(AsU8(a.index), AsU8(b.index))
                   case Ok(span) => PickSpan(stops, origin, destination) == Ok(Journey(span, a.departOffset))
                   case Err(error) => PickSpan(stops, origin, destination) == Err(BadSpan(error))
    ensures !Reachable(stops, origin, destination) ==>
              PickSpan(stops, origin, destination).Err? && !PickSpan(stops, origin, destination).error.BadSpan?
  {
    var a, b := EndsIff(stops, origin, destination);
    if Reachable(stops, origin, destination) {
      assert a in stops && b in stops;
    } else {
      FindInRoute(stops, origin, None);
      var from := Find(Sort(stops), origin, None);
      if from.Some? {
        FindInRoute(stops, destination, Some(from.value.index));
      }
    }
  }

  predicate EndsFit(a: Stop, b: Stop) {
    AsU8(a.index) < AsU8(b.index) <= MAX_SEGMENTS
  }

  lemma EndsUnique(stops: seq<Stop>, origin: string, destination: string, a: Stop, b: Stop, c: Stop, d: Stop)
    requires Ends(stops, origin, destination, a, b) && Ends(stops, origin, destination, c, d)
    ensures c.index == a.index && d.index == b.index
  {}

  lemma EndsReach(stops: seq<Stop>, origin: string, destination: string, a: Stop, b: Stop)
    requires Ends(stops, origin, destination, a, b)
    ensures a in stops && b in stops && Reachable(stops, origin, destination)
  {}

  lemma FoundEndsIff(stops: seq<Stop>, origin: string, destination: string) returns (a: Stop, b: Stop)
    requires Reachable(stops, origin, destination)
    ensures Ends(stops, origin, destination, a, b)
    ensures PickSpan(stops, origin, destination).Ok? <==> EndsFit(a, b)
  {
    a, b := EndsIff(stops, origin, destination);
  }

  /** A journey is found exactly when the two ends, cut to eight bits, still run forward within 64
      segments. */
  lemma PickSpanIff(stops: seq<Stop>, origin: string, destination: string)
    ensures PickSpan(stops, origin, destination).Ok? <==>
            exists a <- stops, b <- stops :: Ends(stops, origin, destination, a, b) && EndsFit(a, b)
  {
    if Reachable(stops, origin, destination) {
      var a, b := FoundEndsIff(stops, origin, destination);
      EndsReach(stops, origin, destination, a, b);
      forall c, d | c in stops && d in stops && Ends(stops, origin, destination, c, d)
        ensures EndsFit(c, d) <==> EndsFit(a, b)
      {
        EndsUnique(stops, origin, destination, a, b, c, d);
      }
    } else {
      PickSpanIsEarliest(stops, origin, destination);
      forall c, d | c in stops && d in stops
        ensures !Ends(stops, origin, destination, c, d)
      {
        if Ends(stops, origin, destination, c, d) {
          EndsReach(stops, origin, destination, c, d);
        }
      }
    }
  }

  ghost predicate OnRoute(stops: seq<Stop>) {
    forall s <- stops :: 0 <= s.index <= MAX_SEGMENTS
  }

  /** On a route of at most 64 segments that is exactly when the pair is reachable. */
  lemma PickSpanOnRoute(stops: seq<Stop>, origin: string, destination: string)
    requires OnRoute(stops)
    ensures PickSpan(stops, origin, destination).Ok? <==> Reachable(stops, origin, destination)
  {
    if Reachable(stops, origin, destination) {
      var a, b := FoundEndsIff(stops, origin, destination);
      EndsReach(stops, origin, destination, a, b);
    } else {
      PickSpanIsEarliest(stops, origin, destination);
    }
  }
}
