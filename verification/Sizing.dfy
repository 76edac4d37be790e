/**
  How an execution sizes each order, and what all its orders together may fill.
  Prices and sizes are exact reals; the one deliberate tolerance, 1e-9 of a lot
  when rounding down, is kept.
*/
module Sizing {
  import opened ClientOid
  import opened Common

  const MIN_ORDER_BASE: real := 0.01
  const LOT_EPSILON: real := 0.000000001
  /** The most a rounded size can exceed the size asked for. */
  const SLACK: real := MIN_ORDER_BASE * LOT_EPSILON

  datatype Market = Market(bestBid: real, bestAsk: real)

  function ReferencePrice(mode: OrderMode, side: OrderSide, market: Market): real {
    if (mode.Maker? && side.Buy?) || (mode.Taker? && side.Sell?) then market.bestBid
    else market.bestAsk
  }

  function RemainingBase(target: real, filled: real): real {
    if target - filled > 0.0 then target - filled else 0.0
  }

  predicate RemainingIsDust(target: real, filled: real) {
    filled > 0.0 &&
    var remaining := RemainingBase(target, filled);
    remaining <= DUST_BASE || remaining < MIN_ORDER_BASE
  }

  function RoundDownToStep(value: real, step: real): real {
    if step <= 0.0 then value else (value / step + LOT_EPSILON).Floor as real * step
  }

  /** What one intent is to reach: a base size, and for opens the price it was derived at. */
  datatype Plan = Plan(isClose: bool, target: real, makerRef: real)

  predicate Priced(plan: Plan, refPrice: real) {
    plan.isClose || refPrice > 0.0
  }

  /** Base that `remaining` comes to at this order's own price: opens carry the notional over. */
  function AskedBase(plan: Plan, remaining: real, refPrice: real): real
    requires Priced(plan, refPrice)
  {
    if plan.isClose then remaining else remaining * plan.makerRef / refPrice
  }

  /** Size of the next order once `filled` is already done. */
  function PlacedSize(plan: Plan, filled: real, refPrice: real): real
    requires Priced(plan, refPrice)
  {
    RoundDownToStep(AskedBase(plan, RemainingBase(plan.target, filled), refPrice), MIN_ORDER_BASE)
  }

  /** One accepted order of an execution and the base it has filled. */
  datatype Leg = Leg(size: real, refPrice: real, filled: real)

  function Base(legs: seq<Leg>): real {
    if legs == [] then 0.0 else Base(legs[..|legs| - 1]) + legs[|legs| - 1].filled
  }

  /** What a leg's fill is worth at the price it was sized with. */
  function Worth(leg: Leg): real {
    leg.filled * leg.refPrice
  }

  function Notional(legs: seq<Leg>): real {
    if legs == [] then 0.0 else Notional(legs[..|legs| - 1]) + Worth(legs[|legs| - 1])
  }

  /** Every leg was sized from exactly what the legs before it filled, and none on a dust remainder. */
  predicate Sized(plan: Plan, legs: seq<Leg>) {
    legs != [] ==>
      var before, leg := legs[..|legs| - 1], legs[|legs| - 1];
      && Sized(plan, before)
      && Priced(plan, leg.refPrice)
      && !RemainingIsDust(plan.target, Base(before))
      && leg.size == PlacedSize(plan, Base(before), leg.refPrice)
      && 0.0 <= leg.filled <= leg.size
  }

  /** The plan of an intent the executor agreed to size. */
  predicate Sound(plan: Plan) {
    plan.target > 0.0 && (plan.isClose || plan.makerRef > 0.0)
  }

  /** A maker never reaches the opposite quote and a taker always does, each at a quote of the market. */
  lemma MakersRestTakersCross(market: Market, mode: OrderMode, side: OrderSide)
    requires market.bestBid < market.bestAsk
    ensures var price := ReferencePrice(mode, side, market);
            && price in {market.bestBid, market.bestAsk}
            && (side.Buy? ==> (price < market.bestAsk <==> mode.Maker?))
            && (side.Sell? ==> (price > market.bestBid <==> mode.Maker?))
  {
  }

  /** Nothing more is ordered exactly when something filled and less than the smallest order is missing. */
  lemma DustExactly(target: real, filled: real)
    ensures RemainingIsDust(target, filled) <==> filled > 0.0 && filled > target - MIN_ORDER_BASE
  {
  }

  // ----- rounding

  /** A product, by name: hidden, it keeps a linear argument about products linear. */
  function Times(a: real, b: real): real {
    a * b
  }

  lemma RoundDownBounds(value: real, step: real)
    requires step > 0.0
    ensures RoundDownToStep(value, step) <= value + step * LOT_EPSILON
    ensures value + step * LOT_EPSILON - step < RoundDownToStep(value, step)
  {
    hide Times;
    var lots := value / step + LOT_EPSILON;
    LotsTimesStep(value, step);
    WholeLotsBelow(lots, step);
    AsRounded(value, step);
  }

  lemma AsRounded(value: real, step: real)
    requires step > 0.0
    ensures RoundDownToStep(value, step) == Times((value / step + LOT_EPSILON).Floor as real, step)
    ensures step * LOT_EPSILON == Times(LOT_EPSILON, step)
  {
  }

  lemma LotsTimesStep(value: real, step: real)
    requires step > 0.0
    ensures Times(value / step + LOT_EPSILON, step) == value + Times(LOT_EPSILON, step)
  {
    DivideThenMultiply(value, step);
    Distribute(value / step, LOT_EPSILON, step);
  }

  lemma WholeLotsBelow(lots: real, step: real)
    requires step > 0.0
    ensures Times(lots.Floor as real, step) <= Times(lots, step) < Times(lots.Floor as real, step) + step
  {
    hide Times;
    var whole := lots.Floor as real;
    TimesGrows(whole, lots, step);
    TimesGrows(lots, whole + 1.0, step);
    OneLotMore(whole, step);
  }

  lemma TimesGrows(a: real, b: real, c: real)
    requires c > 0.0
    ensures a <= b ==> Times(a, c) <= Times(b, c)
    ensures a < b ==> Times(a, c) < Times(b, c)
  {
    MulLess(a, b, c);
  }

  lemma OneLotMore(whole: real, step: real)
    ensures Times(whole + 1.0, step) == Times(whole, step) + step
  {
    Distribute(whole, 1.0, step);
  }

  /** A clean number of lots survives rounding: no lot is lost at a boundary. */
  lemma WholeLotsSurvive(lots: int, step: real)
    requires step > 0.0
    ensures RoundDownToStep(lots as real * step, step) == lots as real * step
  {
    assert lots as real * step / step == lots as real;
    assert (lots as real + LOT_EPSILON).Floor == lots;
  }

  lemma MulLess(a: real, b: real, c: real)
    requires c > 0.0
    ensures a <= b ==> a * c <= b * c
    ensures a < b ==> a * c < b * c
  {
    if a < b {
      assert (b - a) * c > 0.0;
    }
  }

  lemma MulGe(a: real, b: real, c: real)
    requires a <= b && c >= 0.0
    ensures a * c <= b * c
  {
    if c > 0.0 {
      MulLess(a, b, c);
    }
  }

  // ----- what all the orders of one intent may fill

  lemma {:induction false} BaseNonNegative(plan: Plan, legs: seq<Leg>)
    requires Sized(plan, legs)
    ensures Base(legs) >= 0.0
  {
    if legs != [] {
      BaseNonNegative(plan, legs[..|legs| - 1]);
    }
  }

  /** Before any leg is placed there is room left, so earlier fills are at most the target. */
  lemma RoomBeforeLeg(plan: Plan, legs: seq<Leg>)
    requires Sound(plan) && Sized(plan, legs) && legs != []
    ensures 0.0 <= Base(legs[..|legs| - 1]) <= plan.target
    ensures RemainingBase(plan.target, Base(legs[..|legs| - 1])) == plan.target - Base(legs[..|legs| - 1])
  {
    BaseNonNegative(plan, legs[..|legs| - 1]);
  }

  /** Close intents fill at most the position plus one rounding slack, however many attempts there were. */
  lemma CloseNeverOverfills(plan: Plan, legs: seq<Leg>)
    requires plan.isClose && Sound(plan) && Sized(plan, legs)
    ensures Base(legs) <= plan.target + SLACK
  {
    if legs != [] {
      RoomBeforeLeg(plan, legs);
      PlacedBounds(plan, Base(legs[..|legs| - 1]), legs[|legs| - 1].refPrice);
    }
  }

  /** A close whose last order filled whole is within one lot of its target. */
  lemma FullLastLegReachesTarget(plan: Plan, legs: seq<Leg>)
    requires plan.isClose && Sound(plan) && Sized(plan, legs) && legs != []
    requires legs[|legs| - 1].filled == legs[|legs| - 1].size
    ensures Base(legs) > plan.target - MIN_ORDER_BASE
  {
    RoomBeforeLeg(plan, legs);
    PlacedBounds(plan, Base(legs[..|legs| - 1]), legs[|legs| - 1].refPrice);
  }

  lemma DivideThenMultiply(x: real, d: real)
    requires d > 0.0
    ensures x / d * d == x
  {
  }

  lemma AskedTimesPrice(plan: Plan, remaining: real, refPrice: real)
    requires !plan.isClose && refPrice > 0.0
    ensures AskedBase(plan, remaining, refPrice) * refPrice == remaining * plan.makerRef
  {
    DivideThenMultiply(remaining * plan.makerRef, refPrice);
  }

  lemma PlacedBounds(plan: Plan, filled: real, refPrice: real)
    requires Priced(plan, refPrice)
    ensures var asked := AskedBase(plan, RemainingBase(plan.target, filled), refPrice);
            asked + SLACK - MIN_ORDER_BASE < PlacedSize(plan, filled, refPrice) <= asked + SLACK
  {
    hide AskedBase, RoundDownToStep;
    RoundDownBounds(AskedBase(plan, RemainingBase(plan.target, filled), refPrice), MIN_ORDER_BASE);
  }

  lemma PlacedAtMost(plan: Plan, filled: real, refPrice: real, most: real)
    requires !plan.isClose && refPrice > 0.0
    requires RemainingBase(plan.target, filled) * plan.makerRef <= most * refPrice
    ensures PlacedSize(plan, filled, refPrice) <= most + SLACK
  {
    hide AskedBase, PlacedSize;
    AskedTimesPrice(plan, RemainingBase(plan.target, filled), refPrice);
    MulLess(most, AskedBase(plan, RemainingBase(plan.target, filled), refPrice), refPrice);
    PlacedBounds(plan, filled, refPrice);
  }

  lemma PlacedAtLeast(plan: Plan, filled: real, refPrice: real, least: real)
    requires !plan.isClose && refPrice > 0.0
    requires least * refPrice <= RemainingBase(plan.target, filled) * plan.makerRef
    ensures PlacedSize(plan, filled, refPrice) > least + SLACK - MIN_ORDER_BASE
  {
    hide AskedBase, PlacedSize;
    AskedTimesPrice(plan, RemainingBase(plan.target, filled), refPrice);
    MulLess(AskedBase(plan, RemainingBase(plan.target, filled), refPrice), least, refPrice);
    PlacedBounds(plan, filled, refPrice);
  }

  lemma LegWorth(plan: Plan, legs: seq<Leg>)
    requires !plan.isClose && Sound(plan) && Sized(plan, legs) && legs != []
    ensures WorthWithin(plan, Base(legs[..|legs| - 1]), legs[|legs| - 1])
  {
    hide PlacedSize, WorthWithin;
    RoomBeforeLeg(plan, legs);
    SizeWithin(plan, Base(legs[..|legs| - 1]), legs[|legs| - 1]);
  }

  lemma SizeWithin(plan: Plan, before: real, leg: Leg)
    requires !plan.isClose && leg.refPrice > 0.0
    requires RemainingBase(plan.target, before) == plan.target - before
    requires leg.filled <= PlacedSize(plan, before, leg.refPrice)
    ensures WorthWithin(plan, before, leg)
  {
    hide AskedBase, PlacedSize;
    var asked := AskedBase(plan, plan.target - before, leg.refPrice);
    AskedTimesPrice(plan, plan.target - before, leg.refPrice);
    PlacedBounds(plan, before, leg.refPrice);
    MulGe(leg.filled, asked + SLACK, leg.refPrice);
    Distribute(asked, SLACK, leg.refPrice);
  }

  /** The part of `Sized` the bounds need: each leg fitted the room its predecessors left. */
  predicate WithinRemaining(plan: Plan, legs: seq<Leg>) {
    legs != [] ==>
      var before, leg := legs[..|legs| - 1], legs[|legs| - 1];
      && WithinRemaining(plan, before)
      && 0.0 <= Base(before) <= plan.target
      && 0.0 <= leg.filled
      && WorthWithin(plan, Base(before), leg)
  }

  /** A leg is worth, at its own reference price, at most what was left of the approved notional. */
  predicate WorthWithin(plan: Plan, before: real, leg: Leg) {
    Worth(leg) <= (plan.target - before) * plan.makerRef + SLACK * leg.refPrice
  }

  lemma {:induction false} StaysWithinRemaining(plan: Plan, legs: seq<Leg>)
    requires !plan.isClose && Sound(plan) && Sized(plan, legs)
    ensures WithinRemaining(plan, legs)
  {
    if legs != [] {
      StaysWithinRemaining(plan, legs[..|legs| - 1]);
      RoomBeforeLeg(plan, legs);
      LegWorth(plan, legs);
    }
  }

  lemma BaseFromWorth(plan: Plan, before: real, leg: Leg, lo: real)
    requires 0.0 < lo <= plan.makerRef && lo <= leg.refPrice
    requires 0.0 <= before <= plan.target
    requires WorthWithin(plan, before, leg)
    ensures (before + leg.filled - SLACK) * lo <= plan.target * plan.makerRef
  {
    var target, makerRef, price := plan.target, plan.makerRef, leg.refPrice;
    var rest, over := (target - before) * makerRef, leg.filled - SLACK;
    MulGe(0.0, target - before, makerRef);
    assert over * price == leg.filled * price - SLACK * price;
    if over >= 0.0 {
      MulGe(lo, price, over);
    } else {
      MulGe(over, 0.0, lo);
    }
    assert over * lo <= rest;
    MulGe(lo, makerRef, before);
    assert (before + over) * lo == before * lo + over * lo;
    assert before * makerRef + rest == target * makerRef;
  }

  lemma BaseBoundWithinRemaining(plan: Plan, legs: seq<Leg>, lo: real)
    requires plan.target > 0.0 && WithinRemaining(plan, legs)
    requires 0.0 < lo <= plan.makerRef
    requires forall i :: 0 <= i < |legs| ==> lo <= legs[i].refPrice
    ensures (Base(legs) - SLACK) * lo <= plan.target * plan.makerRef
  {
    hide WorthWithin;
    if legs == [] {
      MulGe(0.0, plan.target, plan.makerRef);
      MulGe(0.0, SLACK, lo);
    } else {
      BaseFromWorth(plan, Base(legs[..|legs| - 1]), legs[|legs| - 1], lo);
    }
  }

  /** If no attempt was priced below `lo`, the base filled is at most approved/lo plus one slack. */
  lemma OpenBaseBound(plan: Plan, legs: seq<Leg>, lo: real)
    requires !plan.isClose && Sound(plan) && Sized(plan, legs)
    requires 0.0 < lo <= plan.makerRef
    requires forall i :: 0 <= i < |legs| ==> lo <= legs[i].refPrice
    ensures (Base(legs) - SLACK) * lo <= plan.target * plan.makerRef
  {
    StaysWithinRemaining(plan, legs);
    BaseBoundWithinRemaining(plan, legs, lo);
  }

  lemma {:induction false} NotionalAtMost(plan: Plan, legs: seq<Leg>, hi: real)
    requires WithinRemaining(plan, legs)
    requires forall i :: 0 <= i < |legs| ==> legs[i].refPrice <= hi
    ensures Notional(legs) <= Base(legs) * hi
  {
    hide WorthWithin;
    if legs != [] {
      var leg := legs[|legs| - 1];
      NotionalAtMost(plan, legs[..|legs| - 1], hi);
      MulGe(leg.refPrice, hi, leg.filled);
      Distribute(Base(legs[..|legs| - 1]), leg.filled, hi);
    }
  }

  lemma Distribute(a: real, b: real, c: real)
    ensures (a + b) * c == a * c + b * c
  {
  }

  lemma NotionalFromWorth(plan: Plan, worthBefore: real, before: real, leg: Leg, hi: real)
    requires plan.makerRef <= hi && leg.refPrice <= hi && 0.0 <= before <= plan.target
    requires worthBefore <= before * hi
    requires WorthWithin(plan, before, leg)
    ensures worthBefore + Worth(leg) <= (plan.target + SLACK) * hi
  {
    var target := plan.target;
    MulGe(plan.makerRef, hi, target - before);
    MulGe(leg.refPrice, hi, SLACK);
    Distribute(before, target - before, hi);
    Distribute(target, SLACK, hi);
  }

  /** If no attempt was priced above `hi`, the notional filled is at most the target valued at `hi` plus one slack. */
  lemma OpenNotionalBound(plan: Plan, legs: seq<Leg>, hi: real)
    requires !plan.isClose && Sound(plan) && Sized(plan, legs)
    requires plan.makerRef <= hi
    requires forall i :: 0 <= i < |legs| ==> legs[i].refPrice <= hi
    ensures Notional(legs) <= (plan.target + SLACK) * hi
  {
    StaysWithinRemaining(plan, legs);
    NotionalBoundWithinRemaining(plan, legs, hi);
  }

  lemma NotionalBoundWithinRemaining(plan: Plan, legs: seq<Leg>, hi: real)
    requires plan.target > 0.0 && 0.0 < plan.makerRef <= hi && WithinRemaining(plan, legs)
    requires forall i :: 0 <= i < |legs| ==> legs[i].refPrice <= hi
    ensures Notional(legs) <= (plan.target + SLACK) * hi
  {
    hide WorthWithin, Worth;
    if legs == [] {
      MulGe(0.0, plan.target + SLACK, hi);
    } else {
      var leg, before := legs[|legs| - 1], legs[..|legs| - 1];
      NotionalAtMost(plan, before, hi);
      NotionalFromWorth(plan, Notional(before), Base(before), leg, hi);
    }
  }

  // ----- when maker and taker sum to the target

  /**
    An execution of an open with at least two orders: the first priced where the
    target was taken, the last at a refreshed price.
  */
  predicate Refreshed(makerRef: real, refPrice: real, target: real, legs: seq<Leg>) {
    var plan := Plan(false, target, makerRef);
    && Sound(plan) && Sized(plan, legs) && |legs| >= 2
    && legs[0].refPrice == makerRef && legs[|legs| - 1].refPrice == refPrice
  }

  /** The last order filled whole, so nothing is left to place. */
  predicate FilledWhole(legs: seq<Leg>)
    requires legs != []
  {
    legs[|legs| - 1].filled == legs[|legs| - 1].size
  }

  predicate StaysWithin(makerRef: real, refPrice: real, target: real, legs: seq<Leg>) {
    Refreshed(makerRef, refPrice, target, legs) ==> Base(legs) <= target + SLACK
  }

  predicate Reaches(makerRef: real, refPrice: real, target: real, legs: seq<Leg>) {
    Refreshed(makerRef, refPrice, target, legs) && FilledWhole(legs) ==> Base(legs) > target - MIN_ORDER_BASE
  }

  /**
    Over all executions of an open, whatever its target and its fills: none passes
    the target exactly when the refreshed price has not dropped, none that filled
    whole stops a lot short exactly when it has not risen. So all the orders of an
    open sum to the target, to the lot, exactly when the price is still the same.
  */
  lemma SumsToTargetIffPriceSame(makerRef: real, refPrice: real)
    requires makerRef > 0.0 && refPrice > 0.0
    ensures (forall target, legs :: StaysWithin(makerRef, refPrice, target, legs)) <==> refPrice >= makerRef
    ensures (forall target, legs :: Reaches(makerRef, refPrice, target, legs)) <==> refPrice <= makerRef
    ensures (forall target, legs :: StaysWithin(makerRef, refPrice, target, legs)
                                    && Reaches(makerRef, refPrice, target, legs)) <==> refPrice == makerRef
  {
    hide StaysWithin, Reaches;
    if refPrice >= makerRef {
      forall target, legs ensures StaysWithin(makerRef, refPrice, target, legs) {
        HeldPriceStaysWithin(makerRef, refPrice, target, legs);
      }
    } else {
      var target, legs := DroppedPricePasses(makerRef, refPrice);
    }
    if refPrice <= makerRef {
      forall target, legs ensures Reaches(makerRef, refPrice, target, legs) {
        HeldPriceReaches(makerRef, refPrice, target, legs);
      }
    } else {
      var target, legs := RisenPriceStopsShort(makerRef, refPrice);
    }
  }

  lemma HeldPriceStaysWithin(makerRef: real, refPrice: real, target: real, legs: seq<Leg>)
    requires 0.0 < makerRef <= refPrice
    ensures StaysWithin(makerRef, refPrice, target, legs)
  {
    hide PlacedSize;
    if Refreshed(makerRef, refPrice, target, legs) {
      var plan := Plan(false, target, makerRef);
      RoomBeforeLeg(plan, legs);
      var left := target - Base(legs[..|legs| - 1]);
      MulGe(makerRef, refPrice, left);
      PlacedAtMost(plan, Base(legs[..|legs| - 1]), refPrice, left);
    }
  }

  lemma HeldPriceReaches(makerRef: real, refPrice: real, target: real, legs: seq<Leg>)
    requires 0.0 < refPrice <= makerRef
    ensures Reaches(makerRef, refPrice, target, legs)
  {
    hide PlacedSize;
    if Refreshed(makerRef, refPrice, target, legs) && FilledWhole(legs) {
      var plan := Plan(false, target, makerRef);
      RoomBeforeLeg(plan, legs);
      var left := target - Base(legs[..|legs| - 1]);
      MulGe(refPrice, makerRef, left);
      PlacedAtLeast(plan, Base(legs[..|legs| - 1]), refPrice, left);
    }
  }

  /** The first order fills nothing and is cancelled; the second fills whole at the refreshed price. */
  function MakerThenTaker(makerRef: real, refPrice: real, target: real): seq<Leg>
    requires makerRef > 0.0 && refPrice > 0.0
  {
    var plan := Plan(false, target, makerRef);
    var taken := PlacedSize(plan, 0.0, refPrice);
    [Leg(PlacedSize(plan, 0.0, makerRef), makerRef, 0.0), Leg(taken, refPrice, taken)]
  }

  lemma MakerThenTakerRuns(makerRef: real, refPrice: real, target: real)
    requires makerRef > 0.0 && refPrice > 0.0 && target > 0.0
    ensures var legs := MakerThenTaker(makerRef, refPrice, target);
            && Refreshed(makerRef, refPrice, target, legs) && FilledWhole(legs)
            && Base(legs) == PlacedSize(Plan(false, target, makerRef), 0.0, refPrice)
  {
    hide PlacedSize;
    var plan, legs := Plan(false, target, makerRef), MakerThenTaker(makerRef, refPrice, target);
    PlacedNonNegative(plan, 0.0, makerRef);
    PlacedNonNegative(plan, 0.0, refPrice);
    var first := legs[..1];
    assert first == [legs[0]] && first[..0] == [];
    assert Base(first[..0]) == 0.0 && Sized(plan, first[..0]);
    assert Base(first) == 0.0 && Sized(plan, first);
  }

  lemma PlacedNonNegative(plan: Plan, filled: real, refPrice: real)
    requires !plan.isClose && plan.makerRef > 0.0 && refPrice > 0.0
    ensures PlacedSize(plan, filled, refPrice) >= 0.0
  {
    hide AskedBase, RoundDownToStep;
    var remaining := RemainingBase(plan.target, filled);
    MulGe(0.0, remaining, plan.makerRef);
    AskedTimesPrice(plan, remaining, refPrice);
    PositiveFactor(AskedBase(plan, remaining, refPrice), refPrice);
    RoundDownNonNegative(AskedBase(plan, remaining, refPrice), MIN_ORDER_BASE);
  }

  lemma PositiveFactor(q: real, d: real)
    requires d > 0.0
    ensures q * d >= 0.0 ==> q >= 0.0
    ensures q * d > 0.0 ==> q > 0.0
  {
    MulLess(q, 0.0, d);
  }

  lemma RoundDownNonNegative(value: real, step: real)
    requires value >= 0.0 && step > 0.0
    ensures RoundDownToStep(value, step) >= 0.0
  {
    DivideThenMultiply(value, step);
    PositiveFactor(value / step, step);
    assert (value / step + LOT_EPSILON).Floor >= 0;
    MulGe(0.0, (value / step + LOT_EPSILON).Floor as real, step);
  }

  /** Once the price drops there is a target its execution passes. */
  lemma DroppedPricePasses(makerRef: real, refPrice: real) returns (target: real, legs: seq<Leg>)
    requires 0.0 < refPrice < makerRef
    ensures !StaysWithin(makerRef, refPrice, target, legs)
  {
    hide PlacedSize;
    target := TargetOneMore(makerRef, refPrice);
    var plan := Plan(false, target, makerRef);
    assert RemainingBase(target, 0.0) == target;
    PlacedAtLeast(plan, 0.0, refPrice, target + 1.0);
    MakerThenTakerRuns(makerRef, refPrice, target);
    legs := MakerThenTaker(makerRef, refPrice, target);
  }

  /** Once the price rises there is a target its execution stops short of, though every order left filled whole. */
  lemma RisenPriceStopsShort(makerRef: real, refPrice: real) returns (target: real, legs: seq<Leg>)
    requires 0.0 < makerRef < refPrice
    ensures !Reaches(makerRef, refPrice, target, legs)
  {
    hide PlacedSize;
    target := TargetOneLess(makerRef, refPrice);
    var plan := Plan(false, target, makerRef);
    assert RemainingBase(target, 0.0) == target;
    PlacedAtMost(plan, 0.0, refPrice, target - 1.0);
    MakerThenTakerRuns(makerRef, refPrice, target);
    legs := MakerThenTaker(makerRef, refPrice, target);
  }

  /** At this target the dropped price turns the same notional into at least one base unit more. */
  lemma TargetOneMore(makerRef: real, refPrice: real) returns (target: real)
    requires 0.0 < refPrice < makerRef
    ensures target > 0.0 && (target + 1.0) * refPrice <= target * makerRef
  {
    target := Enough(makerRef - refPrice, refPrice);
    Distribute(target, 1.0, refPrice);
    Distribute(refPrice, makerRef - refPrice, target);
  }

  /** At this target the risen price turns the same notional into at least one base unit less. */
  lemma TargetOneLess(makerRef: real, refPrice: real) returns (target: real)
    requires 0.0 < makerRef < refPrice
    ensures target > 0.0 && target * makerRef <= (target - 1.0) * refPrice
  {
    target := Enough(refPrice - makerRef, refPrice);
    Distribute(target - 1.0, 1.0, refPrice);
    Distribute(makerRef, refPrice - makerRef, target);
  }

  /** So much base that a price gap on it is worth one base unit. */
  lemma Enough(gap: real, price: real) returns (target: real)
    requires gap > 0.0 && price > 0.0
    ensures target > 0.0 && target * gap == price
  {
    target := price / gap;
    DivideThenMultiply(price, gap);
    PositiveFactor(target, gap);
  }
}
