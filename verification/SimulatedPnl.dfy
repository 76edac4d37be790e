/**
  What a simulated trade earns, in money and in prices: every row of a run is
  worth its sale less its purchase, and the exit rules are levels of the price.
*/
module SimulatedPnl {
  import opened Common
  import opened LotBook
  import opened Simulator
  import opened LotLifetimes
  import S = ScoreBook

  // ----- what a row says

  /** The lot bought or sold its notional at the bar's close, moved against it by the slippage. */
  predicate Entered(s: Inputs, e: Entry) {
    e.ticket.bar < |s.bars| &&
    var close := s.bars[e.ticket.bar].close;
    && e.time == s.bars[e.ticket.bar].time
    && e.price == (if e.ticket.lot.side.Long? then close + close * s.p.slippage else close - close * s.p.slippage)
    && e.price > 0.0 && e.qty > 0.0
    && e.qty * e.price == e.ticket.lot.notional
    && e.fee == e.ticket.lot.notional * NetFee(s.p)
  }

  /** What the quantity is worth at the exit price. */
  function ExitWorth(t: Trade): real {
    t.lot.entry.qty * t.exitPrice
  }

  /** Funding rates times the notional: a long pays them, a short is paid them. */
  function FundingPaid(s: Inputs, t: Trade): real
    requires t.exitBar < |s.bars|
  {
    var due := FundingBetween(s.funding, t.lot.entry.time, s.bars[t.exitBar].time) * t.lot.entry.ticket.lot.notional;
    if SideOf(t.lot).Long? then due else -due
  }

  /** A long earns its sale less its notional, a short its notional less the buy-back, both less fees and funding. */
  predicate Earned(s: Inputs, t: Trade) {
    && t.exitBar < |s.bars| && Entered(s, t.lot.entry)
    && var close, notional := s.bars[t.exitBar].close, t.lot.entry.ticket.lot.notional;
       && t.exitPrice == (if SideOf(t.lot).Long? then close - close * s.p.slippage else close + close * s.p.slippage)
       && t.exitFee == ExitWorth(t) * NetFee(s.p)
       && t.fundingCost == FundingPaid(s, t)
       && t.pnl == (if SideOf(t.lot).Long? then ExitWorth(t) - notional else notional - ExitWorth(t))
                   - t.lot.entry.fee - t.exitFee - t.fundingCost
  }

  // ----- one lot

  lemma OpeningEnters(s: Inputs, e: Event, i: nat)
    requires i < |s.bars| && e.isOpen && e.notional > 0.0
    ensures Entered(s, OpenLot(s, e, i).entry)
  {
    hide NetFee;
    var close := s.bars[i].close;
    FillPricePositive(close, e.side.Long?, s.p.slippage);
    FillAround(close, s.p.slippage);
    Divided(e.notional, FillPrice(close, e.side.Long?, s.p.slippage));
  }

  lemma FillAround(close: real, slippage: real)
    ensures FillPrice(close, true, slippage) == close + close * slippage
    ensures FillPrice(close, false, slippage) == close - close * slippage
  {
  }

  lemma Divided(x: real, y: real)
    requires x > 0.0 && y > 0.0
    ensures x / y > 0.0 && x / y * y == x
  {
  }

  lemma ClosingEarns(s: Inputs, lot: SimLot, i: nat, reason: Reason)
    requires i < |s.bars| && Entered(s, lot.entry)
    ensures Earned(s, CloseLot(s, lot, i, reason))
  {
    hide NetFee, FundingBetween, FillPrice;
    var close := s.bars[i].close;
    FillAround(close, s.p.slippage);
    Gross(FillPrice(close, SideOf(lot).Short?, s.p.slippage), lot.entry.price, lot.entry.qty,
          FundingBetween(s.funding, lot.entry.time, s.bars[i].time), lot.entry.ticket.lot.notional);
  }

  /** The signed price move times the quantity, and the signed funding, spelled out per side. */
  lemma Gross(exit: real, entry: real, qty: real, rates: real, notional: real)
    ensures (exit - entry) * qty * 1.0 == qty * exit - qty * entry
    ensures (exit - entry) * qty * -1.0 == qty * entry - qty * exit
    ensures 1.0 * rates * notional == rates * notional && -1.0 * rates * notional == -(rates * notional)
  {
    assert (exit - entry) * qty == qty * exit - qty * entry;
  }

  // ----- the whole run

  predicate AllEntered(s: Inputs, lots: seq<SimLot>) {
    forall k :: 0 <= k < |lots| ==> Entered(s, lots[k].entry)
  }

  predicate AllEarned(s: Inputs, trades: seq<Trade>) {
    forall k :: 0 <= k < |trades| ==> Earned(s, trades[k])
  }

  lemma EvaluationEarns(s: Inputs, lot: SimLot, i: nat)
    requires i < |s.bars| && Entered(s, lot.entry)
    ensures match EvaluateExits(s, lot, i)
            case Stay(after) => after.entry == lot.entry
            case Exit(trade) => Earned(s, trade)
  {
    hide CloseLot, StopLossHit, Confirmed, MaxHolding, Extension, Earned, Entered, TrailHit, Arm, Trail;
    ClosingEarns(s, lot, i, StopLoss);
    OnlyTheTrailChanges(s, lot, i);
    var trailed := Trail(s, Arm(s, lot, i), i);
    ClosingEarns(s, trailed, i, Trailing);
    ClosingEarns(s, trailed, i, Holding);
  }

  lemma SignalEarns(s: Inputs, w: Walk, i: nat, k: nat)
    requires i < |s.bars| && k < |s.signals[i]| && AllEntered(s, w.open) && AllEarned(s, w.trades)
    ensures var v := HandleSignal(s, w, s.signals[i][k], i); AllEntered(s, v.open) && AllEarned(s, v.trades)
  {
    hide Entered, Earned, OpenLot, CloseLot, Find, Without;
    var e := s.signals[i][k];
    if e.isOpen {
      OpeningEnters(s, e, i);
    } else {
      FoundAmong(w.open, e.lotId);
      var v := HandleSignal(s, w, e, i);
      forall j | 0 <= j < |v.open| ensures Entered(s, v.open[j].entry) {
        assert v.open[j] in w.open;
      }
      if Find(w.open, e.lotId).Some? {
        ClosingEarns(s, Find(w.open, e.lotId).value, i, OppositeSignal);
      }
    }
  }

  lemma {:induction false} SignalsEarn(s: Inputs, w: Walk, i: nat, k: nat)
    requires i < |s.bars| && k <= |s.signals[i]| && AllEntered(s, w.open) && AllEarned(s, w.trades)
    ensures var v := HandleSignals(s, w, i, k); AllEntered(s, v.open) && AllEarned(s, v.trades)
  {
    hide AllEntered, AllEarned, HandleSignal;
    if k > 0 {
      SignalsEarn(s, w, i, k - 1);
      SignalEarns(s, HandleSignals(s, w, i, k - 1), i, k - 1);
    }
  }

  lemma {:induction false} ExitsEarn(s: Inputs, lots: seq<SimLot>, i: nat)
    requires i < |s.bars| && AllEntered(s, lots)
    ensures AllEntered(s, Survivors(s, lots, i)) && AllEarned(s, Exits(s, lots, i))
  {
    hide Entered, Earned, EvaluateExits;
    if lots != [] {
      ExitsEarn(s, lots[..|lots| - 1], i);
      EvaluationEarns(s, lots[|lots| - 1], i);
    }
  }

  lemma {:induction false} AlwaysEarned(s: Inputs, n: nat)
    requires n <= |s.bars|
    ensures AllEntered(s, After(s, n).open) && AllEarned(s, After(s, n).trades)
  {
    hide Entered, Earned, HandleSignals, Exits, Survivors;
    if n > 0 {
      AlwaysEarned(s, n - 1);
      var w, i := After(s, n - 1), n - 1;
      SignalsEarn(s, w, i, |s.signals[i]|);
      ExitsEarn(s, HandleSignals(s, w, i, |s.signals[i]|).open, i);
    }
  }

  lemma {:induction false} ForcedEarn(s: Inputs, lots: seq<SimLot>)
    requires |s.bars| > 0 && AllEntered(s, lots)
    ensures AllEarned(s, Forced(s, lots))
  {
    hide Entered, Earned, CloseLot;
    if lots != [] {
      ForcedEarn(s, lots[..|lots| - 1]);
      ClosingEarns(s, lots[|lots| - 1], |s.bars| - 1, EndOfData);
    }
  }

  /** Every trade row of a run, forced closes included, earned its sale less its purchase, fees and funding. */
  lemma EveryTradeEarnsItsMove(s: Inputs)
    ensures AllEarned(s, Finish(s).trades)
  {
    hide Entered, Earned, BarStep, Forced;
    AlwaysEarned(s, |s.bars|);
    if |s.bars| > 0 {
      ForcedEarn(s, After(s, |s.bars|).open);
    }
  }

  // ----- what that means

  /** Without fees and funding a trade wins exactly when the price moved its way. */
  lemma WinsExactlyWhenPriceMoves(s: Inputs, k: nat)
    requires k < |Finish(s).trades| && NetFee(s.p) == 0.0 && Finish(s).trades[k].fundingCost == 0.0
    ensures var t := Finish(s).trades[k];
            && (SideOf(t.lot).Long? ==> (t.pnl > 0.0 <==> t.exitPrice > t.lot.entry.price))
            && (SideOf(t.lot).Short? ==> (t.pnl > 0.0 <==> t.exitPrice < t.lot.entry.price))
  {
    hide Finish, NetFee, Earned;
    EveryTradeEarnsItsMove(s);
    var t := Finish(s).trades[k];
    assert Earned(s, t);
    PnlWithoutFees(s, t);
    WorthGrows(t.lot.entry.qty, t.exitPrice, t.lot.entry.price);
  }

  lemma PnlWithoutFees(s: Inputs, t: Trade)
    requires Earned(s, t) && NetFee(s.p) == 0.0
    ensures var e, worth := t.lot.entry, ExitWorth(t);
            && e.qty > 0.0
            && t.pnl == (if SideOf(t.lot).Long? then worth - e.qty * e.price else e.qty * e.price - worth)
                        - t.fundingCost
  {
    hide NetFee, FundingPaid, ExitWorth;
    NothingOf(ExitWorth(t), NetFee(s.p));
    NothingOf(t.lot.entry.ticket.lot.notional, NetFee(s.p));
  }

  lemma NothingOf(x: real, y: real)
    requires y == 0.0
    ensures x * y == 0.0
  {
  }

  lemma WorthGrows(qty: real, a: real, b: real)
    requires qty > 0.0
    ensures (a > b <==> qty * a > qty * b) && (a < b <==> qty * a < qty * b)
  {
    if a > b {
      assert qty * (a - b) > 0.0;
    } else if a < b {
      assert qty * (b - a) > 0.0;
    }
  }

  lemma {:induction false} FundingSign(rows: seq<FundingRow>, from: int, upto: int)
    requires forall k :: 0 <= k < |rows| ==> rows[k].rate >= 0.0
    ensures FundingBetween(rows, from, upto) >= 0.0
  {
    if rows != [] {
      FundingSign(rows[..|rows| - 1], from, upto);
    }
  }

  /** Rates that are not negative cost every long and pay every short. */
  lemma LongsPayShortsReceive(s: Inputs, k: nat)
    requires k < |Finish(s).trades| && forall j :: 0 <= j < |s.funding| ==> s.funding[j].rate >= 0.0
    ensures var t := Finish(s).trades[k];
            if SideOf(t.lot).Long? then t.fundingCost >= 0.0 else t.fundingCost <= 0.0
  {
    hide Finish, NetFee;
    EveryTradeEarnsItsMove(s);
    var t := Finish(s).trades[k];
    assert Earned(s, t);
    FundingSign(s.funding, t.lot.entry.time, s.bars[t.exitBar].time);
  }

  function TotalRates(rows: seq<FundingRow>): real {
    if rows == [] then 0.0 else TotalRates(rows[..|rows| - 1]) + rows[|rows| - 1].rate
  }

  /** Funding is charged once for each moment held: a span is its two halves, and the whole span all of it. */
  lemma {:induction false} FundingAddsUp(rows: seq<FundingRow>, from: int, mid: int, upto: int)
    requires from <= mid <= upto
    ensures FundingBetween(rows, from, upto)
            == FundingBetween(rows, from, mid) + FundingBetween(rows, mid + 1, upto)
    ensures (forall k :: 0 <= k < |rows| ==> from <= rows[k].time <= upto) ==>
              FundingBetween(rows, from, upto) == TotalRates(rows)
  {
    if rows != [] {
      FundingAddsUp(rows[..|rows| - 1], from, mid, upto);
    }
  }

  /** The part of the fee that is not given back. */
  lemma RebateIsGivenBack(p: Params)
    ensures NetFee(p) + p.rebate * p.takerRate == p.takerRate
  {
  }

  // ----- the exit rules as price levels

  /** The close at which a lot, its entry fee paid, has earned this fraction of its notional. */
  function PriceAt(s: Inputs, e: Entry, fraction: real): real {
    if e.ticket.lot.side.Long? then e.price * (1.0 + NetFee(s.p) + fraction)
    else e.price * (1.0 - NetFee(s.p) - fraction)
  }

  /** How far the price has come the lot's way: above this level for a long, below it for a short. */
  predicate Reached(side: Side, close: real, level: real) {
    if side.Long? then close >= level else close <= level
  }

  /** A lot has earned a fraction of its notional exactly when the price has reached that level. */
  lemma ProfitIsAPriceLevel(s: Inputs, e: Entry, i: nat, fraction: real)
    requires i < |s.bars| && Entered(s, e)
    ensures ProfitFraction(s, e, i) >= fraction
            <==> Reached(e.ticket.lot.side, s.bars[i].close, PriceAt(s, e, fraction))
    ensures ProfitFraction(s, e, i) <= fraction
            <==> !Reached(e.ticket.lot.side, s.bars[i].close, PriceAt(s, e, fraction))
                 || s.bars[i].close == PriceAt(s, e, fraction)
  {
    hide NetFee, ProfitFraction, Entered, PriceAt;
    if e.ticket.lot.side.Long? {
      LongProfit(s, e, i, fraction);
    } else {
      ShortProfit(s, e, i, fraction);
    }
  }

  lemma LongProfit(s: Inputs, e: Entry, i: nat, fraction: real)
    requires i < |s.bars| && Entered(s, e) && e.ticket.lot.side.Long?
    ensures ProfitFraction(s, e, i) >= fraction <==> s.bars[i].close >= PriceAt(s, e, fraction)
    ensures ProfitFraction(s, e, i) <= fraction <==> s.bars[i].close <= PriceAt(s, e, fraction)
  {
    hide NetFee, Entered;
    EnteredForItsNotional(s, e);
    LongFraction(s.bars[i].close, e.price, e.qty, e.ticket.lot.notional, NetFee(s.p), e.fee, fraction);
  }

  lemma ShortProfit(s: Inputs, e: Entry, i: nat, fraction: real)
    requires i < |s.bars| && Entered(s, e) && e.ticket.lot.side.Short?
    ensures ProfitFraction(s, e, i) >= fraction <==> s.bars[i].close <= PriceAt(s, e, fraction)
    ensures ProfitFraction(s, e, i) <= fraction <==> s.bars[i].close >= PriceAt(s, e, fraction)
  {
    hide NetFee, Entered;
    EnteredForItsNotional(s, e);
    ShortFraction(s.bars[i].close, e.price, e.qty, e.ticket.lot.notional, NetFee(s.p), e.fee, fraction);
  }

  lemma EnteredForItsNotional(s: Inputs, e: Entry)
    requires Entered(s, e)
    ensures e.qty > 0.0 && e.qty * e.price == e.ticket.lot.notional && e.fee == e.ticket.lot.notional * NetFee(s.p)
  {
    hide NetFee;
  }

  lemma LongFraction(close: real, price: real, qty: real, n: real, fee: real, paid: real, level: real)
    requires qty > 0.0 && n > 0.0 && qty * price == n && paid == n * fee
    ensures ((close - price) * qty * 1.0 - paid) / n >= level <==> close >= price * (1.0 + fee + level)
    ensures ((close - price) * qty * 1.0 - paid) / n <= level <==> close <= price * (1.0 + fee + level)
  {
    Scaled((close - price) * qty * 1.0 - paid, n, level);
    LongLevel(close, price, qty, fee, level);
  }

  lemma ShortFraction(close: real, price: real, qty: real, n: real, fee: real, paid: real, level: real)
    requires qty > 0.0 && n > 0.0 && qty * price == n && paid == n * fee
    ensures ((close - price) * qty * -1.0 - paid) / n >= level <==> close <= price * (1.0 - fee - level)
    ensures ((close - price) * qty * -1.0 - paid) / n <= level <==> close >= price * (1.0 - fee - level)
  {
    Scaled((close - price) * qty * -1.0 - paid, n, level);
    ShortLevel(close, price, qty, fee, level);
  }

  lemma Scaled(x: real, n: real, level: real)
    requires n > 0.0
    ensures (x / n >= level <==> x >= level * n) && (x / n <= level <==> x <= level * n)
  {
    var q := x / n;
    assert q * n == x;
    Ordered(q, level, n);
  }

  lemma Ordered(a: real, b: real, n: real)
    requires n > 0.0
    ensures (a >= b <==> a * n >= b * n) && (a <= b <==> a * n <= b * n)
  {
    if a > b {
      assert (a - b) * n > 0.0;
    } else if a < b {
      assert (b - a) * n > 0.0;
    }
  }

  lemma LongLevel(close: real, price: real, qty: real, fee: real, level: real)
    requires qty > 0.0
    ensures var n := qty * price; var x := (close - price) * qty - n * fee;
            && (x >= level * n <==> close >= price * (1.0 + fee + level))
            && (x <= level * n <==> close <= price * (1.0 + fee + level))
  {
    var at := price * (1.0 + fee + level);
    assert at == price + price * fee + price * level;
    assert (close - price) * qty - qty * price * fee - level * (qty * price) == close * qty - at * qty;
    Ordered(close, at, qty);
  }

  lemma ShortLevel(close: real, price: real, qty: real, fee: real, level: real)
    requires qty > 0.0
    ensures var n := qty * price; var x := -((close - price) * qty) - n * fee;
            && (x >= level * n <==> close <= price * (1.0 - fee - level))
            && (x <= level * n <==> close >= price * (1.0 - fee - level))
  {
    var at := price * (1.0 - fee - level);
    assert at == price - price * fee - price * level;
    assert -((close - price) * qty) - qty * price * fee - level * (qty * price) == at * qty - close * qty;
    Ordered(close, at, qty);
  }

  /** The stop-loss rule is a fixed price: the trade that stops out has fallen to it, and none sat through it before. */
  lemma StopLossIsAPriceLevel(s: Inputs, k: nat, j: nat)
    requires k < |Finish(s).trades|
    ensures var t := Finish(s).trades[k];
            && t.exitBar < |s.bars|
            && var side, level := SideOf(t.lot), PriceAt(s, t.lot.entry, -s.p.stopLoss);
               && (t.reason.StopLoss? ==>
                     s.bars[t.exitBar].close == level || !Reached(side, s.bars[t.exitBar].close, level))
               && (t.lot.entry.ticket.bar <= j < t.exitBar ==>
                     s.bars[j].close != level && Reached(side, s.bars[j].close, level))
  {
    hide Finish, NetFee, ProfitFraction, NeverStoppedOut, TightestStop, Confirmed, PriceAt, Reached;
    EveryTradeEarnsItsMove(s);
    EveryTradeIsRight(s);
    var t := Finish(s).trades[k];
    assert Earned(s, t) && RightlyClosed(s, t);
    ProfitIsAPriceLevel(s, t.lot.entry, t.exitBar, -s.p.stopLoss);
    if t.lot.entry.ticket.bar <= j < t.exitBar {
      ProfitIsAPriceLevel(s, t.lot.entry, j, -s.p.stopLoss);
      assert !StopLossHit(s, t.lot.entry, j);
    }
  }

  /** A trailing exit had at some bar reached the price at which trailing starts. */
  lemma TrailingStartsAtAPriceLevel(s: Inputs, k: nat)
    requires k < |Finish(s).trades| && Finish(s).trades[k].reason.Trailing?
    ensures var t := Finish(s).trades[k];
            exists j :: t.lot.entry.ticket.bar <= j <= t.exitBar && j < |s.bars|
              && Reached(SideOf(t.lot), s.bars[j].close, PriceAt(s, t.lot.entry, s.p.trailingStart))
  {
    hide Finish, NetFee, ProfitFraction, NeverStoppedOut, Confirmed, PriceAt, Reached, NoStopLoss;
    EveryTradeEarnsItsMove(s);
    EveryTradeIsRight(s);
    var t := Finish(s).trades[k];
    assert Earned(s, t) && RightlyClosed(s, t);
    var m :| 0 <= m < t.exitBar + 1 && Offered(s, t.lot.entry, m)
             && Offer(s, t.lot.entry, m) == t.lot.trailingStop.value;
    var j :| t.lot.entry.ticket.bar <= j <= m && Profitable(s, t.lot.entry, j);
    ProfitIsAPriceLevel(s, t.lot.entry, j, s.p.trailingStart);
  }

  /** The swing low and high are the least low and the greatest high of the window. */
  lemma {:induction false} SwingsAreExtremes(bars: seq<Bar>, from: nat, i: nat)
    requires from <= i < |bars|
    ensures forall j :: from <= j <= i ==>
              SwingLow(bars, from, i) <= bars[j].low && bars[j].high <= SwingHigh(bars, from, i)
    ensures exists j, k :: from <= j <= i && from <= k <= i
                           && bars[j].low == SwingLow(bars, from, i) && bars[k].high == SwingHigh(bars, from, i)
    decreases i
  {
    if i == from {
      assert bars[i].low == SwingLow(bars, from, i) && bars[i].high == SwingHigh(bars, from, i);
    } else {
      SwingsAreExtremes(bars, from, i - 1);
      var j, k :| from <= j < i && from <= k < i
                  && bars[j].low == SwingLow(bars, from, i - 1) && bars[k].high == SwingHigh(bars, from, i - 1);
      var j' := if bars[i].low < bars[j].low then i else j;
      var k' := if bars[i].high > bars[k].high then i else k;
      assert bars[j'].low == SwingLow(bars, from, i) && bars[k'].high == SwingHigh(bars, from, i);
    }
  }

  /** The window is the last bars up to this one, as many as there are. */
  lemma WindowIsTheLastBars(s: Inputs, i: nat)
    ensures i - WindowStart(s, i) + 1 == if i + 1 < s.p.swingLookback then i + 1 else s.p.swingLookback
  {
  }

  /** An offered stop stays clear of every bar of the window by the buffer, and of one by no more. */
  lemma StopIsClearOfTheSwing(s: Inputs, side: Side, i: nat)
    requires i < |s.bars| && Candidate(s, side, i).Some?
    ensures var stop, buffer, start := Candidate(s, side, i).value, s.atr[i].value * s.p.atrMultiplier,
                                       WindowStart(s, i);
            && (forall j :: start <= j <= i ==>
                  if side.Long? then stop + buffer <= s.bars[j].low else stop - buffer >= s.bars[j].high)
            && exists j :: start <= j <= i
                 && if side.Long? then stop + buffer == s.bars[j].low else stop - buffer == s.bars[j].high
  {
    SwingsAreExtremes(s.bars, WindowStart(s, i), i);
  }

  /** A score confirms a held lot exactly when it is strong enough to open one on that side. */
  lemma ConfirmsExactlyWhatWouldOpen(score: real, side: Side, threshold: real)
    requires threshold > 0.0
    ensures ScoreConfirms(score, side, threshold) <==> S.Abs(score) >= threshold && S.SideOf(score) == side
  {
  }

  /**
    A trailing exit closed past the best stop offered while the lot trailed: under
    the highest for a long, over the lowest for a short.
  */
  lemma TrailingExitsPastTheBestStop(s: Inputs, k: nat, j: nat)
    requires k < |Finish(s).trades| && Finish(s).trades[k].reason.Trailing?
    ensures var t := Finish(s).trades[k];
            && t.exitBar < |s.bars| && t.lot.trailingStop.Some?
            && var stop, close := t.lot.trailingStop.value, s.bars[t.exitBar].close;
               && (if SideOf(t.lot).Long? then close < stop else close > stop)
               && (j <= t.exitBar && Offered(s, t.lot.entry, j) ==>
                     if SideOf(t.lot).Long? then Offer(s, t.lot.entry, j) <= stop
                     else Offer(s, t.lot.entry, j) >= stop)
  {
    hide Finish, NoStopLoss, NeverStoppedOut, StopLossHit, Offered, Offer;
    EveryTradeIsRight(s);
    var t := Finish(s).trades[k];
    assert RightlyClosed(s, t);
  }

  const BAR_MINUTES := 15
  const HOUR_MINUTES := 60

  /**
    A lot closed at its review was held its hours, in fifteen-minute bars, nothing
    confirmed it then, and an extension it had been given was used up in full.
  */
  lemma ReviewedAfterItsHours(s: Inputs, k: nat)
    requires k < |Finish(s).trades| && Finish(s).trades[k].reason.Holding?
    ensures var t := Finish(s).trades[k];
            && t.exitBar < |s.bars| && !Confirmed(s, SideOf(t.lot), t.exitBar)
            && (t.exitBar - t.lot.entry.ticket.bar) * BAR_MINUTES >= s.p.maxHoldingHours * HOUR_MINUTES
            && (t.lot.openBar != t.lot.entry.ticket.bar ==>
                  exists r: nat :: r < t.exitBar && Confirmed(s, SideOf(t.lot), r)
                    && (t.exitBar - r) * BAR_MINUTES >= s.p.extensionHours * HOUR_MINUTES)
  {
    hide Finish, NoStopLoss, NeverStoppedOut, StopLossHit, TightestStop, Confirmed;
    EveryTradeIsRight(s);
    var t := Finish(s).trades[k];
    assert RightlyClosed(s, t);
    if t.lot.openBar != t.lot.entry.ticket.bar {
      var r: nat :| r < t.exitBar && LastExtended(s, t.lot, r) && t.exitBar - r >= Extension(s);
      assert (t.exitBar - r) * BAR_MINUTES >= s.p.extensionHours * HOUR_MINUTES;
    }
  }

  /** A lot still open past its hours was confirmed at a review less than an extension ago, or at this very bar. */
  lemma HeldOnWithinTheExtension(s: Inputs, n: nat, k: nat)
    requires 0 < n <= |s.bars| && k < |After(s, n).open|
    requires var held := n - 1 - After(s, n).open[k].entry.ticket.bar;
             held * BAR_MINUTES >= s.p.maxHoldingHours * HOUR_MINUTES
    ensures var lot := After(s, n).open[k];
            exists r: nat :: r < n && Confirmed(s, SideOf(lot), r)
              && (r == n - 1 || (n - 1 - r) * BAR_MINUTES < s.p.extensionHours * HOUR_MINUTES)
  {
    hide After, Confirmed;
    LongHeldMeansConfirmed(s, n, k);
  }
}
