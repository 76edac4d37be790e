/**
  The bar simulator: lots are opened and closed on signals, then every open lot
  is checked for a stop loss, a trailing exit and the end of its holding time.
  Each step is a function; the loop at the end computes exactly those functions.
*/
module Simulator {
  import opened Common
  import opened LotBook

  const BARS_PER_HOUR := 4

  datatype Bar = Bar(time: int, high: real, low: real, close: real)

  datatype FundingRow = FundingRow(time: int, rate: real)

  datatype Params = Params(initialEquity: real, takerRate: real, rebate: real, slippage: real,
                           stopLoss: real, trailingStart: real, maxHoldingHours: int, extensionHours: int,
                           swingLookback: int, atrMultiplier: real)

  /** One row of each input per bar: the average true range and raw score may be missing. */
  datatype Setup = Setup(bars: seq<Bar>, atr: seq<Option<real>>, funding: seq<FundingRow>,
                         signals: seq<seq<Event>>, rawScores: seq<Option<real>>, reviewThreshold: real, p: Params)

  predicate Tradable(s: Setup) {
    && |s.atr| == |s.signals| == |s.rawScores| == |s.bars|
    && (forall i :: 0 <= i < |s.bars| ==> s.bars[i].close > 0.0)
    && (forall i, k :: 0 <= i < |s.signals| && 0 <= k < |s.signals[i]| && s.signals[i][k].isOpen ==>
          s.signals[i][k].notional > 0.0)
    && -1.0 < s.p.slippage < 1.0 && s.p.swingLookback >= 1
  }

  type Inputs = s: Setup | Tradable(s)
    witness Setup([], [], [], [], [], 0.0, Params(0.0, 0.0, 0.0, 0.0, 0.0, 0.0, 0, 0, 1, 0.0))

  /** What an open signal asked for, and the bar it landed on. */
  datatype Ticket = Ticket(lot: Lot, bar: nat)

  /** What stays fixed over a lot's life. */
  datatype EntryFields = EntryFields(ticket: Ticket, qty: real, price: real, time: int, fee: real)

  type Entry = e: EntryFields | e.ticket.lot.notional > 0.0
    witness EntryFields(Ticket(Lot(0, Long, 1.0), 0), 1.0, 1.0, 0, 0.0)

  datatype SimLot = SimLot(entry: Entry, openBar: int, trailingActive: bool, trailingStop: Option<real>, extended: bool)

  datatype Reason = OppositeSignal | StopLoss | Trailing | Holding | EndOfData

  datatype Trade = Trade(lot: SimLot, exitBar: nat, exitPrice: real, exitFee: real, fundingCost: real,
                         pnl: real, reason: Reason)

  datatype Outcome = Stay(lot: SimLot) | Exit(trade: Trade)

  datatype Walk = Walk(open: seq<SimLot>, trades: seq<Trade>, realized: real, equity: seq<real>)

  function SideOf(lot: SimLot): Side {
    lot.entry.ticket.lot.side
  }

  function Sign(side: Side): real {
    if side.Long? then 1.0 else -1.0
  }

  function NetFee(p: Params): real {
    p.takerRate * (1.0 - p.rebate)
  }

  // ----- opening and closing one lot

  /** Slippage always works against the trade: buying costs more, selling brings less. */
  function FillPrice(close: real, buying: bool, slippage: real): real {
    if buying then close * (1.0 + slippage) else close * (1.0 - slippage)
  }

  lemma FillPricePositive(close: real, buying: bool, slippage: real)
    requires close > 0.0 && -1.0 < slippage < 1.0
    ensures FillPrice(close, buying, slippage) > 0.0
  {
    assert FillPrice(close, buying, slippage) == close * if buying then 1.0 + slippage else 1.0 - slippage;
  }

  function OpenLot(s: Inputs, e: Event, i: nat): SimLot
    requires i < |s.bars| && e.isOpen && e.notional > 0.0
  {
    var price := FillPrice(s.bars[i].close, e.side.Long?, s.p.slippage);
    FillPricePositive(s.bars[i].close, e.side.Long?, s.p.slippage);
    var qty := e.notional / price;
    SimLot(EntryFields(Ticket(LotOf(e), i), qty, price, s.bars[i].time, qty * price * NetFee(s.p)),
           i, false, None, false)
  }

  /** The funding rates charged from the entry time to the exit time, both included. */
  function FundingBetween(rows: seq<FundingRow>, from: int, upto: int): real {
    if rows == [] then 0.0
    else FundingBetween(rows[..|rows| - 1], from, upto)
         + if from <= rows[|rows| - 1].time <= upto then rows[|rows| - 1].rate else 0.0
  }

  function CloseLot(s: Inputs, lot: SimLot, i: nat, reason: Reason): Trade
    requires i < |s.bars|
  {
    var price := FillPrice(s.bars[i].close, SideOf(lot).Short?, s.p.slippage);
    var gross := (price - lot.entry.price) * lot.entry.qty * Sign(SideOf(lot));
    var exitFee := lot.entry.qty * price * NetFee(s.p);
    var funding := Sign(SideOf(lot)) * FundingBetween(s.funding, lot.entry.time, s.bars[i].time)
                   * lot.entry.ticket.lot.notional;
    Trade(lot, i, price, exitFee, funding, gross - lot.entry.fee - exitFee - funding, reason)
  }

  // ----- the exits of one lot at one bar

  /** Unrealized profit of a lot at a bar's close, per unit of notional. */
  function ProfitFraction(s: Inputs, entry: Entry, i: nat): real
    requires i < |s.bars|
  {
    ((s.bars[i].close - entry.price) * entry.qty * Sign(entry.ticket.lot.side) - entry.fee) / entry.ticket.lot.notional
  }

  predicate StopLossHit(s: Inputs, entry: Entry, i: nat)
    requires i < |s.bars|
  {
    -ProfitFraction(s, entry, i) >= s.p.stopLoss
  }

  predicate Profitable(s: Inputs, entry: Entry, i: nat)
    requires i < |s.bars|
  {
    ProfitFraction(s, entry, i) >= s.p.trailingStart
  }

  function SwingLow(bars: seq<Bar>, from: nat, i: nat): real
    requires from <= i < |bars|
    decreases i
  {
    if i == from then bars[i].low
    else var before := SwingLow(bars, from, i - 1); if bars[i].low < before then bars[i].low else before
  }

  function SwingHigh(bars: seq<Bar>, from: nat, i: nat): real
    requires from <= i < |bars|
    decreases i
  {
    if i == from then bars[i].high
    else var before := SwingHigh(bars, from, i - 1); if bars[i].high > before then bars[i].high else before
  }

  function WindowStart(s: Inputs, i: nat): (start: nat)
    ensures start <= i
  {
    if i - s.p.swingLookback + 1 < 0 then 0 else i - s.p.swingLookback + 1
  }

  /** A stop beyond the recent swing, by a multiple of the true range. */
  function Buffered(side: Side, low: real, high: real, atr: real, multiplier: real): real {
    if side.Long? then low - atr * multiplier else high + atr * multiplier
  }

  /** Where the trailing stop would go at this bar. */
  function Candidate(s: Inputs, side: Side, i: nat): Option<real>
    requires i < |s.bars|
  {
    if s.atr[i].None? then None
    else
      var start := WindowStart(s, i);
      Some(Buffered(side, SwingLow(s.bars, start, i), SwingHigh(s.bars, start, i), s.atr[i].value, s.p.atrMultiplier))
  }

  /** A tighter stop: higher for a long, lower for a short. */
  predicate Tighter(side: Side, a: real, b: real) {
    if side.Long? then a > b else a < b
  }

  function Arm(s: Inputs, lot: SimLot, i: nat): SimLot
    requires i < |s.bars|
  {
    lot.(trailingActive := lot.trailingActive || Profitable(s, lot.entry, i))
  }

  function Trail(s: Inputs, lot: SimLot, i: nat): SimLot
    requires i < |s.bars|
  {
    var candidate := Candidate(s, SideOf(lot), i);
    if lot.trailingActive && candidate.Some?
       && (lot.trailingStop.None? || Tighter(SideOf(lot), candidate.value, lot.trailingStop.value))
    then lot.(trailingStop := candidate)
    else lot
  }

  /** The close has passed the stop, on a bar where the stop is checked at all. */
  predicate TrailHit(s: Inputs, lot: SimLot, i: nat)
    requires i < |s.bars|
  {
    && lot.trailingActive && s.atr[i].Some? && lot.trailingStop.Some?
    && Tighter(SideOf(lot), lot.trailingStop.value, s.bars[i].close)
  }

  predicate ScoreConfirms(score: real, side: Side, threshold: real) {
    if side.Long? then score >= threshold else score <= -threshold
  }

  predicate SignalConfirms(signals: seq<Event>, side: Side, threshold: real) {
    exists k :: 0 <= k < |signals| && signals[k].isOpen && ScoreConfirms(signals[k].score, side, threshold)
  }

  /** The bar's raw score decides; only without one do the bar's open signals. */
  predicate Confirmed(s: Inputs, side: Side, i: nat)
    requires i < |s.bars|
  {
    match s.rawScores[i]
    case Some(score) => ScoreConfirms(score, side, s.reviewThreshold)
    case None => SignalConfirms(s.signals[i], side, s.reviewThreshold)
  }

  function MaxHolding(s: Inputs): int {
    s.p.maxHoldingHours * BARS_PER_HOUR
  }

  function Extension(s: Inputs): int {
    s.p.extensionHours * BARS_PER_HOUR
  }

  function Review(s: Inputs, lot: SimLot, i: nat): Outcome
    requires i < |s.bars|
  {
    if i - lot.openBar < MaxHolding(s) then Stay(lot)
    else if Confirmed(s, SideOf(lot), i) then
      Stay(lot.(extended := true, openBar := i - MaxHolding(s) + Extension(s)))
    else Exit(CloseLot(s, lot, i, Holding))
  }

  function EvaluateExits(s: Inputs, lot: SimLot, i: nat): Outcome
    requires i < |s.bars|
  {
    if StopLossHit(s, lot.entry, i) then Exit(CloseLot(s, lot, i, StopLoss))
    else
      var trailed := Trail(s, Arm(s, lot, i), i);
      if TrailHit(s, trailed, i) then Exit(CloseLot(s, trailed, i, Trailing)) else Review(s, trailed, i)
  }

  // ----- one bar

  function Find(lots: seq<SimLot>, id: nat): Option<SimLot> {
    if lots == [] then None
    else if lots[0].entry.ticket.lot.id == id then Some(lots[0])
    else Find(lots[1..], id)
  }

  function Without(lots: seq<SimLot>, id: nat): seq<SimLot> {
    if lots == [] then []
    else if lots[0].entry.ticket.lot.id == id then lots[1..]
    else [lots[0]] + Without(lots[1..], id)
  }

  /** A close takes the first lot with that id, if one is still open; an open always adds a lot. */
  function HandleSignal(s: Inputs, w: Walk, e: Event, i: nat): Walk
    requires i < |s.bars| && (e.isOpen ==> e.notional > 0.0)
  {
    if e.isOpen then w.(open := w.open + [OpenLot(s, e, i)])
    else match Find(w.open, e.lotId)
      case None => w
      case Some(lot) =>
        var trade := CloseLot(s, lot, i, OppositeSignal);
        w.(open := Without(w.open, e.lotId), trades := w.trades + [trade], realized := w.realized + trade.pnl)
  }

  function HandleSignals(s: Inputs, w: Walk, i: nat, k: nat): Walk
    requires i < |s.bars| && k <= |s.signals[i]|
  {
    if k == 0 then w else HandleSignal(s, HandleSignals(s, w, i, k - 1), s.signals[i][k - 1], i)
  }

  function Survivors(s: Inputs, lots: seq<SimLot>, i: nat): seq<SimLot>
    requires i < |s.bars|
  {
    if lots == [] then []
    else
      var outcome := EvaluateExits(s, lots[|lots| - 1], i);
      Survivors(s, lots[..|lots| - 1], i) + if outcome.Stay? then [outcome.lot] else []
  }

  function Exits(s: Inputs, lots: seq<SimLot>, i: nat): seq<Trade>
    requires i < |s.bars|
  {
    if lots == [] then []
    else
      var outcome := EvaluateExits(s, lots[|lots| - 1], i);
      Exits(s, lots[..|lots| - 1], i) + if outcome.Exit? then [outcome.trade] else []
  }

  function TotalPnl(trades: seq<Trade>): real {
    if trades == [] then 0.0 else TotalPnl(trades[..|trades| - 1]) + trades[|trades| - 1].pnl
  }

  function BarStep(s: Inputs, w: Walk, i: nat): Walk
    requires i < |s.bars|
  {
    var signalled := HandleSignals(s, w, i, |s.signals[i]|);
    var exits := Exits(s, signalled.open, i);
    var realized := signalled.realized + TotalPnl(exits);
    Walk(Survivors(s, signalled.open, i), signalled.trades + exits, realized,
         w.equity + [s.p.initialEquity + realized])
  }

  function After(s: Inputs, n: nat): (w: Walk)
    requires n <= |s.bars|
    ensures |w.equity| == n
  {
    if n == 0 then Walk([], [], 0.0, []) else BarStep(s, After(s, n - 1), n - 1)
  }

  function Forced(s: Inputs, lots: seq<SimLot>): seq<Trade>
    requires |s.bars| > 0
  {
    if lots == [] then []
    else Forced(s, lots[..|lots| - 1]) + [CloseLot(s, lots[|lots| - 1], |s.bars| - 1, EndOfData)]
  }

  /** Lots still open at the end are closed at the last bar, and the last equity row says so. */
  function Finish(s: Inputs): Walk {
    var w, n := After(s, |s.bars|), |s.bars|;
    if w.open == [] || n == 0 then w
    else
      var forced := Forced(s, w.open);
      var realized := w.realized + TotalPnl(forced);
      Walk([], w.trades + forced, realized, w.equity[n - 1 := s.p.initialEquity + realized])
  }

  // ----- the loops

  method Confirming(s: Inputs, side: Side, i: nat) returns (confirming: bool)
    requires i < |s.bars|
    ensures confirming == Confirmed(s, side, i)
  {
    var raw := s.rawScores[i];
    confirming := raw.Some? && ScoreConfirms(raw.value, side, s.reviewThreshold);
    if raw.None? {
      var k := 0;
      while k < |s.signals[i]| && !confirming
        invariant 0 <= k <= |s.signals[i]|
        invariant confirming ==> SignalConfirms(s.signals[i], side, s.reviewThreshold)
        invariant !confirming ==> !SignalConfirms(s.signals[i][..k], side, s.reviewThreshold)
      {
        var signal := s.signals[i][k];
        if signal.isOpen && ScoreConfirms(signal.score, side, s.reviewThreshold) {
          confirming := true;
        }
        k := k + 1;
      }
      assert !confirming ==> s.signals[i][..k] == s.signals[i];
    }
  }

  method Swing(s: Inputs, i: nat) returns (low: real, high: real)
    requires i < |s.bars|
    ensures low == SwingLow(s.bars, WindowStart(s, i), i) && high == SwingHigh(s.bars, WindowStart(s, i), i)
  {
    var start := WindowStart(s, i);
    low, high := s.bars[start].low, s.bars[start].high;
    var k := start;
    while k < i
      invariant start <= k <= i
      invariant low == SwingLow(s.bars, start, k) && high == SwingHigh(s.bars, start, k)
    {
      k := k + 1;
      if s.bars[k].low < low { low := s.bars[k].low; }
      if s.bars[k].high > high { high := s.bars[k].high; }
    }
  }

  /** The exit checks of one lot, updating its fields on the way. */
  method Evaluate(s: Inputs, held: SimLot, i: nat) returns (outcome: Outcome)
    requires i < |s.bars|
    ensures outcome == EvaluateExits(s, held, i)
  {
    hide CloseLot, ProfitFraction, Buffered, SwingLow, SwingHigh, WindowStart, Confirmed, MaxHolding, Extension;
    var lot := held;
    var profit := ProfitFraction(s, lot.entry, i);
    if -profit >= s.p.stopLoss {
      return Exit(CloseLot(s, lot, i, StopLoss));
    }
    if !lot.trailingActive && profit >= s.p.trailingStart {
      lot := lot.(trailingActive := true);
    }
    if lot.trailingActive && s.atr[i].Some? {
      var low, high := Swing(s, i);
      var trail := Buffered(SideOf(lot), low, high, s.atr[i].value, s.p.atrMultiplier);
      if lot.trailingStop.None? || Tighter(SideOf(lot), trail, lot.trailingStop.value) {
        lot := lot.(trailingStop := Some(trail));
      }
      assert lot == Trail(s, Arm(s, held, i), i);
      if Tighter(SideOf(lot), lot.trailingStop.value, s.bars[i].close) {
        return Exit(CloseLot(s, lot, i, Trailing));
      }
    }
    if i - lot.openBar >= MaxHolding(s) {
      var confirming := Confirming(s, SideOf(lot), i);
      if !confirming {
        return Exit(CloseLot(s, lot, i, Holding));
      }
      lot := lot.(extended := true, openBar := i - MaxHolding(s) + Extension(s));
    }
    return Stay(lot);
  }

  lemma {:induction false} FindAt(lots: seq<SimLot>, id: nat, k: nat)
    requires k <= |lots| && (forall j :: 0 <= j < k ==> lots[j].entry.ticket.lot.id != id)
    requires k < |lots| ==> lots[k].entry.ticket.lot.id == id
    ensures Find(lots, id) == if k < |lots| then Some(lots[k]) else None
    ensures k < |lots| ==> Without(lots, id) == lots[..k] + lots[k + 1..]
  {
    if k > 0 {
      FindAt(lots[1..], id, k - 1);
      assert k < |lots| ==> lots[..k] + lots[k + 1..] == [lots[0]] + (lots[1..][..k - 1] + lots[1..][k..]);
    }
  }

  /** The bar's signals in their order, closes finding their lot by id. */
  method Signals(s: Inputs, i: nat, lots: seq<SimLot>, before: seq<Trade>, pnl: real, ghost equity: seq<real>)
    returns (openLots: seq<SimLot>, trades: seq<Trade>, realized: real)
    requires i < |s.bars|
    ensures Walk(openLots, trades, realized, equity)
         == HandleSignals(s, Walk(lots, before, pnl, equity), i, |s.signals[i]|)
  {
    hide OpenLot, CloseLot, Find, Without;
    openLots, trades, realized := lots, before, pnl;
    var k := 0;
    while k < |s.signals[i]|
      invariant 0 <= k <= |s.signals[i]|
      invariant Walk(openLots, trades, realized, equity)
             == HandleSignals(s, Walk(lots, before, pnl, equity), i, k)
    {
      var e := s.signals[i][k];
      if e.isOpen {
        openLots := openLots + [OpenLot(s, e, i)];
      } else {
        var at := 0;
        while at < |openLots| && openLots[at].entry.ticket.lot.id != e.lotId
          invariant 0 <= at <= |openLots|
          invariant forall j :: 0 <= j < at ==> openLots[j].entry.ticket.lot.id != e.lotId
        {
          at := at + 1;
        }
        FindAt(openLots, e.lotId, at);
        if at < |openLots| {
          var trade := CloseLot(s, openLots[at], i, OppositeSignal);
          realized := realized + trade.pnl;
          trades := trades + [trade];
          openLots := openLots[..at] + openLots[at + 1..];
        }
      }
      k := k + 1;
    }
  }

  lemma TotalStep(trades: seq<Trade>, trade: Trade)
    ensures TotalPnl(trades + [trade]) == TotalPnl(trades) + trade.pnl
  {
    assert (trades + [trade])[..|trades|] == trades;
  }

  lemma EvaluatedStep(s: Inputs, lots: seq<SimLot>, i: nat, k: nat)
    requires i < |s.bars| && k < |lots|
    ensures var outcome := EvaluateExits(s, lots[k], i);
            && Survivors(s, lots[..k + 1], i)
               == Survivors(s, lots[..k], i) + (if outcome.Stay? then [outcome.lot] else [])
            && Exits(s, lots[..k + 1], i) == Exits(s, lots[..k], i) + if outcome.Exit? then [outcome.trade] else []
  {
    hide EvaluateExits;
    assert lots[..k + 1][..k] == lots[..k];
  }

  lemma NoneEvaluated(s: Inputs, lots: seq<SimLot>, i: nat)
    requires i < |s.bars|
    ensures Survivors(s, lots[..0], i) == [] && Exits(s, lots[..0], i) == [] && TotalPnl([]) == 0.0
  {
  }

  /** Every open lot is evaluated once; those that exit leave a trade. */
  method ExitsOfBar(s: Inputs, i: nat, lots: seq<SimLot>, before: seq<Trade>, pnl: real)
    returns (stillOpen: seq<SimLot>, trades: seq<Trade>, realized: real)
    requires i < |s.bars|
    ensures stillOpen == Survivors(s, lots, i) && trades == before + Exits(s, lots, i)
    ensures realized == pnl + TotalPnl(Exits(s, lots, i))
  {
    hide EvaluateExits, Survivors, Exits, TotalPnl;
    NoneEvaluated(s, lots, i);
    stillOpen, trades, realized := [], before, pnl;
    var k := 0;
    while k < |lots|
      invariant 0 <= k <= |lots|
      invariant stillOpen == Survivors(s, lots[..k], i) && trades == before + Exits(s, lots[..k], i)
      invariant realized == pnl + TotalPnl(Exits(s, lots[..k], i))
    {
      EvaluatedStep(s, lots, i, k);
      var outcome := Evaluate(s, lots[k], i);
      match outcome {
        case Exit(trade) =>
          TotalStep(Exits(s, lots[..k], i), trade);
          realized := realized + trade.pnl;
          trades := trades + [trade];
          assert stillOpen + [] == stillOpen;
        case Stay(lot) =>
          stillOpen := stillOpen + [lot];
          assert Exits(s, lots[..k], i) + [] == Exits(s, lots[..k], i);
      }
      k := k + 1;
    }
    assert lots[..k] == lots;
  }

  lemma ForcedStep(s: Inputs, lots: seq<SimLot>, k: nat)
    requires |s.bars| > 0 && k < |lots|
    ensures Forced(s, lots[..k + 1]) == Forced(s, lots[..k]) + [CloseLot(s, lots[k], |s.bars| - 1, EndOfData)]
  {
    hide CloseLot;
    assert lots[..k + 1][..k] == lots[..k];
  }

  lemma NoneForced(s: Inputs, lots: seq<SimLot>)
    requires |s.bars| > 0
    ensures Forced(s, lots[..0]) == [] && TotalPnl([]) == 0.0
  {
  }

  /** Lots still open at the end are closed at the last bar. */
  method ForceClose(s: Inputs, lots: seq<SimLot>, before: seq<Trade>, pnl: real)
    returns (trades: seq<Trade>, realized: real, unrealizedAtEnd: real)
    requires |s.bars| > 0
    ensures trades == before + Forced(s, lots)
    ensures unrealizedAtEnd == TotalPnl(Forced(s, lots)) && realized == pnl + unrealizedAtEnd
  {
    hide CloseLot, Forced, TotalPnl;
    NoneForced(s, lots);
    trades, realized, unrealizedAtEnd := before, pnl, 0.0;
    var k := 0;
    while k < |lots|
      invariant 0 <= k <= |lots|
      invariant trades == before + Forced(s, lots[..k])
      invariant unrealizedAtEnd == TotalPnl(Forced(s, lots[..k])) && realized == pnl + unrealizedAtEnd
    {
      var trade := CloseLot(s, lots[k], |s.bars| - 1, EndOfData);
      ForcedStep(s, lots, k);
      TotalStep(Forced(s, lots[..k]), trade);
      realized := realized + trade.pnl;
      unrealizedAtEnd := unrealizedAtEnd + trade.pnl;
      trades := trades + [trade];
      k := k + 1;
    }
    assert lots[..k] == lots;
  }

  method SimulateLots(s: Inputs) returns (trades: seq<Trade>, equity: seq<real>, realized: real, unrealizedAtEnd: real)
    ensures trades == Finish(s).trades && equity == Finish(s).equity && realized == Finish(s).realized
    ensures unrealizedAtEnd == realized - After(s, |s.bars|).realized
  {
    hide HandleSignals, Exits, Survivors, Forced, TotalPnl;
    var openLots: seq<SimLot> := [];
    trades, realized, equity := [], 0.0, [];
    var i := 0;
    while i < |s.bars|
      invariant 0 <= i <= |s.bars|
      invariant Walk(openLots, trades, realized, equity) == After(s, i)
    {
      openLots, trades, realized := Signals(s, i, openLots, trades, realized, equity);
      openLots, trades, realized := ExitsOfBar(s, i, openLots, trades, realized);
      equity := equity + [s.p.initialEquity + realized];
      i := i + 1;
    }
    unrealizedAtEnd := 0.0;
    if openLots != [] && |s.bars| > 0 {
      trades, realized, unrealizedAtEnd := ForceClose(s, openLots, trades, realized);
      equity := equity[|equity| - 1 := s.p.initialEquity + realized];
    }
  }
}
