/**
  What every simulation run keeps: no lot is lost or traded twice, equity is what
  the trades so far have earned, and an open lot is one no exit rule has caught.
*/
module SimulatorRuns {
  import opened Common
  import opened LotBook
  import opened Simulator

  // ----- every open becomes one trade

  /** How many of these lots stem from this ticket. */
  function Held(lots: seq<SimLot>, t: Ticket): nat {
    if lots == [] then 0 else (if lots[0].entry.ticket == t then 1 else 0) + Held(lots[1..], t)
  }

  function Traded(trades: seq<Trade>, t: Ticket): nat {
    if trades == [] then 0 else (if trades[0].lot.entry.ticket == t then 1 else 0) + Traded(trades[1..], t)
  }

  function Asks(e: Event, bar: nat, t: Ticket): nat {
    if e.isOpen && Ticket(LotOf(e), bar) == t then 1 else 0
  }

  function OpenedBy(signals: seq<Event>, bar: nat, k: nat, t: Ticket): nat
    requires k <= |signals|
  {
    if k == 0 then 0 else OpenedBy(signals, bar, k - 1, t) + Asks(signals[k - 1], bar, t)
  }

  /** How many open signals of the first n bars asked for just this. */
  function Opened(s: Inputs, n: nat, t: Ticket): nat
    requires n <= |s.bars|
  {
    if n == 0 then 0 else Opened(s, n - 1, t) + OpenedBy(s.signals[n - 1], n - 1, |s.signals[n - 1]|, t)
  }

  lemma {:induction false} HeldAppend(a: seq<SimLot>, b: seq<SimLot>, t: Ticket)
    ensures Held(a + b, t) == Held(a, t) + Held(b, t)
  {
    if a == [] {
      assert a + b == b;
    } else {
      assert (a + b)[1..] == a[1..] + b;
      HeldAppend(a[1..], b, t);
    }
  }

  lemma {:induction false} TradedAppend(a: seq<Trade>, b: seq<Trade>, t: Ticket)
    ensures Traded(a + b, t) == Traded(a, t) + Traded(b, t)
  {
    if a == [] {
      assert a + b == b;
    } else {
      assert (a + b)[1..] == a[1..] + b;
      TradedAppend(a[1..], b, t);
    }
  }

  lemma {:induction false} TakenOut(lots: seq<SimLot>, id: nat, t: Ticket)
    ensures match Find(lots, id)
            case None => Without(lots, id) == lots
            case Some(lot) => Held(lots, t) == Held(Without(lots, id), t) + Held([lot], t)
  {
    if lots != [] && lots[0].entry.ticket.lot.id != id {
      TakenOut(lots[1..], id, t);
      assert ([lots[0]] + Without(lots[1..], id))[1..] == Without(lots[1..], id);
    }
  }

  function Booked(w: Walk, t: Ticket): nat {
    Held(w.open, t) + Traded(w.trades, t)
  }

  lemma SignalBooked(s: Inputs, w: Walk, e: Event, i: nat, t: Ticket)
    requires i < |s.bars| && (e.isOpen ==> e.notional > 0.0)
    ensures Booked(HandleSignal(s, w, e, i), t) == Booked(w, t) + Asks(e, i, t)
  {
    hide Find, Without, FillPrice, FundingBetween, NetFee;
    if e.isOpen {
      HeldAppend(w.open, [OpenLot(s, e, i)], t);
    } else {
      TakenOut(w.open, e.lotId, t);
      match Find(w.open, e.lotId) {
        case None =>
        case Some(lot) => TradedAppend(w.trades, [CloseLot(s, lot, i, OppositeSignal)], t);
      }
    }
  }

  lemma {:induction false} SignalsBooked(s: Inputs, w: Walk, i: nat, k: nat, t: Ticket)
    requires i < |s.bars| && k <= |s.signals[i]|
    ensures Booked(HandleSignals(s, w, i, k), t) == Booked(w, t) + OpenedBy(s.signals[i], i, k, t)
  {
    hide HandleSignal, Booked, Asks;
    if k > 0 {
      SignalsBooked(s, w, i, k - 1, t);
      SignalBooked(s, HandleSignals(s, w, i, k - 1), s.signals[i][k - 1], i, t);
    }
  }

  lemma ExitKeepsTheTicket(s: Inputs, lot: SimLot, i: nat)
    requires i < |s.bars|
    ensures match EvaluateExits(s, lot, i)
            case Stay(after) => after.entry.ticket == lot.entry.ticket
            case Exit(trade) => trade.lot.entry.ticket == lot.entry.ticket && trade.exitBar == i
  {
    hide FillPrice, FundingBetween, NetFee, ProfitFraction, Candidate, Confirmed, MaxHolding, Extension;
  }

  lemma {:induction false} ExitsBooked(s: Inputs, lots: seq<SimLot>, i: nat, t: Ticket)
    requires i < |s.bars|
    ensures Held(Survivors(s, lots, i), t) + Traded(Exits(s, lots, i), t) == Held(lots, t)
  {
    hide EvaluateExits;
    if lots != [] {
      var before, last := lots[..|lots| - 1], lots[|lots| - 1];
      ExitsBooked(s, before, i, t);
      ExitKeepsTheTicket(s, last, i);
      assert lots == before + [last];
      HeldAppend(before, [last], t);
      match EvaluateExits(s, last, i) {
        case Stay(after) =>
          HeldAppend(Survivors(s, before, i), [after], t);
          assert Exits(s, lots, i) == Exits(s, before, i);
        case Exit(trade) =>
          TradedAppend(Exits(s, before, i), [trade], t);
          assert Survivors(s, lots, i) == Survivors(s, before, i);
      }
    }
  }

  /** Open lots and trades together are exactly what has been asked for so far. */
  lemma {:induction false} AlwaysBooked(s: Inputs, n: nat, t: Ticket)
    requires n <= |s.bars|
    ensures Booked(After(s, n), t) == Opened(s, n, t)
  {
    hide HandleSignals, Exits, Survivors, OpenedBy;
    if n > 0 {
      AlwaysBooked(s, n - 1, t);
      var w, i := After(s, n - 1), n - 1;
      SignalsBooked(s, w, i, |s.signals[i]|, t);
      var signalled := HandleSignals(s, w, i, |s.signals[i]|);
      ExitsBooked(s, signalled.open, i, t);
      TradedAppend(signalled.trades, Exits(s, signalled.open, i), t);
    }
  }

  lemma {:induction false} ForcedBooked(s: Inputs, lots: seq<SimLot>, t: Ticket)
    requires |s.bars| > 0
    ensures Traded(Forced(s, lots), t) == Held(lots, t)
  {
    hide FillPrice, FundingBetween, NetFee;
    if lots != [] {
      var before, last := lots[..|lots| - 1], lots[|lots| - 1];
      ForcedBooked(s, before, t);
      assert lots == before + [last];
      HeldAppend(before, [last], t);
      TradedAppend(Forced(s, before), [CloseLot(s, last, |s.bars| - 1, EndOfData)], t);
    }
  }

  /**
    By the end nothing is open, and for every id, side, size and entry bar there
    are as many trade rows as there were open signals asking for just that.
  */
  lemma EveryOpenTradedOnce(s: Inputs, t: Ticket)
    ensures Traded(Finish(s).trades, t) == Opened(s, |s.bars|, t)
    ensures Finish(s).open == []
  {
    hide Forced, BarStep;
    var w := After(s, |s.bars|);
    AlwaysBooked(s, |s.bars|, t);
    if w.open != [] && |s.bars| > 0 {
      ForcedBooked(s, w.open, t);
      TradedAppend(w.trades, Forced(s, w.open), t);
    }
  }

  // ----- equity

  /** What the trades closed at or before a bar have earned. */
  function EarnedBy(trades: seq<Trade>, bar: int): real {
    if trades == [] then 0.0
    else EarnedBy(trades[..|trades| - 1], bar)
         + if trades[|trades| - 1].exitBar <= bar then trades[|trades| - 1].pnl else 0.0
  }

  predicate AllAt(trades: seq<Trade>, bar: nat) {
    forall k :: 0 <= k < |trades| ==> trades[k].exitBar == bar
  }

  predicate AllBefore(trades: seq<Trade>, bar: nat) {
    forall k :: 0 <= k < |trades| ==> trades[k].exitBar < bar
  }

  lemma {:induction false} LaterTradesEarnLater(trades: seq<Trade>, more: seq<Trade>, bar: nat, at: int)
    requires AllAt(more, bar)
    ensures EarnedBy(trades + more, at) == EarnedBy(trades, at) + if bar <= at then TotalPnl(more) else 0.0
  {
    if more == [] {
      assert trades + more == trades;
    } else {
      var before := more[..|more| - 1];
      LaterTradesEarnLater(trades, before, bar, at);
      assert (trades + more)[..|trades + more| - 1] == trades + before;
    }
  }

  lemma {:induction false} EarnedByThen(trades: seq<Trade>, n: nat, at: int)
    requires AllBefore(trades, n) && at >= n - 1
    ensures EarnedBy(trades, at) == TotalPnl(trades)
  {
    if trades != [] {
      EarnedByThen(trades[..|trades| - 1], n, at);
    }
  }

  lemma {:induction false} SignalTrades(s: Inputs, w: Walk, i: nat, k: nat)
    requires i < |s.bars| && k <= |s.signals[i]|
    ensures var v := HandleSignals(s, w, i, k);
            && v.equity == w.equity && |w.trades| <= |v.trades| && v.trades[..|w.trades|] == w.trades
            && AllAt(v.trades[|w.trades|..], i)
            && v.realized == w.realized + TotalPnl(v.trades[|w.trades|..])
  {
    hide OpenLot, Find, Without;
    var v := HandleSignals(s, w, i, k);
    if k > 0 {
      SignalTrades(s, w, i, k - 1);
      var u, e := HandleSignals(s, w, i, k - 1), s.signals[i][k - 1];
      if |v.trades| > |u.trades| {
        assert v.trades[|w.trades|..][..|u.trades| - |w.trades|] == u.trades[|w.trades|..];
      } else {
        assert v.trades == u.trades;
      }
    }
  }

  lemma {:induction false} ExitTrades(s: Inputs, lots: seq<SimLot>, i: nat)
    requires i < |s.bars|
    ensures AllAt(Exits(s, lots, i), i)
  {
    hide EvaluateExits;
    if lots != [] {
      ExitTrades(s, lots[..|lots| - 1], i);
      ExitKeepsTheTicket(s, lots[|lots| - 1], i);
    }
  }

  /** Realized profit is the sum over trades, and each equity row the sum over the trades closed by then. */
  predicate Accounted(s: Inputs, w: Walk, n: nat) {
    && |w.equity| == n && AllBefore(w.trades, n)
    && w.realized == TotalPnl(w.trades)
    && forall i :: 0 <= i < n ==> w.equity[i] == s.p.initialEquity + EarnedBy(w.trades, i)
  }

  lemma {:induction false} TotalAppend(a: seq<Trade>, b: seq<Trade>)
    ensures TotalPnl(a + b) == TotalPnl(a) + TotalPnl(b)
  {
    if b == [] {
      assert a + b == a;
    } else {
      TotalAppend(a, b[..|b| - 1]);
      assert (a + b)[..|a + b| - 1] == a + b[..|b| - 1];
    }
  }

  /** More trades at this bar leave every earlier equity row as it is. */
  lemma MoreTradesAccounted(s: Inputs, w: Walk, more: seq<Trade>, i: nat, v: Walk)
    requires Accounted(s, w, i) && AllAt(more, i)
    requires v.trades == w.trades + more && v.realized == w.realized + TotalPnl(more)
    requires v.equity == w.equity + [s.p.initialEquity + v.realized]
    ensures Accounted(s, v, i + 1)
  {
    hide TotalPnl, EarnedBy;
    TotalAppend(w.trades, more);
    forall j | 0 <= j < i + 1 ensures v.equity[j] == s.p.initialEquity + EarnedBy(v.trades, j) {
      LaterTradesEarnLater(w.trades, more, i, j);
      if j == i {
        EarnedByThen(w.trades, i, j);
      }
    }
  }

  lemma {:induction false} AlwaysAccounted(s: Inputs, n: nat)
    requires n <= |s.bars|
    ensures Accounted(s, After(s, n), n)
  {
    hide HandleSignals, Exits, Survivors, TotalPnl, EarnedBy, AllAt, Accounted;
    if n == 0 {
      NothingIsAccounted(s);
    } else {
      AlwaysAccounted(s, n - 1);
      var w, i := After(s, n - 1), n - 1;
      SignalTrades(s, w, i, |s.signals[i]|);
      var u := HandleSignals(s, w, i, |s.signals[i]|);
      var exits := Exits(s, u.open, i);
      ExitTrades(s, u.open, i);
      var more := u.trades[|w.trades|..] + exits;
      TotalAppend(u.trades[|w.trades|..], exits);
      assert u.trades + exits == w.trades + more;
      BothAt(u.trades[|w.trades|..], exits, i);
      MoreTradesAccounted(s, w, more, i, After(s, n));
    }
  }

  lemma NothingIsAccounted(s: Inputs)
    ensures Accounted(s, After(s, 0), 0)
  {
  }

  lemma BothAt(a: seq<Trade>, b: seq<Trade>, bar: nat)
    requires AllAt(a, bar) && AllAt(b, bar)
    ensures AllAt(a + b, bar)
  {
  }

  lemma {:induction false} ForcedAtTheEnd(s: Inputs, lots: seq<SimLot>)
    requires |s.bars| > 0
    ensures AllAt(Forced(s, lots), |s.bars| - 1)
  {
    hide FillPrice, FundingBetween, NetFee;
    if lots != [] {
      ForcedAtTheEnd(s, lots[..|lots| - 1]);
    }
  }

  /**
    Over the whole run: every equity row is the initial equity plus the pnl of the
    trades closed by that bar, the last row includes the forced closes, and the
    realized profit is the sum of all trade rows.
  */
  lemma EquityIsWhatTradesEarned(s: Inputs)
    ensures var w := Finish(s);
            && |w.equity| == |s.bars| && w.realized == TotalPnl(w.trades)
            && forall i :: 0 <= i < |s.bars| ==> w.equity[i] == s.p.initialEquity + EarnedBy(w.trades, i)
  {
    hide Forced, BarStep, TotalPnl, EarnedBy;
    var w, n := After(s, |s.bars|), |s.bars|;
    AlwaysAccounted(s, n);
    if w.open != [] && n > 0 {
      var forced, v := Forced(s, w.open), Finish(s);
      ForcedAtTheEnd(s, w.open);
      TotalAppend(w.trades, forced);
      forall i | 0 <= i < n ensures v.equity[i] == s.p.initialEquity + EarnedBy(v.trades, i) {
        LaterTradesEarnLater(w.trades, forced, n - 1, i);
        if i == n - 1 {
          EarnedByThen(w.trades, n, i);
        }
      }
    }
  }

  // ----- what a round trip costs

  /** Slippage always works against the lot: dearer to enter and cheaper to leave, whichever side it is on. */
  lemma SlippageWorksAgainstTheLot(s: Inputs, e: Event, i: nat, j: nat, reason: Reason)
    requires i < |s.bars| && j < |s.bars| && e.isOpen && e.notional > 0.0 && s.p.slippage >= 0.0
    ensures var lot := OpenLot(s, e, i);
            var exit := CloseLot(s, lot, j, reason).exitPrice;
            if e.side.Long? then lot.entry.price >= s.bars[i].close && exit <= s.bars[j].close
            else lot.entry.price <= s.bars[i].close && exit >= s.bars[j].close
  {
    hide NetFee, FundingBetween;
    SlippageAround(s.bars[i].close, s.p.slippage);
    SlippageAround(s.bars[j].close, s.p.slippage);
  }

  lemma SlippageAround(close: real, slippage: real)
    requires close > 0.0 && slippage >= 0.0
    ensures FillPrice(close, false, slippage) <= close <= FillPrice(close, true, slippage)
  {
    assert close * slippage >= 0.0;
    assert close * (1.0 + slippage) == close + close * slippage;
    assert close * (1.0 - slippage) == close - close * slippage;
  }

  function Fees(t: Trade): real {
    t.lot.entry.fee + t.exitFee
  }

  /**
    A long and a short of one size, opened and closed together without slippage,
    cancel but for their fees: price move and funding of one are the other's, negated.
  */
  lemma OppositeLotsPayOnlyFees(s: Inputs, long: Event, short: Event, i: nat, j: nat, reason: Reason)
    requires i < |s.bars| && j < |s.bars| && s.p.slippage == 0.0
    requires long.isOpen && short.isOpen && long.notional == short.notional > 0.0
    requires long.side.Long? && short.side.Short?
    ensures var a, b := CloseLot(s, OpenLot(s, long, i), j, reason), CloseLot(s, OpenLot(s, short, i), j, reason);
            a.pnl + b.pnl == -(Fees(a) + Fees(b)) && a.fundingCost + b.fundingCost == 0.0
  {
    hide NetFee, FundingBetween, FillPrice;
    NoSlippage(s.bars[i].close);
    NoSlippage(s.bars[j].close);
    var a, b := CloseLot(s, OpenLot(s, long, i), j, reason), CloseLot(s, OpenLot(s, short, i), j, reason);
    var price := s.bars[i].close;
    var move, qty := s.bars[j].close - price, long.notional / price;
    assert a.lot.entry.qty == qty && b.lot.entry.qty == qty;
    var funding := FundingBetween(s.funding, s.bars[i].time, s.bars[j].time);
    Negated(funding, long.notional);
    Mirrored(move, qty);
  }

  lemma NoSlippage(close: real)
    ensures FillPrice(close, true, 0.0) == close == FillPrice(close, false, 0.0)
  {
  }

  lemma Negated(x: real, y: real)
    ensures 1.0 * x * y + -1.0 * x * y == 0.0
  {
  }

  lemma Mirrored(x: real, y: real)
    ensures x * y * 1.0 + x * y * -1.0 == 0.0
  {
  }
}
