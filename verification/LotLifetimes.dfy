/**
  Why an open lot is open and why a trade closed, read off the bars alone: each
  exit rule is stated over the lot's whole life, not as the flags the loop updates.
*/
module LotLifetimes {
  import opened Common
  import opened LotBook
  import opened Simulator

  /** The lot has been profitable enough to trail at some bar from its entry up to j. */
  predicate Armed(s: Inputs, entry: Entry, j: nat)
    requires j < |s.bars|
  {
    exists k :: entry.ticket.bar <= k <= j && Profitable(s, entry, k)
  }

  /** At bar j the lot is trailing and the bar offers a stop. */
  predicate Offered(s: Inputs, entry: Entry, j: nat)
    requires j < |s.bars|
  {
    entry.ticket.bar <= j && Armed(s, entry, j) && s.atr[j].Some?
  }

  function Offer(s: Inputs, entry: Entry, j: nat): real
    requires j < |s.bars| && s.atr[j].Some?
  {
    Candidate(s, entry.ticket.lot.side, j).value
  }

  predicate NoStopLoss(s: Inputs, entry: Entry, n: nat)
    requires n <= |s.bars|
  {
    forall j :: entry.ticket.bar <= j < n ==> !StopLossHit(s, entry, j)
  }

  /** The stop is the tightest offered since the lot began to trail, over the bars before n. */
  predicate TightestStop(s: Inputs, entry: Entry, stop: Option<real>, n: nat)
    requires n <= |s.bars|
  {
    match stop
    case None => forall j :: 0 <= j < n ==> !Offered(s, entry, j)
    case Some(best) =>
      && (forall j :: 0 <= j < n && Offered(s, entry, j) ==> !Tighter(entry.ticket.lot.side, Offer(s, entry, j), best))
      && (exists j :: 0 <= j < n && Offered(s, entry, j) && Offer(s, entry, j) == best)
  }

  /** No bar before n that checks the stop closed beyond a stop offered up to then. */
  predicate NeverStoppedOut(s: Inputs, entry: Entry, n: nat)
    requires n <= |s.bars|
  {
    forall k, j :: 0 <= k <= j < n && Offered(s, entry, k) && s.atr[j].Some? ==>
      !Tighter(entry.ticket.lot.side, Offer(s, entry, k), s.bars[j].close)
  }

  /** A confirming review at bar r gave the lot the extension it is still in. */
  predicate ExtendedAt(s: Inputs, lot: SimLot, r: nat, n: nat)
    requires n <= |s.bars|
  {
    && lot.entry.ticket.bar <= r < n && r - lot.entry.ticket.bar >= MaxHolding(s) && Confirmed(s, SideOf(lot), r)
    && lot.openBar == r - MaxHolding(s) + Extension(s)
    && (r == n - 1 || n - 1 - r < Extension(s))
  }

  predicate HoldingAllowed(s: Inputs, lot: SimLot, n: nat)
    requires n <= |s.bars|
  {
    || (lot.openBar == lot.entry.ticket.bar
        && (n == lot.entry.ticket.bar || n - 1 - lot.entry.ticket.bar < MaxHolding(s)))
    || exists r: nat | r < n :: ExtendedAt(s, lot, r, n)
  }

  /** An open lot after the bars before n: no exit rule applied at any of its bars. */
  predicate RightlyOpen(s: Inputs, lot: SimLot, n: nat)
    requires n <= |s.bars|
  {
    && lot.entry.ticket.bar <= n
    && NoStopLoss(s, lot.entry, n)
    && (lot.trailingActive <==> n > lot.entry.ticket.bar && Armed(s, lot.entry, n - 1))
    && TightestStop(s, lot.entry, lot.trailingStop, n)
    && NeverStoppedOut(s, lot.entry, n)
    && HoldingAllowed(s, lot, n)
  }

  /** Never extended, or the last extension, given by a confirming review, has run its full length. */
  predicate TimeIsUp(s: Inputs, lot: SimLot, n: nat)
    requires n <= |s.bars|
  {
    || lot.openBar == lot.entry.ticket.bar
    || exists r: nat | r < n :: LastExtended(s, lot, r) && n - r >= Extension(s)
  }

  predicate LastExtended(s: Inputs, lot: SimLot, r: nat)
    requires r < |s.bars|
  {
    Confirmed(s, SideOf(lot), r) && lot.openBar == r - MaxHolding(s) + Extension(s)
  }

  predicate ClosedBySignal(s: Inputs, t: Trade)
    requires t.exitBar < |s.bars|
  {
    exists k :: 0 <= k < |s.signals[t.exitBar]| && !s.signals[t.exitBar][k].isOpen
                && s.signals[t.exitBar][k].lotId == t.lot.entry.ticket.lot.id
  }

  /** The first rule, in the order they are checked, that applies at the exit bar is the reason given. */
  predicate RightReason(s: Inputs, t: Trade)
    requires t.exitBar < |s.bars|
  {
    var entry := t.lot.entry;
    match t.reason
    case OppositeSignal => ClosedBySignal(s, t)
    case StopLoss => StopLossHit(s, entry, t.exitBar)
    case Trailing =>
      && !StopLossHit(s, entry, t.exitBar)
      && t.lot.trailingStop.Some? && TightestStop(s, entry, t.lot.trailingStop, t.exitBar + 1)
      && Tighter(SideOf(t.lot), t.lot.trailingStop.value, s.bars[t.exitBar].close)
    case Holding =>
      && !StopLossHit(s, entry, t.exitBar) && NeverStoppedOut(s, entry, t.exitBar + 1)
      && t.exitBar - entry.ticket.bar >= MaxHolding(s) && !Confirmed(s, SideOf(t.lot), t.exitBar)
      && TimeIsUp(s, t.lot, t.exitBar)
    case EndOfData => t.exitBar == |s.bars| - 1
  }

  /** A lot exits for its reason, and no rule applied at any earlier bar. */
  predicate RightlyClosed(s: Inputs, t: Trade) {
    && t.exitBar < |s.bars| && t.lot.entry.ticket.bar <= t.exitBar
    && NoStopLoss(s, t.lot.entry, t.exitBar) && NeverStoppedOut(s, t.lot.entry, t.exitBar)
    && RightReason(s, t)
  }

  // ----- one lot, one bar

  lemma ArmingGoesOn(s: Inputs, lot: SimLot, n: nat)
    requires n < |s.bars| && lot.entry.ticket.bar <= n
    requires lot.trailingActive <==> n > lot.entry.ticket.bar && Armed(s, lot.entry, n - 1)
    ensures Arm(s, lot, n).trailingActive <==> Armed(s, lot.entry, n)
  {
    hide Profitable;
    if n > lot.entry.ticket.bar && Armed(s, lot.entry, n - 1) {
      var k :| lot.entry.ticket.bar <= k <= n - 1 && Profitable(s, lot.entry, k);
      assert Armed(s, lot.entry, n);
    }
  }

  lemma TrailingKeepsTheTightest(s: Inputs, lot: SimLot, n: nat)
    requires n < |s.bars| && lot.entry.ticket.bar <= n
    requires lot.trailingActive <==> Armed(s, lot.entry, n)
    requires TightestStop(s, lot.entry, lot.trailingStop, n)
    ensures TightestStop(s, lot.entry, Trail(s, lot, n).trailingStop, n + 1)
  {
    hide Armed, Buffered, SwingLow, SwingHigh, WindowStart;
    if Offered(s, lot.entry, n) {
      assert Candidate(s, SideOf(lot), n) == Some(Offer(s, lot.entry, n));
    }
  }

  lemma NotHitMeansNeverStoppedOut(s: Inputs, lot: SimLot, n: nat)
    requires n < |s.bars| && lot.entry.ticket.bar <= n
    requires (lot.trailingActive <==> Armed(s, lot.entry, n)) && TightestStop(s, lot.entry, lot.trailingStop, n + 1)
    requires NeverStoppedOut(s, lot.entry, n) && !TrailHit(s, lot, n)
    ensures NeverStoppedOut(s, lot.entry, n + 1)
  {
    hide Offer, Profitable;
    forall k | 0 <= k <= n && Offered(s, lot.entry, k) && s.atr[n].Some?
      ensures !Tighter(SideOf(lot), Offer(s, lot.entry, k), s.bars[n].close)
    {
      assert Armed(s, lot.entry, n);
      assert !Tighter(SideOf(lot), Offer(s, lot.entry, k), lot.trailingStop.value);
    }
  }

  lemma ReviewAllows(s: Inputs, lot: SimLot, n: nat)
    requires n < |s.bars| && lot.entry.ticket.bar <= n && HoldingAllowed(s, lot, n)
    ensures match Review(s, lot, n)
            case Stay(after) => HoldingAllowed(s, after, n + 1)
                                && after == lot.(openBar := after.openBar, extended := after.extended)
            case Exit(trade) => n - lot.entry.ticket.bar >= MaxHolding(s) && !Confirmed(s, SideOf(lot), n)
                                && TimeIsUp(s, lot, n) && trade == CloseLot(s, lot, n, Holding)
  {
    hide CloseLot, Confirmed, MaxHolding, Extension;
    if !(lot.openBar == lot.entry.ticket.bar
         && (n == lot.entry.ticket.bar || n - 1 - lot.entry.ticket.bar < MaxHolding(s))) {
      var r: nat :| r < n && ExtendedAt(s, lot, r, n);
      assert n - lot.openBar < MaxHolding(s) ==> ExtendedAt(s, lot, r, n + 1);
      assert LastExtended(s, lot, r);
    }
    var outcome := Review(s, lot, n);
    if n - lot.openBar >= MaxHolding(s) && Confirmed(s, SideOf(lot), n) {
      assert ExtendedAt(s, outcome.lot, n, n + 1);
    }
  }

  lemma NoStopLossNow(s: Inputs, entry: Entry, n: nat)
    requires n < |s.bars| && NoStopLoss(s, entry, n) && !StopLossHit(s, entry, n)
    ensures NoStopLoss(s, entry, n + 1)
  {
  }

  /** Evaluating a rightly open lot leaves it rightly open, or closes it for the right reason. */
  lemma EvaluationIsRight(s: Inputs, lot: SimLot, n: nat)
    requires n < |s.bars| && RightlyOpen(s, lot, n)
    ensures match EvaluateExits(s, lot, n)
            case Stay(after) => RightlyOpen(s, after, n + 1) && after.entry == lot.entry
            case Exit(trade) => RightlyClosed(s, trade) && trade.exitBar == n
  {
    hide StopLossHit, Profitable, Candidate, Confirmed, MaxHolding, Extension, FillPrice, FundingBetween, NetFee,
         Armed, NoStopLoss, TightestStop, NeverStoppedOut, HoldingAllowed, Review, Arm, Trail, Tighter;
    var armed := Arm(s, lot, n);
    var trailed := Trail(s, armed, n);
    OnlyTheTrailChanges(s, lot, n);
    if !StopLossHit(s, lot.entry, n) {
      NoStopLossNow(s, lot.entry, n);
      ArmingGoesOn(s, lot, n);
      TrailingKeepsTheTightest(s, armed, n);
      if !TrailHit(s, trailed, n) {
        NotHitMeansNeverStoppedOut(s, trailed, n);
        SameHolding(s, lot, trailed, n);
        ReviewAllows(s, trailed, n);
      }
    }
  }

  lemma OnlyTheTrailChanges(s: Inputs, lot: SimLot, n: nat)
    requires n < |s.bars|
    ensures Arm(s, lot, n) == lot.(trailingActive := Arm(s, lot, n).trailingActive)
    ensures var armed := Arm(s, lot, n); Trail(s, armed, n) == armed.(trailingStop := Trail(s, armed, n).trailingStop)
  {
  }

  lemma SameHolding(s: Inputs, a: SimLot, b: SimLot, n: nat)
    requires n <= |s.bars| && a.entry == b.entry && a.openBar == b.openBar && HoldingAllowed(s, a, n)
    ensures HoldingAllowed(s, b, n)
  {
    if r: nat :| r < n && ExtendedAt(s, a, r, n) {
      assert ExtendedAt(s, b, r, n);
    }
  }

  // ----- the whole run

  predicate AllRightlyOpen(s: Inputs, lots: seq<SimLot>, n: nat)
    requires n <= |s.bars|
  {
    forall k :: 0 <= k < |lots| ==> RightlyOpen(s, lots[k], n)
  }

  predicate EnteredBefore(lots: seq<SimLot>, n: nat) {
    forall k :: 0 <= k < |lots| ==> lots[k].entry.ticket.bar < n
  }

  predicate AllRightlyClosed(s: Inputs, trades: seq<Trade>) {
    forall k :: 0 <= k < |trades| ==> RightlyClosed(s, trades[k])
  }

  lemma FreshLotIsRight(s: Inputs, e: Event, i: nat)
    requires i < |s.bars| && e.isOpen && e.notional > 0.0
    ensures RightlyOpen(s, OpenLot(s, e, i), i)
  {
    hide FillPrice, NetFee, StopLossHit, Armed, Candidate, Confirmed;
  }

  lemma {:induction false} FoundAmong(lots: seq<SimLot>, id: nat)
    ensures forall lot :: lot in Without(lots, id) ==> lot in lots
    ensures Find(lots, id).Some? ==> Find(lots, id).value in lots && Find(lots, id).value.entry.ticket.lot.id == id
  {
    if lots != [] {
      FoundAmong(lots[1..], id);
    }
  }

  lemma SignalIsRight(s: Inputs, w: Walk, i: nat, k: nat)
    requires i < |s.bars| && k < |s.signals[i]|
    requires AllRightlyOpen(s, w.open, i) && AllRightlyClosed(s, w.trades)
    ensures var v := HandleSignal(s, w, s.signals[i][k], i);
            AllRightlyOpen(s, v.open, i) && AllRightlyClosed(s, v.trades)
  {
    hide NoStopLoss, TightestStop, NeverStoppedOut, HoldingAllowed, Armed, Find, Without, OpenLot,
         FillPrice, FundingBetween, NetFee;
    var e := s.signals[i][k];
    var v := HandleSignal(s, w, e, i);
    if e.isOpen {
      FreshLotIsRight(s, e, i);
    } else {
      FoundAmong(w.open, e.lotId);
      forall j | 0 <= j < |v.open| ensures RightlyOpen(s, v.open[j], i) {
        assert v.open[j] in w.open;
      }
      if Find(w.open, e.lotId).Some? {
        var trade := CloseLot(s, Find(w.open, e.lotId).value, i, OppositeSignal);
        assert RightlyOpen(s, trade.lot, i);
        assert ClosedBySignal(s, trade);
      }
    }
  }

  lemma {:induction false} SignalsAreRight(s: Inputs, w: Walk, i: nat, k: nat)
    requires i < |s.bars| && k <= |s.signals[i]|
    requires AllRightlyOpen(s, w.open, i) && AllRightlyClosed(s, w.trades)
    ensures var v := HandleSignals(s, w, i, k);
            AllRightlyOpen(s, v.open, i) && AllRightlyClosed(s, v.trades)
  {
    hide AllRightlyOpen, AllRightlyClosed, HandleSignal;
    if k > 0 {
      SignalsAreRight(s, w, i, k - 1);
      SignalIsRight(s, HandleSignals(s, w, i, k - 1), i, k - 1);
    }
  }

  lemma OpenSinceEntry(s: Inputs, lot: SimLot, n: nat)
    requires n <= |s.bars| && RightlyOpen(s, lot, n)
    ensures lot.entry.ticket.bar <= n
  {
  }

  lemma {:induction false} ExitsAreRight(s: Inputs, lots: seq<SimLot>, i: nat)
    requires i < |s.bars| && AllRightlyOpen(s, lots, i)
    ensures AllRightlyOpen(s, Survivors(s, lots, i), i + 1) && AllRightlyClosed(s, Exits(s, lots, i))
    ensures EnteredBefore(Survivors(s, lots, i), i + 1)
  {
    hide RightlyOpen, RightlyClosed, EvaluateExits;
    if lots != [] {
      var last := lots[|lots| - 1];
      ExitsAreRight(s, lots[..|lots| - 1], i);
      EvaluationIsRight(s, last, i);
      assert RightlyOpen(s, last, i);
      OpenSinceEntry(s, last, i);
    }
  }

  /**
    After every bar, an open lot has met no exit rule at any bar of its life, its
    stop is the tightest offered since it began to trail, and each trade closed
    for a reason that holds.
  */
  lemma {:induction false} LotsAndTradesAreRight(s: Inputs, n: nat)
    requires n <= |s.bars|
    ensures AllRightlyOpen(s, After(s, n).open, n) && AllRightlyClosed(s, After(s, n).trades)
    ensures EnteredBefore(After(s, n).open, n)
  {
    hide RightlyOpen, RightlyClosed, HandleSignals, Exits, Survivors;
    if n > 0 {
      LotsAndTradesAreRight(s, n - 1);
      var w, i := After(s, n - 1), n - 1;
      SignalsAreRight(s, w, i, |s.signals[i]|);
      ExitsAreRight(s, HandleSignals(s, w, i, |s.signals[i]|).open, i);
    }
  }

  lemma {:induction false} ForcedAreRight(s: Inputs, lots: seq<SimLot>)
    requires |s.bars| > 0 && AllRightlyOpen(s, lots, |s.bars|)
    requires EnteredBefore(lots, |s.bars|)
    ensures AllRightlyClosed(s, Forced(s, lots))
  {
    hide NoStopLoss, TightestStop, NeverStoppedOut, HoldingAllowed, Armed, FillPrice, FundingBetween, NetFee;
    if lots != [] {
      var last := lots[|lots| - 1];
      ForcedAreRight(s, lots[..|lots| - 1]);
      RulesHeldBefore(s, last.entry, |s.bars| - 1);
    }
  }

  lemma RulesHeldBefore(s: Inputs, entry: Entry, n: nat)
    requires n < |s.bars| && NoStopLoss(s, entry, n + 1) && NeverStoppedOut(s, entry, n + 1)
    ensures NoStopLoss(s, entry, n) && NeverStoppedOut(s, entry, n)
  {
  }

  /** The whole run: every trade row, forced closes included, has a reason that holds. */
  lemma EveryTradeIsRight(s: Inputs)
    ensures AllRightlyClosed(s, Finish(s).trades)
  {
    hide RightlyOpen, RightlyClosed, BarStep, Forced;
    LotsAndTradesAreRight(s, |s.bars|);
    if |s.bars| > 0 {
      ForcedAreRight(s, After(s, |s.bars|).open);
    }
  }

  /** Later bars never loosen the stop. */
  lemma StopOnlyTightens(s: Inputs, entry: Entry, a: real, n: nat, b: real, m: nat)
    requires n <= m <= |s.bars| && TightestStop(s, entry, Some(a), n) && TightestStop(s, entry, Some(b), m)
    ensures !Tighter(entry.ticket.lot.side, a, b)
  {
    hide Offer, Armed;
  }

  /** A lot held past its holding time had a confirming review within the last extension window. */
  lemma LongHeldMeansConfirmed(s: Inputs, n: nat, k: nat)
    requires 0 < n <= |s.bars| && k < |After(s, n).open|
    requires n - 1 - After(s, n).open[k].entry.ticket.bar >= MaxHolding(s)
    ensures var lot := After(s, n).open[k];
            exists r: nat :: r < n && Confirmed(s, SideOf(lot), r) && (r == n - 1 || n - 1 - r < Extension(s))
  {
    hide After;
    LotsAndTradesAreRight(s, n);
    var lot := After(s, n).open[k];
    assert RightlyOpen(s, lot, n);
    var r: nat :| r < n && ExtendedAt(s, lot, r, n);
  }
}
