/**
  The executor over many intents, many ticks and any number of crashes. The ghost
  journal remembers, per intent, the one run whose orders the exchange took on.
*/
module ExecutorLoop {
  import opened Common
  import opened ClientOid
  import opened Sizing
  import opened ExchangeModel
  import opened Journal
  import opened Risk
  import opened Store
  import opened Driver
  import E = Execution

  /** The run that placed an intent's orders: what it was decided on, and the orders. */
  datatype Entry = Entry(intent: TradeIntent, account: Account, market: Market, position: real, plan: Plan,
                         attempts: seq<Attempt>, bases: seq<Basis>)

  /** How the entry gates and the sizing arrive at a plan. */
  ghost predicate PlanFrom(intent: TradeIntent, account: Account, params: RiskParams, market: Market, position: real,
                           plan: Plan)
  {
    if intent.action.Close? then
      plan.isClose && plan.target == position > DUST_BASE
    else
      && intent.action.Open? && !plan.isClose
      && CheckIntent(intent, account, params).Ok?
      && plan.makerRef == ReferencePrice(Maker, OrderSideOf(intent), market) && plan.makerRef > 0.0
      && plan.target == CheckIntent(intent, account, params).value / plan.makerRef
  }

  ghost predicate EntryOk(id: string, makers: nat, params: RiskParams, e: Entry, book: Book) {
    && e.intent.id == id && e.attempts != []
    && Sound(e.plan) && PlanFrom(e.intent, e.account, params, e.market, e.position, e.plan)
    && Consistent(id, makers, e.plan, e.attempts, book)
    && EachBased(makers, params, e)
  }

  /** Each order was priced off a market, and passed by the risk gate on an account. */
  ghost predicate EachBased(makers: nat, params: RiskParams, e: Entry) {
    && |e.bases| == |e.attempts|
    && forall i :: 0 <= i < |e.attempts| ==> BasedOn(e.intent, params, makers, e.attempts[i], i, e.bases[i])
  }

  /** As above, and each market and account but the first maker's had just been asked for. */
  ghost predicate FreshlyBased(makers: nat, params: RiskParams, e: Entry, log: seq<Call>) {
    AllBased(e.intent, params, makers, e.attempts, e.bases, Basis(e.market, e.account, 0), log)
  }

  ghost function FillsOf(id: string, makers: nat, e: Entry, book: Book): seq<Leg> {
    Legs(id, makers, e.attempts, book)
  }

  /** The local rows record exactly what the entry's orders filled. */
  ghost predicate RowsMatch(id: string, makers: nat, e: Entry, book: Book, rows: map<string, OrderRow>) {
    forall i :: 0 <= i < |e.attempts| ==>
      var oid := OidAt(id, makers, i);
      oid in rows && rows[oid].filledSize == FilledOf(book, oid)
  }

  /** A gate on entry refuses the intent before anything is placed. */
  predicate Gated(intent: TradeIntent, account: Account, params: RiskParams, operatorStop: bool, manualOverride: bool) {
    || (IsOpening(intent.action) && (operatorStop || manualOverride))
    || !(intent.action.Open? || intent.action.Close?)
    || CheckIntent(intent, account, params).Err?
  }

  /** A close has a position to close, an open a price to size it by. */
  predicate SomethingToSize(intent: TradeIntent, market: Market, position: Option<real>) {
    if intent.action.Close? then position.Some? && position.value > DUST_BASE
    else ReferencePrice(Maker, OrderSideOf(intent), market) > 0.0
  }

  /** A gate refuses an intent only for the reason given. */
  predicate RefusedFor(ending: Ending, intent: TradeIntent, account: Account, params: RiskParams, waiting: bool,
                       operatorStop: bool, manualOverride: bool)
  {
    ending.Rejected? &&
    match ending.why
    case NotWaiting => !waiting
    case Stopped => waiting && operatorStop && IsOpening(intent.action)
    case Overridden => waiting && manualOverride && IsOpening(intent.action)
    case Unsupported => waiting && !intent.action.Open? && !intent.action.Close?
    case RiskRefused => waiting && CheckIntent(intent, account, params).Err?
    case _ => false
  }

  /** An admitted intent is left unsized only for want of a position, of an answer about it, or of a price. */
  predicate UnsizedFor(ending: Ending, intent: TradeIntent, market: Market, position: Option<real>) {
    if intent.action.Close? then
      if position.None? then ending == InfraError else ending == Rejected(NothingHeld) && position.value <= DUST_BASE
    else
      ending == InfraError && ReferencePrice(Maker, OrderSideOf(intent), market) <= 0.0
  }

  /** What a finished run had reached, on the orders it placed. */
  ghost predicate Reached(id: string, makers: nat, e: Entry, book: Book)
    requires e.attempts != []
  {
    Ended(id, makers, e.plan, e.attempts, book, Base(FillsOf(id, makers, e, book)))
  }

  /**
    A close that is done is within one lot of its position, unless its last order
    ended short of its size: the exchange called it filled, or it was the taker and vanished.
  */
  lemma DoneCloseReachesTheTarget(id: string, makers: nat, params: RiskParams, e: Entry, book: Book)
    requires EntryOk(id, makers, params, e, book) && e.plan.isClose && Reached(id, makers, e, book)
    ensures var fills, last := FillsOf(id, makers, e, book), OidAt(id, makers, |e.attempts| - 1);
            || Base(fills) > e.plan.target - MIN_ORDER_BASE
            || (last in book && book[last].filled < book[last].size
                && (book[last].phase.Filled? || (book[last].phase.Vanished? && |e.attempts| == makers + 1)))
  {
    hide PlacedSize, OidAt, OfIntent;
    KeepsKnownAndSized(id, makers, e.plan, e.attempts, book);
    var fills := FillsOf(id, makers, e, book);
    if fills[|fills| - 1].filled == fills[|fills| - 1].size {
      FullLastLegReachesTarget(e.plan, fills);
    }
  }

  /** Now and after anything the exchange does next: one order per attempt, and none of them double-fills a close. */
  lemma CloseGuarantee(id: string, makers: nat, params: RiskParams, e: Entry, book: Book, later: Book)
    requires EntryOk(id, makers, params, e, book) && Quiet(id, book, later) && e.plan.isClose
    ensures |set k | k in later && OfIntent(id, k)| <= makers + 1
    ensures Base(FillsOf(id, makers, e, later)) <= e.plan.target + SLACK
  {
    ConsistentPersists(id, makers, e.plan, e.attempts, book, later);
    AtMostOneOrderPerAttempt(id, makers, e.attempts, later);
    CloseNeverOverfills(e.plan, FillsOf(id, makers, e, later));
  }

  /**
    Now and after anything the exchange does next, for an open: one order per
    attempt; priced nowhere below `lo` it stays within the approved base at `lo`;
    priced nowhere above its maker reference it keeps the account's gross
    notional under the cap, up to one rounding slack.
  */
  lemma OpenGuarantee(id: string, makers: nat, params: RiskParams, e: Entry, book: Book, later: Book, lo: real)
    requires EntryOk(id, makers, params, e, book) && Quiet(id, book, later) && !e.plan.isClose
    requires 0.0 < lo <= e.plan.makerRef
    ensures |set k | k in later && OfIntent(id, k)| <= makers + 1
    ensures (forall i :: 0 <= i < |e.attempts| ==> lo <= e.attempts[i].refPrice) ==>
              (Base(FillsOf(id, makers, e, later)) - SLACK) * lo <= CheckIntent(e.intent, e.account, params).value
    ensures (forall i :: 0 <= i < |e.attempts| ==> e.attempts[i].refPrice <= e.plan.makerRef) ==>
              e.account.grossNotional + Notional(FillsOf(id, makers, e, later))
              <= e.account.equity * params.capXEquity + SLACK * e.plan.makerRef
  {
    hide Consistent, Known, Sized, CheckIntent, OidAt, Notional, Base;
    ConsistentPersists(id, makers, e.plan, e.attempts, book, later);
    KeepsKnownAndSized(id, makers, e.plan, e.attempts, later);
    AtMostOneOrderPerAttempt(id, makers, e.attempts, later);
    var fills, approved := FillsOf(id, makers, e, later), CheckIntent(e.intent, e.account, params).value;
    DivideThenMultiply(approved, e.plan.makerRef);
    if forall i :: 0 <= i < |e.attempts| ==> lo <= e.attempts[i].refPrice {
      OpenBaseBound(e.plan, fills, lo);
    }
    if forall i :: 0 <= i < |e.attempts| ==> e.attempts[i].refPrice <= e.plan.makerRef {
      OpenNotionalBound(e.plan, fills, e.plan.makerRef);
      Distribute(e.plan.target, SLACK, e.plan.makerRef);
      ApprovedOpenFitsCap(e.intent, e.account, params);
    }
  }

  lemma KeepsKnownAndSized(id: string, makers: nat, plan: Plan, attempts: seq<Attempt>, book: Book)
    requires Consistent(id, makers, plan, attempts, book)
    ensures Known(id, makers, attempts, book) && Sized(plan, Legs(id, makers, attempts, book))
  {
  }

  lemma EntryPersists(id: string, makers: nat, params: RiskParams, e: Entry, book: Book, later: Book)
    requires EntryOk(id, makers, params, e, book) && Quiet(id, book, later)
    ensures EntryOk(id, makers, params, e, later)
  {
    ConsistentPersists(id, makers, e.plan, e.attempts, book, later);
  }

  lemma FirstOrderIsThere(id: string, makers: nat, params: RiskParams, e: Entry, book: Book)
    requires EntryOk(id, makers, params, e, book)
    ensures OidAt(id, makers, 0) in book && OfIntent(id, OidAt(id, makers, 0))
  {
    KeepsKnownAndSized(id, makers, e.plan, e.attempts, book);
  }

  /** Orders of one intent are no orders of another. */
  lemma OthersStayQuiet(id: string, other: string, book: Book, later: Book)
    requires OnlyAdds(id, book, later) && other != id
    ensures Quiet(other, book, later)
  {
    forall k | k in later && k !in book ensures !OfIntent(other, k) {
      if OfIntent(other, k) {
        OfOneIntent(id, other, k);
      }
    }
  }

  lemma ApprovedIsSound(intent: TradeIntent, account: Account, params: RiskParams, makerRef: real)
    requires intent.action.Open? && CheckIntent(intent, account, params).Ok? && makerRef > 0.0
    ensures CheckIntent(intent, account, params).value / makerRef > 0.0
  {
  }

  lemma RunIsAnEntry(makers: nat, params: RiskParams, e: Entry, book: Book)
    requires Sound(e.plan) && PlanFrom(e.intent, e.account, params, e.market, e.position, e.plan)
    requires Consistent(e.intent.id, makers, e.plan, e.attempts, book) && EachBased(makers, params, e)
    ensures e.attempts != [] ==> EntryOk(e.intent.id, makers, params, e, book)
    ensures Retired(e.intent.id, makers, |e.attempts|, book) ==> NoneWorking(e.intent.id, book)
  {
    if Retired(e.intent.id, makers, |e.attempts|, book) {
      RetiredMeansNoneWorking(e.intent.id, makers, e.attempts, book);
    }
  }

  /** A local position row of this system on the symbol. */
  datatype Holding = Holding(side: Side, notional: real, entryPrice: real)

  /** What a pass sees when it comes to an intent; None is a request that failed or data that is stale. */
  datatype Look = Look(operatorStop: bool, cached: Option<Market>, account: Option<Account>, snapshotWritten: bool,
                       ticker: Option<Market>, position: Option<real>, symbol: string,
                       working: seq<string>, holdings: seq<Holding>)

  /** The intent is failed by the stop, or everything needed to process it is there. */
  predicate WorkedOn(intent: TradeIntent, look: Look) {
    if IsOpening(intent.action) then
      look.operatorStop || (look.cached.Some? && look.account.Some? && look.snapshotWritten)
    else
      look.account.Some? && look.snapshotWritten && look.ticker.Some?
  }

  /** What the intent is priced off: the cached market for an opening, else the ticker. */
  function MarketOf(intent: TradeIntent, look: Look): Option<Market> {
    if IsOpening(intent.action) then look.cached else look.ticker
  }

  /** Account and audit row were there, so margin danger, if any, is dealt with. */
  predicate Judged(intent: TradeIntent, look: Look) {
    && (IsOpening(intent.action) ==> !look.operatorStop && look.cached.Some?)
    && look.account.Some? && look.snapshotWritten
  }

  predicate InDanger(intent: TradeIntent, look: Look) {
    Judged(intent, look) && look.account.value.marginDanger
  }

  /** In margin danger everything is wound down first, as far as it goes. */
  predicate DangerSeenTo(look: Look, log: seq<Call>, from: nat) {
    from <= |log| && (WoundDown(look.symbol, look.working, look.holdings, log, from) || Broke(Infra) in log[from..])
  }

  lemma StillSeenTo(look: Look, log: seq<Call>, log': seq<Call>, from: nat)
    requires DangerSeenTo(look, log, from) && log <= log'
    ensures DangerSeenTo(look, log', from)
  {
    hide SoldDown;
    assert log' == log + log'[|log|..];
    StillSent(log, log'[|log|..], from);
    if WoundDown(look.symbol, look.working, look.holdings, log, from) {
      SalesStillSent(look.symbol, look.holdings, |look.holdings|, log[from..], log'[from..]);
    }
  }

  /** Worked on, stopped by no gate, and with something to size. */
  predicate CarriedOut(intent: TradeIntent, look: Look, params: RiskParams, operatorStop: bool, manualOverride: bool) {
    && WorkedOn(intent, look) && !(look.operatorStop && IsOpening(intent.action))
    && !Gated(intent, look.account.value, params, operatorStop, manualOverride)
    && SomethingToSize(intent, MarketOf(intent, look).value, look.position)
  }

  /** Each waiting intent among the first n that was worked on is resolved by now. */
  predicate WorkedAreResolved(queue: seq<TradeIntent>, looks: seq<Look>, n: nat,
                              waiting: map<string, IntentStatus>, now: map<string, IntentStatus>)
    requires n <= |queue| == |looks|
  {
    forall i :: 0 <= i < n && Unresolved(waiting, queue[i].id) && WorkedOn(queue[i], looks[i]) ==>
      !Unresolved(now, queue[i].id)
  }

  /** None of the first n items of the queue was work on this intent. */
  predicate LeftAlone(queue: seq<TradeIntent>, looks: seq<Look>, n: nat, id: string, waiting: map<string, IntentStatus>)
    requires n <= |queue| == |looks|
  {
    forall i :: 0 <= i < n && queue[i].id == id && Unresolved(waiting, id) ==> !WorkedOn(queue[i], looks[i])
  }

  lemma LeftAloneBefore(queue: seq<TradeIntent>, looks: seq<Look>, n: nat, id: string,
                        waiting: map<string, IntentStatus>)
    requires n < |queue| == |looks| && LeftAlone(queue, looks, n + 1, id, waiting)
    ensures LeftAlone(queue, looks, n, id, waiting)
    ensures queue[n].id == id && Unresolved(waiting, id) ==> !WorkedOn(queue[n], looks[n])
  {
  }

  lemma StillLeftAlone(queue: seq<TradeIntent>, looks: seq<Look>, n: nat, waiting: map<string, IntentStatus>)
    requires n <= |queue| == |looks|
    ensures forall id :: LeftAlone(queue, looks, |queue|, id, waiting) ==> LeftAlone(queue, looks, n, id, waiting)
  {
  }

  /** One more item worked on, and what was resolved stays so. */
  lemma StayResolved(queue: seq<TradeIntent>, looks: seq<Look>, n: nat,
                     waiting: map<string, IntentStatus>, rows: map<string, IntentStatus>,
                     now: map<string, IntentStatus>)
    requires n < |queue| == |looks| && WorkedAreResolved(queue, looks, n, waiting, rows)
    requires ResolvedStay(waiting, rows) && ResolvedStay(rows, now) && SetOnly(queue[n].id, rows, now)
    ensures ResolvedStay(waiting, now)
    ensures WorkedAreResolved(queue, looks, n, waiting, now)
    ensures !(WorkedOn(queue[n], looks[n]) && Unresolved(now, queue[n].id)) ==>
              WorkedAreResolved(queue, looks, n + 1, waiting, now)
  {
  }

  /** The id of the order that sells down a side in margin danger. */
  function MarginDangerOid(symbol: string, side: Side): string {
    "pdgy-margin-danger-" + symbol + "-" + if side.Long? then "long" else "short"
  }

  /** The base a holding comes to; a row without an entry price counts for nothing. */
  function BaseOf(h: Holding): real {
    if h.entryPrice <= 0.0 then 0.0 else h.notional / h.entryPrice
  }

  /** A holding's base is what its notional bought at its entry price. */
  lemma BaseBoughtTheNotional(h: Holding)
    ensures if h.entryPrice > 0.0 then BaseOf(h) * h.entryPrice == h.notional else BaseOf(h) == 0.0
  {
    if h.entryPrice > 0.0 {
      DivideThenMultiply(h.notional, h.entryPrice);
    }
  }

  /** Since `from` a cancel went out for each working order and a sell-down for each holding above dust. */
  predicate WoundDown(symbol: string, working: seq<string>, holdings: seq<Holding>, log: seq<Call>, from: nat) {
    && from <= |log|
    && (forall i :: 0 <= i < |working| ==> SentCancel(working[i]) in log[from..])
    && (forall i :: 0 <= i < |holdings| && BaseOf(holdings[i]) > DUST_BASE ==>
          SoldDown(symbol, holdings[i], log[from..]))
  }

  predicate SoldDown(symbol: string, h: Holding, log: seq<Call>) {
    exists ok :: SentOrder(MarginDangerOid(symbol, h.side), RoundDownToStep(BaseOf(h), MIN_ORDER_BASE), ok) in log
  }

  lemma StillSent(log: seq<Call>, more: seq<Call>, from: nat)
    requires from <= |log|
    ensures forall call :: call in log[from..] ==> call in (log + more)[from..]
    ensures forall call :: call in more ==> call in (log + more)[from..]
  {
    assert (log + more)[from..] == log[from..] + more;
  }

  lemma SaleIsSent(symbol: string, h: Holding, log: seq<Call>, ok: bool)
    requires SentOrder(MarginDangerOid(symbol, h.side), RoundDownToStep(BaseOf(h), MIN_ORDER_BASE), ok) in log
    ensures SoldDown(symbol, h, log)
  {
  }

  lemma SalesStillSent(symbol: string, holdings: seq<Holding>, n: nat, log: seq<Call>, log': seq<Call>)
    requires n <= |holdings| && forall call :: call in log ==> call in log'
    requires forall i :: 0 <= i < n && BaseOf(holdings[i]) > DUST_BASE ==> SoldDown(symbol, holdings[i], log)
    ensures forall i :: 0 <= i < n && BaseOf(holdings[i]) > DUST_BASE ==> SoldDown(symbol, holdings[i], log')
  {
    hide MarginDangerOid, BaseOf, RoundDownToStep;
    forall i | 0 <= i < n && BaseOf(holdings[i]) > DUST_BASE ensures SoldDown(symbol, holdings[i], log') {
      assert SoldDown(symbol, holdings[i], log);
    }
  }

  lemma MarginDangerOfNoIntent(symbol: string, side: Side)
    ensures forall id :: !OfIntent(id, MarginDangerOid(symbol, side))
  {
    var oid := MarginDangerOid(symbol, side);
    assert oid[|oid| - 1] in {'g', 't'};
    forall id ensures !OfIntent(id, oid) {
      if OfIntent(id, oid) {
        var mode, attempt :| oid == StableClientOid(id, mode, attempt);
        EndsInR(id, mode, attempt);
      }
    }
  }

  lemma EndsInR(id: string, mode: OrderMode, attempt: nat)
    ensures var oid := StableClientOid(id, mode, attempt); oid != [] && oid[|oid| - 1] == 'r'
  {
    hide Decimal;
  }

  lemma QuietComposes(id: string, a: Book, b: Book, c: Book)
    requires Quiet(id, a, b) && Quiet(id, b, c)
    ensures Quiet(id, a, c)
  {
  }

  /** A step that adds at most one order, of no intent, is quiet for every intent. */
  lemma QuietForAll(a: Book, b: Book, c: Book, oid: string)
    requires forall id :: Quiet(id, a, b)
    requires Drifts(b, c) || exists size :: Placed(b, c, oid, size) && forall id :: !OfIntent(id, oid)
    ensures forall id :: Quiet(id, a, c)
  {
    hide OfIntent;
    forall id ensures Quiet(id, a, c) {
      assert Quiet(id, b, c);
      QuietComposes(id, a, b, c);
    }
  }

  lemma OthersAreQuiet(id: string, a: Book, b: Book, c: Book)
    requires (forall j :: Quiet(j, a, b)) && OnlyAdds(id, b, c)
    ensures forall j :: j != id ==> Quiet(j, a, c)
  {
    forall j | j != id ensures Quiet(j, a, c) {
      OthersStayQuiet(id, j, b, c);
      QuietComposes(j, a, b, c);
    }
  }

  /** An intent once executed or failed is never taken up again. */
  predicate ResolvedStay(before: map<string, IntentStatus>, after: map<string, IntentStatus>) {
    forall id :: id in before ==> id in after && (!Unresolved(before, id) ==> after[id] == before[id])
  }

  class Executor {
    const ex: Exchange
    const db: Database
    const params: RiskParams
    const makers: nat
    const maxCommands: nat
    var queue: seq<TradeIntent>
    ghost var journal: map<string, Entry>

    /** Every order of any intent on the exchange belongs to that intent's one journalled run. */
    ghost predicate Valid()
      reads this, ex
    {
      && (forall id :: id in journal ==> EntryOk(id, makers, params, journal[id], ex.book))
      && (forall k, id :: k in ex.book && OfIntent(id, k) ==> id in journal)
    }

    /** A fresh executor may start on any exchange holding none of its intents' orders. */
    constructor (ex: Exchange, db: Database, params: RiskParams, makers: nat, maxCommands: nat)
      requires forall k, id :: k in ex.book ==> !OfIntent(id, k)
      ensures Valid() && this.ex == ex && this.db == db && this.params == params
      ensures this.makers == makers && this.maxCommands == maxCommands && queue == []
    {
      this.ex, this.db, this.params := ex, db, params;
      this.makers, this.maxCommands := makers, maxCommands;
      queue, journal := [], map[];
    }

    /** Take the intent up unless it is not waiting or a gate refuses it, which fails its row. */
    method Admit(intent: TradeIntent, account: Account) returns (ending: Ending)
      modifies db`intents
      ensures ending.Going? <==>
                Unresolved(old(db.intents), intent.id)
                && !Gated(intent, account, params, db.operatorStop, db.manualOverride)
      ensures ending.Going? || ending.Rejected?
      ensures ending.Going? ==>
                && db.intents == old(db.intents)[intent.id := Accepted]
                && (intent.action.Open? || intent.action.Close?) && CheckIntent(intent, account, params).Ok?
      ensures !ending.Going? ==>
                RefusedFor(ending, intent, account, params, Unresolved(old(db.intents), intent.id),
                           db.operatorStop, db.manualOverride)
      ensures !Unresolved(old(db.intents), intent.id) ==> db.intents == old(db.intents)
      ensures Unresolved(old(db.intents), intent.id) ==>
                StatusAfter(intent.id, old(db.intents)[intent.id := Accepted], db.intents, ending)
    {
      hide CheckIntent;
      var accepted := db.AcceptIntent(intent.id);
      if !accepted {
        return Rejected(NotWaiting);
      }
      if db.operatorStop && IsOpening(intent.action) {
        db.SetIntentStatus(intent.id, Failed("operator stop active"));
        return Rejected(Stopped);
      }
      if !(intent.action.Open? || intent.action.Close?) {
        db.SetIntentStatus(intent.id, Failed("unsupported action"));
        return Rejected(Unsupported);
      }
      var risk := CheckIntent(intent, account, params);
      if risk.Err? {
        db.SetIntentStatus(intent.id, Failed(risk.error));
        return Rejected(RiskRefused);
      }
      if IsOpening(intent.action) && db.manualOverride {
        db.SetIntentStatus(intent.id, Failed("manual override active for symbol"));
        return Rejected(Overridden);
      }
      ending := Going;
    }

    /**
      An intent is carried out exactly when it is waiting, no gate holds and there is
      something to size; how it ended is then told by what the exchange answered.
      Any other is turned away for the reason given, with nothing asked of the
      exchange. A run that is done has retired all the intent's orders and recorded
      exactly what they filled. A new journal entry was decided on these very inputs;
      `position` is the base held on the intent's side, unless the exchange could not
      be asked.
    */
    method ProcessOneIntent(intent: TradeIntent, market: Market, account: Account, position: Option<real>)
      returns (ending: Ending, ghost carried: bool)
      requires Valid()
      modifies this`journal, ex, db`intents, db`orders
      ensures Valid()
      ensures forall id :: id in old(journal) ==> id in journal && journal[id] == old(journal)[id]
      ensures OnlyAdds(intent.id, old(ex.book), ex.book)
      ensures intent.id in old(journal) ==> Quiet(intent.id, old(ex.book), ex.book)
      ensures carried <==>
                && Unresolved(old(db.intents), intent.id)
                && !Gated(intent, account, params, db.operatorStop, db.manualOverride)
                && SomethingToSize(intent, market, position)
      ensures if carried then
                !ending.Going? && old(ex.log) <= ex.log
                && Justified(intent, params, market, ending, ex.log, |old(ex.log)|)
              else
                && ex.book == old(ex.book) && ex.log == old(ex.log) && journal == old(journal)
                && if Unresolved(old(db.intents), intent.id)
                      && !Gated(intent, account, params, db.operatorStop, db.manualOverride) then
                     UnsizedFor(ending, intent, market, position)
                   else
                     RefusedFor(ending, intent, account, params, Unresolved(old(db.intents), intent.id),
                                db.operatorStop, db.manualOverride)
      ensures !Unresolved(old(db.intents), intent.id) ==> db.intents == old(db.intents)
      ensures Unresolved(old(db.intents), intent.id) ==>
                StatusAfter(intent.id, old(db.intents)[intent.id := Accepted], db.intents, ending)
      ensures forall id :: id in journal && id !in old(journal) ==>
                id == intent.id && journal[id].intent == intent && journal[id].account == account
                && journal[id].market == market && (intent.action.Close? ==> position == Some(journal[id].position))
                && FreshlyBased(makers, params, journal[id], ex.log)
      ensures ending.Done? ==>
                && intent.id !in old(journal) && NoneWorking(intent.id, ex.book)
                && intent.id in journal && Reached(intent.id, makers, journal[intent.id], ex.book)
                && RowsMatch(intent.id, makers, journal[intent.id], ex.book, db.orders)
      ensures maxCommands >= 2 * makers + 2 ==> !ending.NotConverged?
    {
      hide OfIntent, EntryOk, Quiet, OnlyAdds, Justified, FreshlyBased, Reached, RowsMatch, NoneWorking, ReferencePrice,
           OrderSideOf, CheckIntent, Gated, RefusedFor;
      NoChange(intent.id, ex.book);
      ending := Admit(intent, account);
      if !ending.Going? {
        return ending, false;
      }
      var makerRef := ReferencePrice(Maker, OrderSideOf(intent), market);
      var plan: Plan;
      if intent.action.Close? {
        match position
        case None =>
          return InfraError, false;
        case Some(base) =>
          if base <= DUST_BASE {
            db.SetIntentStatus(intent.id, Failed("no matching exchange position exists"));
            return Rejected(NothingHeld), false;
          }
          plan := Plan(true, base, makerRef);
          carried := true;
          ending := Execute(intent, market, account, base, plan);
      } else if makerRef > 0.0 {
        plan := Plan(false, CheckIntent(intent, account, params).value / makerRef, makerRef);
        carried := true;
        ApprovedIsSound(intent, account, params, makerRef);
        ending := Execute(intent, market, account, 0.0, plan);
      } else {
        return InfraError, false;
      }
    }

    method Execute(intent: TradeIntent, market: Market, account: Account, ghost position: real, plan: Plan)
      returns (ending: Ending)
      requires Valid() && Sound(plan) && plan.isClose == intent.action.Close?
      requires PlanFrom(intent, account, params, market, position, plan)
      requires CheckIntent(intent, account, params).Ok?
      modifies this`journal, ex, db`intents, db`orders
      ensures Valid()
      ensures forall id :: id in old(journal) ==> id in journal && journal[id] == old(journal)[id]
      ensures OnlyAdds(intent.id, old(ex.book), ex.book)
      ensures intent.id in old(journal) ==> Quiet(intent.id, old(ex.book), ex.book)
      ensures !ending.Going? && old(ex.log) <= ex.log
      ensures Justified(intent, params, market, ending, ex.log, |old(ex.log)|)
      ensures StatusAfter(intent.id, old(db.intents), db.intents, ending)
      ensures forall id :: id in journal && id !in old(journal) ==>
                id == intent.id && journal[id].intent == intent && journal[id].account == account
                && journal[id].market == market && journal[id].position == position
                && FreshlyBased(makers, params, journal[id], ex.log)
      ensures ending.Done? ==>
                && intent.id !in old(journal) && NoneWorking(intent.id, ex.book)
                && intent.id in journal && Reached(intent.id, makers, journal[intent.id], ex.book)
                && RowsMatch(intent.id, makers, journal[intent.id], ex.book, db.orders)
      ensures maxCommands >= 2 * makers + 2 ==> !ending.NotConverged?
    {
      hide Consistent, PlanFrom, CheckIntent, OfIntent, OidAt, Evolves, EntryOk, StatusAfter, RowsMatch, Justified,
           AllBased, EachBased;
      ghost var id, before := intent.id, ex.book;
      KnownFirst(id);
      var run := new IntentRun(intent, params, market, account, plan, makers, ex, db);
      FreshRunIsBased(run);
      var commands;
      ghost var machines;
      ending, commands, machines := run.Drive(maxCommands);
      EntriesPersist(id, before);
      ghost var entry := Entry(intent, account, market, position, plan, run.attempts, run.bases);
      RunIsBased(run, entry);
      if !run.claimed {
        RunIsAnEntry(makers, params, entry, ex.book);
      }
      NewOrdersAreTheRuns(id, run.claimed, run.attempts, plan, before);
      if !run.claimed && run.attempts != [] {
        journal := journal[id := entry];
      }
      if ending.Done? {
        IdleRowsMatch(run, entry);
      }
    }

    lemma FreshRunIsBased(run: IntentRun)
      requires run.attempts == [] && run.bases == [] && CheckIntent(run.intent, run.entryAccount, run.params).Ok?
      ensures run.Based()
    {
    }

    lemma RunIsBased(run: IntentRun, e: Entry)
      requires run.Based() && run.ex == ex && run.params == params && run.makers == makers
      requires e.attempts == run.attempts && e.bases == run.bases && e.intent == run.intent
      requires e.market == run.entryMarket && e.account == run.entryAccount
      ensures FreshlyBased(makers, params, e, ex.log) && EachBased(makers, params, e)
    {
    }

    lemma IdleRowsMatch(run: IntentRun, e: Entry)
      requires run.ex == ex && run.db == db && run.makers == makers && run.Idle() && e.attempts == run.attempts
      ensures RowsMatch(run.intent.id, makers, e, ex.book, db.orders)
      ensures run.Concluded() && e.plan == run.plan ==> e.attempts != [] && Reached(run.intent.id, makers, e, ex.book)
    {
      hide OidAt;
    }

    /** The exchange knows an intent's first order exactly when the intent is journalled. */
    lemma KnownFirst(id: string)
      requires Valid()
      ensures OidAt(id, makers, 0) in ex.book <==> id in journal
      ensures forall k :: k in ex.book && OfIntent(id, k) ==> id in journal
    {
      OidOfIntent(id, makers, 0);
      if id in journal {
        FirstOrderIsThere(id, makers, params, journal[id], ex.book);
      }
    }

    lemma EntriesPersist(id: string, before: Book)
      requires forall j :: j in journal ==> EntryOk(j, makers, params, journal[j], before)
      requires OnlyAdds(id, before, ex.book)
      requires id in journal ==> Quiet(id, before, ex.book)
      ensures forall j :: j in journal ==> EntryOk(j, makers, params, journal[j], ex.book)
    {
      forall j | j in journal ensures EntryOk(j, makers, params, journal[j], ex.book) {
        if j != id {
          OthersStayQuiet(id, j, before, ex.book);
        }
        EntryPersists(j, makers, params, journal[j], before, ex.book);
      }
    }

    lemma NewOrdersAreTheRuns(id: string, claimed: bool, attempts: seq<Attempt>, plan: Plan, before: Book)
      requires OnlyAdds(id, before, ex.book)
      requires if claimed then Quiet(id, before, ex.book) else Consistent(id, makers, plan, attempts, ex.book)
      ensures forall k, j :: k in ex.book && OfIntent(j, k) && k !in before ==> j == id && !claimed && attempts != []
    {
      hide OfIntent;
      forall k, j | k in ex.book && OfIntent(j, k) && k !in before ensures j == id && !claimed && attempts != [] {
        OfOneIntent(id, j, k);
      }
    }

    /** What the journal promises of an intent, for as long as the exchange goes on. */
    lemma AtMostOneOrderPerAttemptEver(id: string, later: Book)
      requires Valid() && Quiet(id, ex.book, later)
      ensures |set k | k in later && OfIntent(id, k)| <= makers + 1
    {
      if id in journal {
        var e := journal[id];
        ConsistentPersists(id, makers, e.plan, e.attempts, ex.book, later);
        AtMostOneOrderPerAttempt(id, makers, e.attempts, later);
      } else {
        assert (set k | k in later && OfIntent(id, k)) == {};
      }
    }

    /**
      Before an intent is worked on in margin danger: cancel what is working and sell
      down what is held, under order ids of no intent. A write that fails on the way
      ends the cleanup, not the pass.
    */
    method HandleMarginDanger(symbol: string, working: seq<string>, holdings: seq<Holding>)
      modifies ex, db`orders
      ensures forall id :: Quiet(id, old(ex.book), ex.book)
      ensures old(ex.log) <= ex.log
      ensures WoundDown(symbol, working, holdings, ex.log, |old(ex.log)|) || Broke(Infra) in ex.log[|old(ex.log)|..]
    {
      hide Quiet, OfIntent, MarginDangerOid, BaseOf, SoldDown, RoundDownToStep;
      forall id ensures Quiet(id, ex.book, ex.book) {
        NoChange(id, ex.book);
      }
      for n := 0 to |working|
        invariant old(ex.log) <= ex.log && forall id :: Quiet(id, old(ex.book), ex.book)
        invariant forall i :: 0 <= i < n ==> SentCancel(working[i]) in ex.log[|old(ex.log)|..]
      {
        ghost var before, log := ex.book, ex.log;
        ex.CancelOrder(working[n]);
        StillSent(log, [SentCancel(working[n])], |old(ex.log)|);
        var lands: bool := *;
        if lands {
          db.SetOrderStatus(working[n], RowCancelled);
        }
        QuietForAll(old(ex.book), before, ex.book, "");
      }
      for n := 0 to |holdings|
        invariant old(ex.log) <= ex.log && forall id :: Quiet(id, old(ex.book), ex.book)
        invariant forall i :: 0 <= i < |working| ==> SentCancel(working[i]) in ex.log[|old(ex.log)|..]
        invariant forall i :: 0 <= i < n && BaseOf(holdings[i]) > DUST_BASE ==>
                    SoldDown(symbol, holdings[i], ex.log[|old(ex.log)|..])
      {
        ghost var before, log := ex.book, ex.log;
        var fails := ex.RequestFails();
        if fails {
          StillSent(log, [Broke(Infra)], |old(ex.log)|);
          return;
        }
        if BaseOf(holdings[n]) > DUST_BASE {
          var oid := MarginDangerOid(symbol, holdings[n].side);
          var size := RoundDownToStep(BaseOf(holdings[n]), MIN_ORDER_BASE);
          var ok := ex.PlaceOrder(oid, size);
          MarginDangerOfNoIntent(symbol, holdings[n].side);
          QuietForAll(old(ex.book), before, ex.book, oid);
          StillSent(log, [SentOrder(oid, size, ok)], |old(ex.log)|);
          SaleIsSent(symbol, holdings[n], ex.log[|old(ex.log)|..], ok);
          SalesStillSent(symbol, holdings, n, log[|old(ex.log)|..], ex.log[|old(ex.log)|..]);
        }
      }
    }

    /** Process the intent. Unless the process crashed its row is then resolved; what came to nothing is failed. */
    method Resolve(intent: TradeIntent, market: Market, account: Account, position: Option<real>)
      returns (crashed: bool, ghost ran: Option<Ending>)
      requires Valid()
      modifies this`journal, ex, db`intents, db`orders
      ensures Valid()
      ensures forall id :: id in old(journal) ==> id in journal && journal[id] == old(journal)[id]
      ensures OnlyAdds(intent.id, old(ex.book), ex.book) && old(ex.log) <= ex.log
      ensures ran.Some? <==>
                && Unresolved(old(db.intents), intent.id)
                && !Gated(intent, account, params, db.operatorStop, db.manualOverride)
                && SomethingToSize(intent, market, position)
      ensures ran.None? ==> ex.log == old(ex.log) && ex.book == old(ex.book)
      ensures ran.Some? ==>
                && Justified(intent, params, market, ran.value, ex.log, |old(ex.log)|)
                && !ran.value.Going? && crashed == ran.value.Crashed?
      ensures SetOnly(intent.id, old(db.intents), db.intents) && ResolvedStay(old(db.intents), db.intents)
      ensures !crashed ==> !Unresolved(db.intents, intent.id)
    {
      hide EntryOk, OfIntent, Gated, RowsMatch, NoneWorking, Reached, Quiet, Justified, SomethingToSize, FreshlyBased,
           OnlyAdds;
      ghost var carried;
      var ending;
      ending, carried := ProcessOneIntent(intent, market, account, position);
      ran := if carried then Some(ending) else None;
      if ending.InfraError? {
        db.SetIntentStatus(intent.id, Failed("infrastructure error"));
      }
      crashed := ending.Crashed?;
    }

    /**
      What one pass does about one waiting intent: the stop fails an opening, an
      opening without fresh market data is left, then account, audit row and, for
      the rest, a fresh ticker are needed before it is worked on. `ran` is how the
      intent ended, if it was carried out.
    */
    method WorkOn(intent: TradeIntent, look: Look) returns (crashed: bool, ghost ran: Option<Ending>)
      requires Valid()
      modifies this`journal, ex, db`intents, db`orders
      ensures Valid()
      ensures forall id :: id in old(journal) ==> id in journal && journal[id] == old(journal)[id]
      ensures ran.Some? <==>
                Unresolved(old(db.intents), intent.id)
                && CarriedOut(intent, look, params, db.operatorStop, db.manualOverride)
      ensures ran.Some? ==>
                && Justified(intent, params, MarketOf(intent, look).value, ran.value, ex.log, |old(ex.log)|)
                && !ran.value.Going? && crashed == ran.value.Crashed?
      ensures old(ex.log) <= ex.log
      ensures InDanger(intent, look) ==> DangerSeenTo(look, ex.log, |old(ex.log)|)
      ensures ran.None? && !InDanger(intent, look) ==> ex.log == old(ex.log) && ex.book == old(ex.book)
      ensures SetOnly(intent.id, old(db.intents), db.intents) && ResolvedStay(old(db.intents), db.intents)
      ensures forall id :: id != intent.id || !WorkedOn(intent, look) ==> Quiet(id, old(ex.book), ex.book)
      ensures !WorkedOn(intent, look) ==> !crashed && db.intents == old(db.intents)
      ensures WorkedOn(intent, look) && !crashed ==> !Unresolved(db.intents, intent.id)
    {
      hide EntryOk, OfIntent, Gated, RowsMatch, NoneWorking, Reached, Quiet, Justified, SomethingToSize, FreshlyBased,
           OnlyAdds, WoundDown;
      ran := None;
      forall id ensures Quiet(id, ex.book, ex.book) {
        NoChange(id, ex.book);
      }
      if look.operatorStop && IsOpening(intent.action) {
        var claimed := db.AcceptIntent(intent.id);
        if claimed {
          db.SetIntentStatus(intent.id, Failed("operator stop active"));
        }
        return false, None;
      }
      if look.cached.None? && IsOpening(intent.action) { return false, None; }
      if look.account.None? { return false, None; }
      if !look.snapshotWritten { return false, None; }
      ghost var journalled := journal;
      if look.account.value.marginDanger {
        HandleMarginDanger(look.symbol, look.working, look.holdings);
        QuietKeepsValid(old(ex.book));
      }
      var market := MarketOf(intent, look);
      if market.None? { return false, None; }
      ghost var cleaned, log := ex.book, ex.log;
      crashed, ran := Resolve(intent, market.value, look.account.value, look.position);
      if ran.Some? {
        JustifiedEarlier(intent, params, market.value, ran.value, ex.log, |log|, |old(ex.log)|);
      }
      OthersAreQuiet(intent.id, old(ex.book), cleaned, ex.book);
      if look.account.value.marginDanger {
        StillSeenTo(look, log, ex.log, |old(ex.log)|);
      }
    }

    lemma QuietKeepsValid(before: Book)
      requires forall j :: j in journal ==> EntryOk(j, makers, params, journal[j], before)
      requires forall k, id :: k in before && OfIntent(id, k) ==> id in journal
      requires forall id :: Quiet(id, before, ex.book)
      ensures Valid()
    {
      hide EntryOk, OfIntent;
      forall j | j in journal ensures EntryOk(j, makers, params, journal[j], ex.book) {
        EntryPersists(j, makers, params, journal[j], before, ex.book);
      }
      forall k, id | k in ex.book && OfIntent(id, k) ensures id in journal {
        assert Quiet(id, before, ex.book);
      }
    }

    /**
      One pass over the intents that were unresolved when it began, in order, with
      what was seen for each. Unless the pass crashes, each intent it could work on
      is resolved. One it could not work on keeps its status and gets no order, and
      a resolved intent keeps its status, whatever it was, for good.
    */
    method ProcessPendingIntentsOnce(looks: seq<Look>) returns (crashed: bool)
      requires Valid() && |looks| == |queue|
      modifies this`journal, ex, db`intents, db`orders
      ensures Valid()
      ensures forall id :: id in old(journal) ==> id in journal && journal[id] == old(journal)[id]
      ensures ResolvedStay(old(db.intents), db.intents)
      ensures !crashed ==> WorkedAreResolved(queue, looks, |queue|, old(db.intents), db.intents)
      ensures forall id :: LeftAlone(queue, looks, |queue|, id, old(db.intents)) ==>
                Quiet(id, old(ex.book), ex.book) && (id in old(db.intents) ==> db.intents[id] == old(db.intents)[id])
    {
      hide EntryOk, OfIntent, Quiet, WorkedOn, Unresolved;
      forall id ensures Quiet(id, ex.book, ex.book) {
        NoChange(id, ex.book);
      }
      var waiting := db.intents;
      var i := 0;
      while i < |queue|
        invariant 0 <= i <= |queue| && waiting == old(db.intents) && Valid()
        invariant forall id :: id in old(journal) ==> id in journal && journal[id] == old(journal)[id]
        invariant ResolvedStay(waiting, db.intents)
        invariant WorkedAreResolved(queue, looks, i, waiting, db.intents)
        invariant forall id :: LeftAlone(queue, looks, i, id, waiting) ==>
                    Quiet(id, old(ex.book), ex.book) && (id in waiting ==> db.intents[id] == waiting[id])
      {
        var intent := queue[i];
        if Unresolved(waiting, intent.id) {
          ghost var book, rows := ex.book, db.intents;
          ghost var ran;
          crashed, ran := WorkOn(intent, looks[i]);
          forall id | LeftAlone(queue, looks, i + 1, id, waiting)
            ensures Quiet(id, old(ex.book), ex.book) && (id in waiting ==> db.intents[id] == waiting[id])
          {
            LeftAloneBefore(queue, looks, i, id, waiting);
            QuietComposes(id, old(ex.book), book, ex.book);
          }
          StayResolved(queue, looks, i, waiting, rows, db.intents);
          if crashed {
            StillLeftAlone(queue, looks, i + 1, waiting);
            return true;
          }
        } else {
          forall id | LeftAlone(queue, looks, i + 1, id, waiting) ensures LeftAlone(queue, looks, i, id, waiting) {
            LeftAloneBefore(queue, looks, i, id, waiting);
          }
        }
        i := i + 1;
      }
      crashed := false;
    }

    /** Any number of ticks, new intents and crashes; after a crash the same rows are worked on again. */
    method RunForever(ticks: nat)
      requires Valid()
      modifies this, ex, db
      ensures Valid()
      ensures forall id :: id in old(journal) ==> id in journal && journal[id] == old(journal)[id]
      ensures ResolvedStay(old(db.intents), db.intents)
    {
      hide EntryOk, OfIntent;
      for tick := 0 to ticks
        invariant Valid()
        invariant forall id :: id in old(journal) ==> id in journal && journal[id] == old(journal)[id]
        invariant ResolvedStay(old(db.intents), db.intents)
      {
        var arrives: bool := *;
        if arrives {
          var intent: TradeIntent := *;
          db.InsertIntent(intent.id);
          queue := queue + [intent];
        }
        db.operatorStop, db.manualOverride := *, *;
        var looks: seq<Look> := [];
        while |looks| < |queue|
          invariant |looks| <= |queue|
        {
          var look: Look := *;
          looks := looks + [look];
        }
        var crashed := ProcessPendingIntentsOnce(looks);
      }
    }
  }
}
