/**
  One approved intent driven against the exchange. The fields of `IntentRun` are
  the driver's loop variables; `Valid` is the agreement between them, the state
  machine and the exchange.
*/
module Driver {
  import opened Common
  import opened ClientOid
  import opened Sizing
  import opened ExchangeModel
  import opened Journal
  import opened Risk
  import opened Store
  import E = Execution

  datatype PollOutcome = PollFilled | PollLive | PollVanished

  /** A full fill counts as done whatever the status string still says. */
  function ClassifyOrderPoll(phase: Phase, filled: real, size: real): PollOutcome {
    if size > 0.0 && filled >= size then PollFilled
    else match phase
         case Filled => PollFilled
         case Vanished => PollVanished
         case Live => PollLive
  }

  /** A failed read is taken for a live order that has filled nothing. */
  function PollOrder(poll: Poll, size: real): (PollOutcome, real) {
    match poll
    case Unreadable => (PollLive, 0.0)
    case Read(phase, filled) => (ClassifyOrderPoll(phase, filled, size), filled)
  }

  function OrderSideOf(intent: TradeIntent): OrderSide {
    match (intent.action, intent.side)
    case (Open, Long) => Buy
    case (Close, Short) => Buy
    case _ => Sell
  }

  /** Why an intent was failed. */
  datatype Why = NotWaiting | Stopped | Unsupported | RiskRefused | Overridden | NothingHeld
               | Unpriced(mode: OrderMode, market: Market)
               | Refused(oid: string, size: real)
               | NoQuote
               | RiskOnRetry
               | NotConfirmed(oid: string, size: real)
               | TakerGone(oid: string)

  /** How a command left the execution. `Going` is the only one the driver continues from. */
  datatype Ending = Going | Done | Rejected(why: Why) | NotConverged | InfraError | Crashed

  function Struck(fault: Fault): Ending {
    match fault
    case Infra => InfraError
    case Crash => Crashed
  }

  /** Nothing in this answer says the order can no longer trade. */
  predicate MayTrade(answer: Poll, size: real) {
    match answer
    case Unreadable => true
    case Read(phase, filled) => phase.Live? && !(size > 0.0 && filled >= size)
  }

  /** This answer says the order is done: filled whole, or called filled. */
  predicate SeenFilled(answer: Poll, size: real) {
    answer.Read? && (answer.phase.Filled? || (size > 0.0 && answer.filled >= size))
  }

  /** A poll is taken for live, filled or gone exactly when it says so, and its fill is the one reported. */
  lemma PollMeans(poll: Poll, size: real)
    ensures PollOrder(poll, size).0.PollLive? <==> MayTrade(poll, size)
    ensures PollOrder(poll, size).0.PollFilled? <==> SeenFilled(poll, size)
    ensures !PollOrder(poll, size).0.PollLive? ==> poll.Read?
    ensures PollOrder(poll, size).1 == if poll.Read? then poll.filled else 0.0
  {
  }

  /**
    A truthful read is taken for live exactly when the order can still trade, for
    every order but a listed one of no size, which never can.
  */
  lemma LiveExactlyWhenWorking(o: Order)
    requires 0.0 <= o.filled <= o.size
    ensures (PollOrder(Read(o.phase, o.filled), o.size).0.PollLive? <==> Working(o))
            <==> !(o.size == 0.0 && o.phase.Live?)
  {
  }

  /** Going long is bought into, going short bought out of. */
  lemma BuysExactly(intent: TradeIntent)
    requires intent.action.Open? || intent.action.Close?
    ensures OrderSideOf(intent).Buy? <==> (intent.action.Open? <==> intent.side.Long?)
  {
  }

  /** Since `from` nothing was asked but this order, and no answer showed it unable to trade. */
  predicate AllLive(log: seq<Call>, from: nat, oid: string, size: real) {
    && from <= |log|
    && forall j :: from <= j < |log| ==> log[j].SawOrder? && log[j].oid == oid && MayTrade(log[j].answer, size)
  }

  /** As above, until the last answer, which was this one. */
  ghost predicate LiveUntil(log: seq<Call>, from: nat, oid: string, size: real, answer: Poll) {
    && from < |log| && log[|log| - 1] == SawOrder(oid, answer)
    && AllLive(log[..|log| - 1], from, oid, size)
  }

  /** The log ends with a whole window of reads of this order, and none of them showed it unable to trade. */
  ghost predicate LiveThroughout(log: seq<Call>, oid: string, size: real) {
    exists from: nat :: from < |log| && AllLive(log, from, oid, size) && (from == 0 || !log[from - 1].SawOrder?)
  }

  lemma OneMoreRead(log: seq<Call>, from: nat, oid: string, size: real, answer: Poll)
    requires AllLive(log, from, oid, size)
    ensures LiveUntil(log + [SawOrder(oid, answer)], from, oid, size, answer)
    ensures MayTrade(answer, size) ==> AllLive(log + [SawOrder(oid, answer)], from, oid, size)
  {
    assert (log + [SawOrder(oid, answer)])[..|log|] == log;
  }

  /** What the exchange answered since `from` is the reason the run ended this way. */
  ghost predicate Justified(intent: TradeIntent, params: RiskParams, entry: Market, ending: Ending,
                            log: seq<Call>, from: nat)
  {
    match ending
    case Going => true
    case Done => true
    case NotConverged => true
    case Crashed => |log| > from && log[|log| - 1] == Broke(Crash)
    case InfraError => |log| > from && (log[|log| - 1] == Broke(Infra) || log[|log| - 1] == SawAccount(None))
    case Rejected(why) =>
      match why
      case Unpriced(mode, market) =>
        && ReferencePrice(mode, OrderSideOf(intent), market) <= 0.0
        && (market == entry || SawMarket(Some(market)) in log)
      case Refused(oid, size) => |log| > from && log[|log| - 1] == SentOrder(oid, size, false)
      case NoQuote => |log| > from && log[|log| - 1] == SawMarket(None)
      case RiskOnRetry =>
        && |log| > from && log[|log| - 1].SawAccount? && log[|log| - 1].account.Some?
        && CheckIntent(intent, log[|log| - 1].account.value, params).Err?
      case NotConfirmed(oid, size) => |log| > from && LiveThroughout(log, oid, size)
      case TakerGone(oid) =>
        && |log| > from && log[|log| - 1].SawOrder? && log[|log| - 1].oid == oid
        && log[|log| - 1].answer.Read? && log[|log| - 1].answer.phase.Vanished? && log[|log| - 1].answer.filled <= 0.0
      case _ => false
  }

  lemma JustifiedEarlier(intent: TradeIntent, params: RiskParams, entry: Market, ending: Ending,
                         log: seq<Call>, from: nat, earlier: nat)
    requires earlier <= from && Justified(intent, params, entry, ending, log, from)
    ensures Justified(intent, params, entry, ending, log, earlier)
  {
  }

  lemma StruckIsJustified(intent: TradeIntent, params: RiskParams, entry: Market, fault: Fault,
                          log: seq<Call>, from: nat)
    requires from < |log| && log[|log| - 1] == Broke(fault)
    ensures Justified(intent, params, entry, Struck(fault), log, from)
  {
  }

  lemma GoneIsJustified(intent: TradeIntent, params: RiskParams, entry: Market, oid: string, size: real, answer: Poll,
                        log: seq<Call>, from: nat)
    requires LiveUntil(log, from, oid, size, answer) && answer.Read? && answer.phase.Vanished? && answer.filled <= 0.0
    ensures Justified(intent, params, entry, Rejected(TakerGone(oid)), log, from)
  {
    hide AllLive;
  }

  lemma RefusedIsJustified(intent: TradeIntent, params: RiskParams, entry: Market, oid: string, size: real,
                           log: seq<Call>, from: nat)
    requires from < |log| && log[|log| - 1] == SentOrder(oid, size, false)
    ensures Justified(intent, params, entry, Rejected(Refused(oid, size)), log, from)
  {
  }

  lemma NothingToJustify(intent: TradeIntent, params: RiskParams, entry: Market, ending: Ending,
                         log: seq<Call>, from: nat)
    requires ending.Going? || ending.Done? || ending.NotConverged?
    ensures Justified(intent, params, entry, ending, log, from)
  {
  }

  /** What an order was placed on: prices, the account the risk gate passed, and its place in the log. */
  datatype Basis = Basis(market: Market, account: Account, call: nat)

  function ModeAt(makers: nat, i: nat): OrderMode {
    if i < makers then Maker else Taker
  }

  /** The i-th order was priced off these prices and let through by the risk gate on this account. */
  predicate BasedOn(intent: TradeIntent, params: RiskParams, makers: nat, attempt: Attempt, i: nat, basis: Basis) {
    && attempt.refPrice == ReferencePrice(ModeAt(makers, i), OrderSideOf(intent), basis.market)
    && CheckIntent(intent, basis.account, params).Ok?
  }

  /** The last two answers are these prices and this account. */
  predicate JustAsked(log: seq<Call>, n: nat, market: Market, account: Account) {
    2 <= n <= |log| && log[n - 2] == SawMarket(Some(market)) && log[n - 1] == SawAccount(Some(account))
  }

  /**
    The first maker goes by what the intent was approved on; every other order was
    sent right after prices and account had been asked for again.
  */
  predicate AskedFirst(intent: TradeIntent, makers: nat, attempt: Attempt, i: nat, basis: Basis, entry: Basis,
                       log: seq<Call>)
  {
    && basis.call < |log| && log[basis.call].SentOrder?
    && log[basis.call].oid == OidAt(intent.id, makers, i) && log[basis.call].size == attempt.size
    && if i == 0 < makers then basis.market == entry.market && basis.account == entry.account
       else JustAsked(log, basis.call, basis.market, basis.account)
  }

  ghost predicate AllBased(intent: TradeIntent, params: RiskParams, makers: nat, attempts: seq<Attempt>,
                           bases: seq<Basis>, entry: Basis, log: seq<Call>)
  {
    && |bases| == |attempts|
    && forall i :: 0 <= i < |attempts| ==>
         && BasedOn(intent, params, makers, attempts[i], i, bases[i])
         && AskedFirst(intent, makers, attempts[i], i, bases[i], entry, log)
  }

  lemma StillBased(intent: TradeIntent, params: RiskParams, makers: nat, attempts: seq<Attempt>, bases: seq<Basis>,
                   entry: Basis, log: seq<Call>, log': seq<Call>)
    requires AllBased(intent, params, makers, attempts, bases, entry, log) && log <= log'
    ensures AllBased(intent, params, makers, attempts, bases, entry, log')
  {
    hide BasedOn;
  }

  lemma OneMoreBased(intent: TradeIntent, params: RiskParams, makers: nat, attempts: seq<Attempt>, bases: seq<Basis>,
                     entry: Basis, log: seq<Call>, next: Attempt, basis: Basis)
    requires AllBased(intent, params, makers, attempts, bases, entry, log)
    requires BasedOn(intent, params, makers, next, |attempts|, basis)
    requires AskedFirst(intent, makers, next, |attempts|, basis, entry, log)
    ensures AllBased(intent, params, makers, attempts + [next], bases + [basis], entry, log)
  {
    hide BasedOn, AskedFirst;
  }

  /** No row but this intent's is touched, and its status tells how its run ended. */
  predicate StatusAfter(id: string, before: map<string, IntentStatus>, after: map<string, IntentStatus>,
                        ending: Ending)
  {
    && SetOnly(id, before, after)
    && (id in before ==>
          match ending
          case Going => after == before
          case InfraError => after == before
          case Crashed => after == before
          case Done => after[id].Executed?
          case Rejected(_) => after[id].Failed?
          case NotConverged => after[id].Failed?)
  }

  lemma NoStatusChange(id: string, rows: map<string, IntentStatus>, ending: Ending)
    requires ending.Going? || ending.InfraError? || ending.Crashed?
    ensures StatusAfter(id, rows, rows, ending)
  {
  }

  lemma FailsTheRow(id: string, before: map<string, IntentStatus>, after: map<string, IntentStatus>, reason: string,
                    why: Why)
    requires after == if id in before then before[id := Failed(reason)] else before
    ensures StatusAfter(id, before, after, Rejected(why))
  {
  }

  /** Going on changes no status, so how the run ends is told by its last part alone. */
  lemma StatusComposes(id: string, a: map<string, IntentStatus>, b: map<string, IntentStatus>,
                       c: map<string, IntentStatus>, ending: Ending)
    requires StatusAfter(id, a, b, Going) && StatusAfter(id, b, c, ending)
    ensures StatusAfter(id, a, c, ending)
  {
    assert a == b;
  }

  ghost predicate Ended(id: string, makers: nat, plan: Plan, attempts: seq<Attempt>, book: Book, counted: real)
    requires attempts != []
  {
    RemainingIsDust(plan.target, counted)
    || var oid := OidAt(id, makers, |attempts| - 1);
       oid in book && LastOrderDone(book[oid], |attempts| == makers + 1)
  }

  /** An order read as filled, or a taker read as gone. */
  predicate LastOrderDone(o: Order, isTaker: bool) {
    o.filled >= o.size || o.phase.Filled? || (isTaker && o.phase.Vanished?)
  }

  /** Orders of this intent may have been added; everything known before has only evolved. */
  ghost predicate OnlyAdds(id: string, book: Book, book': Book) {
    && (forall k :: k in book ==> k in book' && Evolves(book[k], book'[k]))
    && (forall k :: k in book' && k !in book ==> OfIntent(id, k))
  }

  /** A placement either extended the history by the order asked for, or left it as it was. */
  lemma PlacingOutcome(id: string, makers: nat, plan: Plan, attempts: seq<Attempt>, next: Attempt,
                       book: Book, book': Book)
    requires Consistent(id, makers, plan, attempts, book) && Retired(id, makers, |attempts|, book)
    requires |attempts| <= makers
    requires Placed(book, book', OidAt(id, makers, |attempts|), next.size)
    requires next.before == book && next.believed == Base(Legs(id, makers, attempts, book))
    requires Priced(plan, next.refPrice) && !RemainingIsDust(plan.target, next.believed)
    requires next.size == PlacedSize(plan, next.believed, next.refPrice)
    ensures var oid := OidAt(id, makers, |attempts|);
            if oid !in book && oid in book' then
              && Consistent(id, makers, plan, attempts + [next], book')
              && Legs(id, makers, attempts + [next], book')[..|attempts|] == Legs(id, makers, attempts, book)
            else
              Consistent(id, makers, plan, attempts, book')
  {
    hide Consistent, Retired, PlacedSize;
    if OidAt(id, makers, |attempts|) !in book && OidAt(id, makers, |attempts|) in book' {
      ConsistentExtends(id, makers, plan, attempts, next, book, book');
    } else {
      ConsistentPersists(id, makers, plan, attempts, book, book');
    }
  }

  class IntentRun {
    const intent: TradeIntent
    const params: RiskParams
    const entryMarket: Market
    const entryAccount: Account
    const plan: Plan
    const makers: nat
    const exec: E.IntentExecution
    const ex: Exchange
    const db: Database

    var liveClientOid: Option<string>
    var liveOrderSize: real
    var cumulativeFilledBase: real

    ghost var attempts: seq<Attempt>
    ghost var bases: seq<Basis>
    /** The intent's first order was on the exchange before this run began. */
    ghost const claimed: bool

    constructor (intent: TradeIntent, params: RiskParams, entryMarket: Market, entryAccount: Account, plan: Plan,
                 makers: nat, ex: Exchange, db: Database)
      requires Sound(plan) && plan.isClose == intent.action.Close?
      requires forall k :: k in ex.book && OfIntent(intent.id, k) ==> OidAt(intent.id, makers, 0) in ex.book
      ensures Valid() && exec.View() == E.START && fresh(exec)
      ensures this.intent == intent && this.params == params && this.plan == plan && this.makers == makers
      ensures this.ex == ex && this.db == db
      ensures this.entryMarket == entryMarket && this.entryAccount == entryAccount && bases == []
      ensures claimed == (OidAt(intent.id, makers, 0) in ex.book) && attempts == []
    {
      this.intent, this.params, this.plan := intent, params, plan;
      this.entryMarket, this.entryAccount := entryMarket, entryAccount;
      this.makers, this.ex, this.db := makers, ex, db;
      exec := new E.IntentExecution();
      liveClientOid, liveOrderSize, cumulativeFilledBase := None, 0.0, 0.0;
      attempts, bases := [], [];
      claimed := OidAt(intent.id, makers, 0) in ex.book;
    }

    ghost function LegsNow(): (legs: seq<Leg>)
      reads this`attempts, ex`book
      ensures |legs| == |attempts|
    {
      Legs(intent.id, makers, attempts, ex.book)
    }

    /** The local rows of the first `n` orders record exactly what those orders filled. */
    ghost predicate RowsAgree(n: int)
      reads this`attempts, ex`book, db`orders
      requires n <= |attempts|
    {
      forall i :: 0 <= i < n ==>
        var oid := OidAt(intent.id, makers, i);
        oid in db.orders && db.orders[oid].filledSize == LegsNow()[i].filled
    }

    ghost predicate Recorded()
      reads this`attempts, ex`book
    {
      Consistent(intent.id, makers, plan, attempts, ex.book)
    }

    /** All orders are retired and counted. */
    ghost predicate Idle()
      reads this`attempts, this`cumulativeFilledBase, ex`book, db`orders
    {
      && Retired(intent.id, makers, |attempts|, ex.book)
      && cumulativeFilledBase == Base(LegsNow())
      && RowsAgree(|attempts|)
    }

    /** All orders but the newest are retired and counted; the newest may still trade. */
    ghost predicate Outstanding()
      reads this`attempts, this`cumulativeFilledBase, ex`book, db`orders
    {
      && attempts != []
      && cumulativeFilledBase == Base(LegsNow()[..|attempts| - 1])
      && RowsAgree(|attempts| - 1)
      && OidAt(intent.id, makers, |attempts| - 1) in db.orders
    }

    /**
      Why the execution may stop: what is left is dust, or the newest order filled
      whole, or the exchange calls it filled, or it is the taker and has vanished.
    */
    ghost predicate Concluded()
      reads this`attempts, this`cumulativeFilledBase, ex`book
    {
      attempts != [] && Ended(intent.id, makers, plan, attempts, ex.book, cumulativeFilledBase)
    }

    ghost predicate Valid()
      reads this, exec, ex`book, db`orders
    {
      var m := exec.View();
      && Sound(plan) && plan.isClose == intent.action.Close?
      && E.Reachable(makers, m)
      && (if claimed then
            && attempts == [] && m == E.START && cumulativeFilledBase == 0.0
            && OidAt(intent.id, makers, 0) in ex.book
          else
            && Recorded()
            && if m.needsCancelConfirmation then
                 && Outstanding()
                 && |attempts| == m.makerAttempts + 1
                 && liveClientOid == Some(OidAt(intent.id, makers, m.makerAttempts))
                 && liveOrderSize == attempts[|attempts| - 1].size
               else
                 && Idle()
                 && (!m.filled ==> |attempts| == m.makerAttempts)
                 && (m.filled ==> Concluded()))
    }

    /** Nothing of the intent is working and every fill is counted, so another order may be placed. */
    ghost predicate Ready()
      reads this`attempts, this`cumulativeFilledBase, ex`book
    {
      if claimed then attempts == [] && cumulativeFilledBase == 0.0 && OidAt(intent.id, makers, 0) in ex.book
      else Recorded() && Retired(intent.id, makers, |attempts|, ex.book) && cumulativeFilledBase == Base(LegsNow())
    }

    /** What holds however the run ended. */
    ghost predicate Settled()
      reads this`attempts, ex`book
    {
      if claimed then attempts == [] && OidAt(intent.id, makers, 0) in ex.book else Recorded()
    }

    /** Every order went out on prices and an account that were asked for, and past the risk gate. */
    ghost predicate Based()
      reads this`attempts, this`bases, ex`log
    {
      && CheckIntent(intent, entryAccount, params).Ok?
      && AllBased(intent, params, makers, attempts, bases, Basis(entryMarket, entryAccount, 0), ex.log)
    }

    /** Time passing on the exchange disturbs none of this. */
    twostate lemma SurvivesDrift()
      requires old(Recorded()) && Drifts(old(ex.book), ex.book)
      requires unchanged(this) && unchanged(db)
      ensures Recorded()
      ensures old(Outstanding()) ==> Outstanding()
      ensures old(Idle()) ==> Idle() && LegsNow() == old(LegsNow())
    {
      hide Consistent, Retired;
      ConsistentPersists(intent.id, makers, plan, attempts, old(ex.book), ex.book);
      if old(Outstanding()) {
        forall i | 0 <= i < |attempts| - 1 ensures LegsNow()[i] == old(LegsNow())[i] {
          assert LegsNow()[i] == LegsNow()[..|attempts| - 1][i];
        }
      }
    }

    /** Once the newest order has been read in a terminal state, its fill can be counted. */
    lemma CountingTheNewest(oid: string)
      requires Recorded() && Outstanding() && oid == OidAt(intent.id, makers, |attempts| - 1)
      requires oid in ex.book && !Working(ex.book[oid])
      ensures Retired(intent.id, makers, |attempts|, ex.book)
      ensures cumulativeFilledBase + ex.book[oid].filled == Base(LegsNow())
      ensures LegsNow()[|attempts| - 1].filled == ex.book[oid].filled
    {
    }

    /** What the next order goes by: the approval itself for the first maker, otherwise answers just given. */
    ghost predicate Informed(market: Market, account: Account)
      reads this`attempts, ex`log
    {
      && CheckIntent(intent, account, params).Ok?
      && if |attempts| == 0 < makers then market == entryMarket && account == entryAccount
         else JustAsked(ex.log, |ex.log|, market, account)
    }

    /** The request itself, with what the exchange took on entered into the history. */
    method Place(oid: string, size: real, refPrice: real, ghost market: Market, ghost account: Account)
      returns (ok: bool)
      requires Ready()
      requires |attempts| <= makers && !RemainingIsDust(plan.target, cumulativeFilledBase)
      requires oid == OidAt(intent.id, makers, |attempts|)
      requires Priced(plan, refPrice) && size == PlacedSize(plan, cumulativeFilledBase, refPrice)
      requires Based() && Informed(market, account)
      requires refPrice == ReferencePrice(ModeAt(makers, |attempts|), OrderSideOf(intent), market)
      modifies this`attempts, this`bases, ex
      ensures OnlyAdds(intent.id, old(ex.book), ex.book)
      ensures claimed ==> Quiet(intent.id, old(ex.book), ex.book)
      ensures Settled() && Based()
      ensures ex.log == old(ex.log) + [SentOrder(oid, size, ok)]
      ensures attempts == old(attempts) || |attempts| == |old(attempts)| + 1
      ensures old(attempts) <= attempts
      ensures ok ==> !claimed && oid !in old(ex.book) && |attempts| == |old(attempts)| + 1
      ensures |attempts| == |old(attempts)| + 1 ==>
                && attempts[|old(attempts)|].size == size
                && LegsNow()[..|old(attempts)|] == old(LegsNow())
      ensures ok ==> cumulativeFilledBase == Base(LegsNow()[..|old(attempts)|])
    {
      hide Consistent, Retired, PlacedSize, E.Reachable, Legs, AllBased, CheckIntent, ReferencePrice, OidAt;
      OidOfIntent(intent.id, makers, |attempts|);
      ghost var entry := Basis(entryMarket, entryAccount, 0);
      ghost var log := ex.log;
      ok := ex.PlaceOrder(oid, size);
      ghost var next := Attempt(size, refPrice, old(ex.book), cumulativeFilledBase);
      ghost var basis := Basis(market, account, |log|);
      StillBased(intent, params, makers, attempts, bases, entry, log, ex.log);
      if !claimed {
        PlacingOutcome(intent.id, makers, plan, attempts, next, old(ex.book), ex.book);
      }
      if oid !in old(ex.book) && oid in ex.book {
        OneMoreBased(intent, params, makers, attempts, bases, entry, ex.log, next, basis);
        attempts, bases := attempts + [next], bases + [basis];
      }
    }

    /** Ask the exchange for the order, while the process may break down before or after. */
    method Send(oid: string, size: real, refPrice: real, ghost market: Market, ghost account: Account)
      returns (ending: Ending)
      requires Ready()
      requires |attempts| <= makers && !RemainingIsDust(plan.target, cumulativeFilledBase)
      requires oid == OidAt(intent.id, makers, |attempts|)
      requires Priced(plan, refPrice) && size == PlacedSize(plan, cumulativeFilledBase, refPrice)
      requires Based() && Informed(market, account)
      requires refPrice == ReferencePrice(ModeAt(makers, |attempts|), OrderSideOf(intent), market)
      modifies this`attempts, this`bases, ex
      ensures OnlyAdds(intent.id, old(ex.book), ex.book) && old(attempts) <= attempts
      ensures claimed ==> Quiet(intent.id, old(ex.book), ex.book)
      ensures Settled() && Based() && old(ex.log) <= ex.log
      ensures ending.Going? || ending.InfraError? || ending.Crashed? || ending == Rejected(Refused(oid, size))
      ensures Justified(intent, params, entryMarket, ending, ex.log, |old(ex.log)|)
      ensures ending.Going? ==>
                && !claimed && |attempts| == |old(attempts)| + 1 && attempts[|old(attempts)|].size == size
                && Recorded() && LegsNow()[..|old(attempts)|] == old(LegsNow())
                && cumulativeFilledBase == Base(LegsNow()[..|old(attempts)|])
                && ex.log == old(ex.log) + [SentOrder(oid, size, true)]
    {
      hide Consistent, Retired, PlacedSize, Base, AllBased, CheckIntent, Justified, ReferencePrice, OrderSideOf,
           OnlyAdds, Quiet, RemainingIsDust, OidAt, Evolves, Based, Informed, Ready, Legs;
      NoChange(intent.id, ex.book);
      ReadyIsSettled();
      var fault := ex.Breakdown();
      if fault.Some? {
        BasedStill();
        StruckIsJustified(intent, params, entryMarket, fault.value, ex.log, |old(ex.log)|);
        return Struck(fault.value);
      }
      var ok := Place(oid, size, refPrice, market, account);
      label placed:
      fault := ex.Breakdown();
      if fault.Some? {
        BasedStill@placed();
        StruckIsJustified(intent, params, entryMarket, fault.value, ex.log, |old(ex.log)|);
        return Struck(fault.value);
      }
      NothingToJustify(intent, params, entryMarket, Going, ex.log, |old(ex.log)|);
      ending := Going;
      if !ok {
        RefusedIsJustified(intent, params, entryMarket, oid, size, ex.log, |old(ex.log)|);
        ending := Rejected(Refused(oid, size));
      }
    }

    /**
      Record the attempt, place the order, record the acknowledgement. Both the
      maker and the taker go through here.
    */
    method Submit(mode: OrderMode, number: nat, market: Market, ghost account: Account)
      returns (ending: Ending, oid: string, size: real)
      requires Ready() && (!claimed ==> RowsAgree(|attempts|))
      requires |attempts| <= makers && !RemainingIsDust(plan.target, cumulativeFilledBase)
      requires OidAt(intent.id, makers, |attempts|) == StableClientOid(intent.id, mode, number)
      requires mode == ModeAt(makers, |attempts|) && Based() && Informed(market, account)
      modifies this`attempts, this`bases, ex, db`intents, db`orders
      ensures OnlyAdds(intent.id, old(ex.book), ex.book) && old(attempts) <= attempts
      ensures claimed ==> Quiet(intent.id, old(ex.book), ex.book)
      ensures Settled() && Based() && old(ex.log) <= ex.log
      ensures !ending.Done? && !ending.NotConverged?
      ensures Justified(intent, params, entryMarket, ending, ex.log, |old(ex.log)|)
      ensures StatusAfter(intent.id, old(db.intents), db.intents, ending)
      ensures oid == OidAt(intent.id, makers, |old(attempts)|) && oid in db.orders
      ensures ending.Rejected? ==> db.orders[oid].status.RowRejected?
      ensures ending.Going? ==>
                && !claimed && Recorded() && Outstanding() && |attempts| == |old(attempts)| + 1
                && size == attempts[|old(attempts)|].size && db.orders[oid] == OrderRow(Submitted, size, 0.0)
                && |ex.log| > |old(ex.log)| && ex.log[|ex.log| - 1] == SentOrder(oid, size, true)
    {
      hide Consistent, Retired, PlacedSize, StableClientOid, Base, AllBased, CheckIntent, Justified, ReferencePrice,
           OrderSideOf, OnlyAdds, Quiet, RemainingIsDust, OidAt, Evolves, Based, Informed, Ready, Settled, Recorded;
      NoChange(intent.id, ex.book);
      ReadyIsSettled();
      forall i | 0 <= i < |attempts| ensures OidAt(intent.id, makers, i) != OidAt(intent.id, makers, |attempts|) {
        OidsDiffer(intent.id, makers, i, |attempts|);
      }
      oid := StableClientOid(intent.id, mode, number);
      var refPrice := ReferencePrice(mode, OrderSideOf(intent), market);
      size := 0.0;
      if !Priced(plan, refPrice) {
        // A size taken at a price that is not positive is no order size; the exchange refuses it.
        db.UpsertOrder(oid, OrderRow(RowRejected, 0.0, 0.0));
        db.SetIntentStatus(intent.id, Failed("place-order rejected"));
        UnpricedAsInformed(mode, market, account);
        return Rejected(Unpriced(mode, market)), oid, size;
      }
      size := PlacedSize(plan, cumulativeFilledBase, refPrice);
      db.UpsertOrder(oid, OrderRow(Submitting, size, 0.0));
      ending := Send(oid, size, refPrice, market, account);
      if ending.Going? {
        db.UpsertOrder(oid, OrderRow(Submitted, size, 0.0));
      } else if ending.Rejected? {
        db.UpsertOrder(oid, OrderRow(RowRejected, size, 0.0));
        db.SetIntentStatus(intent.id, Failed("place-order rejected"));
      }
    }

    lemma ReadyIsSettled()
      requires Ready()
      ensures Settled()
    {
    }

    /** When nothing is outstanding the next order may be placed, under the next id. */
    lemma ValidIsReady()
      requires Valid() && !exec.View().needsCancelConfirmation && !exec.View().filled
      ensures Ready() && E.Reachable(makers, exec.View()) && |attempts| == exec.View().makerAttempts <= makers
      ensures Sound(plan) && plan.isClose == intent.action.Close?
      ensures !claimed ==> Idle() && Recorded() && RowsAgree(|attempts|)
    {
      hide Consistent, Retired, Legs, Base;
    }

    lemma ValidIsOutstanding()
      requires Valid() && exec.View().needsCancelConfirmation
      ensures !claimed && Recorded() && Outstanding() && Sound(plan) && plan.isClose == intent.action.Close?
      ensures var m := exec.View(); E.Reachable(makers, m) && !m.filled && |attempts| == m.makerAttempts + 1
      ensures liveClientOid == Some(OidAt(intent.id, makers, |attempts| - 1))
      ensures liveOrderSize == attempts[|attempts| - 1].size
    {
      hide Consistent, Retired, Legs, Base;
    }

    /** A dust remainder concludes the execution. */
    twostate lemma DustIsValid()
      requires old(Valid()) && unchanged(this) && unchanged(ex`book) && unchanged(db`orders)
      requires !old(exec.View()).filled && !old(exec.View()).needsCancelConfirmation
      requires exec.View() == E.Filled(old(exec.View())) && RemainingIsDust(plan.target, cumulativeFilledBase)
      ensures Valid()
    {
      hide Consistent, Retired, RemainingBase;
    }

    /** A longer log takes nothing back. */
    twostate lemma BasedStill()
      requires old(Based()) && old(ex.log) <= ex.log && attempts == old(attempts) && bases == old(bases)
      ensures Based()
    {
      hide AllBased;
      StillBased(intent, params, makers, attempts, bases, Basis(entryMarket, entryAccount, 0), old(ex.log), ex.log);
    }

    /** The first maker goes by what the intent was approved on. */
    lemma ApprovalInforms()
      requires Based() && |attempts| == 0 < makers
      ensures Informed(entryMarket, entryAccount)
    {
    }

    lemma UnpricedAsInformed(mode: OrderMode, market: Market, account: Account)
      requires Informed(market, account) && ReferencePrice(mode, OrderSideOf(intent), market) <= 0.0
      ensures Justified(intent, params, entryMarket, Rejected(Unpriced(mode, market)), ex.log, |ex.log|)
    {
      hide ReferencePrice, CheckIntent;
    }

    /** Count the newest order's fill and write it to its row: from here on nothing is outstanding. */
    method Retire(oid: string, filled: real, row: OrderRow)
      requires !claimed && Recorded() && Outstanding()
      requires oid == OidAt(intent.id, makers, |attempts| - 1) && oid in ex.book
      requires !Working(ex.book[oid]) && filled == ex.book[oid].filled == row.filledSize
      modifies this`cumulativeFilledBase, this`liveClientOid, db`orders
      ensures Recorded() && Idle() && liveClientOid.None?
      ensures cumulativeFilledBase == old(cumulativeFilledBase) + filled && db.orders == old(db.orders)[oid := row]
    {
      hide Consistent, Retired, Legs, Base;
      CountingTheNewest(oid);
      forall i | 0 <= i < |attempts| - 1 ensures OidAt(intent.id, makers, i) != oid {
        RecordedOids();
        OidsDiffer(intent.id, makers, i, |attempts| - 1);
      }
      cumulativeFilledBase := cumulativeFilledBase + filled;
      db.UpsertOrder(oid, row);
      liveClientOid := None;
    }

    lemma RecordedOids()
      requires Recorded()
      ensures |attempts| <= makers + 1
    {
    }

    /** A fresh price and a fresh risk check before anything but the first order. */
    method Recheck() returns (ending: Ending, market: Market, ghost checked: Account)
      modifies db`intents, ex`log
      ensures !ending.Done? && !ending.NotConverged? && old(ex.log) <= ex.log
      ensures StatusAfter(intent.id, old(db.intents), db.intents, ending)
      ensures Justified(intent, params, entryMarket, ending, ex.log, |old(ex.log)|)
      ensures ending.Going? ==>
                JustAsked(ex.log, |ex.log|, market, checked) && CheckIntent(intent, checked, params).Ok?
    {
      market, checked := entryMarket, entryAccount;
      var refreshed := ex.FetchMarket();
      if refreshed.None? {
        db.SetIntentStatus(intent.id, Failed("market refresh failed"));
        return Rejected(NoQuote), market, checked;
      }
      market := refreshed.value;
      var account := ex.FetchAccount();
      if account.None? {
        return InfraError, market, checked;
      }
      checked := account.value;
      if CheckIntent(intent, account.value, params).Err? {
        db.SetIntentStatus(intent.id, Failed("risk gate rejected on retry"));
        return Rejected(RiskOnRetry), market, checked;
      }
      ending := Going;
    }

    /** The first maker goes by what the intent was approved on, a retry by a fresh look. */
    method LookBefore(attempt: nat) returns (ending: Ending, market: Market, ghost checked: Account)
      requires Based() && (attempt <= 1 ==> |attempts| == 0 < makers) && (attempt > 1 ==> attempts != [])
      modifies db`intents, ex`log
      ensures Based() && old(ex.log) <= ex.log
      ensures !ending.Done? && !ending.NotConverged?
      ensures StatusAfter(intent.id, old(db.intents), db.intents, ending)
      ensures Justified(intent, params, entryMarket, ending, ex.log, |old(ex.log)|)
      ensures ending.Going? ==> Informed(market, checked)
    {
      hide Based, StatusAfter, Justified, CheckIntent, JustAsked;
      if attempt > 1 {
        ending, market, checked := Recheck();
        BasedStill();
      } else {
        ending, market, checked := Going, entryMarket, entryAccount;
        ApprovalInforms();
        NoStatusChange(intent.id, db.intents, Going);
        NothingToJustify(intent, params, entryMarket, Going, ex.log, |ex.log|);
      }
    }

    method PlaceMaker(attempt: nat) returns (ending: Ending)
      requires Valid() && E.NextCommand(exec.View(), makers) == E.PlaceMaker(attempt)
      requires Based()
      modifies this, exec, ex, db`intents, db`orders
      ensures OnlyAdds(intent.id, old(ex.book), ex.book) && old(attempts) <= attempts
      ensures claimed ==> Quiet(intent.id, old(ex.book), ex.book)
      ensures Settled() && Based() && old(ex.log) <= ex.log
      ensures !ending.Done? && !ending.NotConverged?
      ensures Justified(intent, params, entryMarket, ending, ex.log, |old(ex.log)|)
      ensures StatusAfter(intent.id, old(db.intents), db.intents, ending)
      ensures ending.Going? ==> Valid() && E.Step(makers, old(exec.View()), exec.View())
    {
      hide Consistent, Retired, Legs, Base, RemainingBase, Working, OfIntent, Evolves, Drifts, OnlyAdds, Quiet,
           StatusAfter, Justified, AllBased, CheckIntent, ReferencePrice, LiveUntil, AllLive, JustAsked, Valid, Idle,
           Outstanding, Ready, Settled, Based, Recorded, RemainingIsDust, StableClientOid, Informed, RowsAgree, LegsNow,
           SeenFilled, PlacedSize, Priced;
      NoStatusChange(intent.id, db.intents, Going);
      NoChange(intent.id, ex.book);
      ValidIsReady();
      ValidIsSettled();
      var market;
      ghost var checked;
      ending, market, checked := LookBefore(attempt);
      if !ending.Going? {
        return;
      }
      label start:
      if RemainingIsDust(plan.target, cumulativeFilledBase) {
        NothingToJustify(intent, params, entryMarket, Going, ex.log, |old(ex.log)|);
        exec.OnOrderFilled();
        DustIsValid@start();
        return Going;
      }
      ghost var rows, log := db.intents, ex.log;
      ending := RestMaker(attempt, market, checked);
      StatusComposes(intent.id, old(db.intents), rows, db.intents, ending);
      JustifiedEarlier(intent, params, entryMarket, ending, ex.log, |log|, |old(ex.log)|);
    }

    /** Submit the maker order and wait for what becomes of it. */
    method RestMaker(attempt: nat, market: Market, ghost checked: Account) returns (ending: Ending)
      requires Valid() && E.NextCommand(exec.View(), makers) == E.PlaceMaker(attempt)
      requires Based() && Informed(market, checked) && !RemainingIsDust(plan.target, cumulativeFilledBase)
      modifies this, exec, ex, db`intents, db`orders
      ensures OnlyAdds(intent.id, old(ex.book), ex.book) && old(attempts) <= attempts
      ensures claimed ==> Quiet(intent.id, old(ex.book), ex.book)
      ensures Settled() && Based() && old(ex.log) <= ex.log
      ensures !ending.Done? && !ending.NotConverged?
      ensures Justified(intent, params, entryMarket, ending, ex.log, |old(ex.log)|)
      ensures StatusAfter(intent.id, old(db.intents), db.intents, ending)
      ensures ending.Going? ==> Valid() && E.Step(makers, old(exec.View()), exec.View())
    {
      hide Consistent, Retired, Legs, Base, RemainingBase, Working, OfIntent, Evolves, Drifts, OnlyAdds, Quiet,
           StatusAfter, Justified, AllBased, CheckIntent, ReferencePrice, LiveUntil, AllLive, JustAsked, Valid, Idle,
           Outstanding, Ready, Settled, Based, Recorded, RemainingIsDust, StableClientOid, Informed, RowsAgree, LegsNow,
           SeenFilled, PlacedSize, Priced;
      ValidIsReady();
      var oid, size;
      ending, oid, size := Submit(Maker, attempt, market, checked);
      if !ending.Going? {
        return;
      }
      liveOrderSize := size;
      liveClientOid := Some(oid);
      exec.OnOrderPlaced();
      ghost var rows, log := db.intents, ex.log;
      label placed:
      ghost var answer;
      ending, answer := AwaitMaker(oid);
      NoStatusChange(intent.id, rows, ending);
      BasedStill@placed();
      JustifiedEarlier(intent, params, entryMarket, ending, ex.log, |log|, |old(ex.log)|);
      StatusComposes(intent.id, old(db.intents), rows, db.intents, ending);
      PlacedThenDrifted(intent.id, old(ex.book), old@placed(ex.book), ex.book);
    }

    /** A poll classified as anything but live describes an order that cannot trade any more. */
    lemma NewestReadFinal(oid: string, poll: Poll)
      requires Recorded() && attempts != [] && oid == OidAt(intent.id, makers, |attempts| - 1)
      requires liveOrderSize == attempts[|attempts| - 1].size
      requires poll.Read? ==> oid in ex.book && poll == Read(ex.book[oid].phase, ex.book[oid].filled)
      ensures !PollOrder(poll, liveOrderSize).0.PollLive? ==>
                oid in ex.book && !Working(ex.book[oid]) && PollOrder(poll, liveOrderSize).1 == ex.book[oid].filled
      ensures var outcome := PollOrder(poll, liveOrderSize).0;
              && (!outcome.PollLive? ==> LastOrderDone(ex.book[oid], outcome.PollVanished?))
              && (outcome.PollVanished? ==> ex.book[oid].phase.Vanished?)
    {
    }

    /**
      Ask about the newest order until an answer shows it can no longer trade, or
      often enough. A failed request and an order still live are asked about again.
    */
    method Watch(oid: string, polls: nat)
      returns (ending: Ending, outcome: PollOutcome, filled: real, ghost answer: Poll)
      requires !claimed && Recorded() && Outstanding()
      requires oid == OidAt(intent.id, makers, |attempts| - 1)
      requires liveOrderSize == attempts[|attempts| - 1].size
      modifies ex
      ensures Drifts(old(ex.book), ex.book) && Recorded() && Outstanding() && old(ex.log) <= ex.log
      ensures ending.Going? || ending.InfraError? || ending.Crashed?
      ensures Justified(intent, params, entryMarket, ending, ex.log, |old(ex.log)|)
      ensures ending.Going? && outcome.PollLive? ==>
                AllLive(ex.log, |old(ex.log)|, oid, liveOrderSize) && |ex.log| == |old(ex.log)| + polls
      ensures ending.Going? && !outcome.PollLive? ==>
                && LiveUntil(ex.log, |old(ex.log)|, oid, liveOrderSize, answer)
                && answer.Read? && answer.filled == filled && outcome.PollFilled? == SeenFilled(answer, liveOrderSize)
                && (outcome.PollVanished? ==> answer.phase.Vanished?)
      ensures ending.Going? && !outcome.PollLive? ==>
                && oid in ex.book && !Working(ex.book[oid]) && filled == ex.book[oid].filled
                && LastOrderDone(ex.book[oid], outcome.PollVanished?)
    {
      hide Consistent, Retired, Legs, Base, Working, Drifts, OfIntent, AllLive, LiveUntil, MayTrade, PollOrder,
           Justified, SeenFilled, LastOrderDone;
      NothingDrifted(ex.book);
      NothingRead(ex.log, oid, liveOrderSize);
      ending, outcome, filled, answer := Going, PollLive, 0.0, Unreadable;
      var n := 0;
      while n < polls
        invariant 0 <= n <= polls && Recorded() && Outstanding()
        invariant Drifts(old(ex.book), ex.book)
        invariant old(ex.log) <= ex.log && |ex.log| == |old(ex.log)| + n
        invariant ending.Going? && outcome.PollLive? && AllLive(ex.log, |old(ex.log)|, oid, liveOrderSize)
      {
        label before:
        var poll := ex.GetOrderDetail(oid);
        SurvivesDrift@before();
        DriftsTransitive(old(ex.book), old@before(ex.book), ex.book);
        OneMoreRead(old@before(ex.log), |old(ex.log)|, oid, liveOrderSize, poll);
        var fault := ex.Breakdown();
        if fault.Some? {
          StruckIsJustified(intent, params, entryMarket, fault.value, ex.log, |old(ex.log)|);
          return Struck(fault.value), outcome, filled, poll;
        }
        PollMeans(poll, liveOrderSize);
        NothingToJustify(intent, params, entryMarket, Going, ex.log, |old(ex.log)|);
        outcome, filled := PollOrder(poll, liveOrderSize).0, PollOrder(poll, liveOrderSize).1;
        if !outcome.PollLive? {
          NewestReadFinal(oid, poll);
          return Going, outcome, filled, poll;
        }
        n := n + 1;
      }
      NothingToJustify(intent, params, entryMarket, Going, ex.log, |old(ex.log)|);
    }

    /**
      Poll the maker order until it fills, goes away or its time is up. It is called
      filled on the answer that said so, and timed out when no answer did.
    */
    method AwaitMaker(oid: string) returns (ending: Ending, ghost answer: Poll)
      requires !claimed && Recorded() && Outstanding()
      requires oid == OidAt(intent.id, makers, |attempts| - 1)
      requires liveOrderSize == attempts[|attempts| - 1].size && liveClientOid == Some(oid)
      requires var m := exec.View();
               E.Reachable(makers, m.(hasLiveOrder := false)) && m.hasLiveOrder && !m.filled
               && m.makerAttempts < makers && |attempts| == m.makerAttempts + 1
      requires Sound(plan) && plan.isClose == intent.action.Close?
      modifies this`cumulativeFilledBase, this`liveClientOid, exec, ex, db`intents, db`orders
      ensures Drifts(old(ex.book), ex.book) && Settled() && old(ex.log) <= ex.log
      ensures ending.Going? || ending.InfraError? || ending.Crashed?
      ensures Justified(intent, params, entryMarket, ending, ex.log, |old(ex.log)|)
      ensures db.intents == old(db.intents)
      ensures ending.Going? ==> Valid()
      ensures ending.Going? ==> exec.View() in {E.Filled(old(exec.View())), E.TimedOut(old(exec.View()))}
      ensures ending.Going? && exec.View().filled ==>
                LiveUntil(ex.log, |old(ex.log)|, oid, liveOrderSize, answer) && SeenFilled(answer, liveOrderSize)
                && answer.Read? && cumulativeFilledBase == old(cumulativeFilledBase) + answer.filled
                && oid in db.orders && db.orders[oid] == OrderRow(RowFilled, liveOrderSize, answer.filled)
      ensures ending.Going? && !exec.View().filled ==>
                || AllLive(ex.log, |old(ex.log)|, oid, liveOrderSize)
                || (LiveUntil(ex.log, |old(ex.log)|, oid, liveOrderSize, answer) && !SeenFilled(answer, liveOrderSize))
    {
      hide Consistent, Retired, Legs, Base, Working, Drifts, OfIntent, AllLive, LiveUntil, Justified, SeenFilled,
           Outstanding, Idle, LastOrderDone, Valid;
      var polls: nat := *;
      var outcome, filled;
      ending, outcome, filled, answer := Watch(oid, polls);
      if !ending.Going? {
        return;
      }
      if outcome.PollFilled? {
        Retire(oid, filled, OrderRow(RowFilled, liveOrderSize, filled));
        exec.OnOrderFilled();
        CountedIsValid(oid);
      } else {
        exec.OnOrderTimeout();
        OutstandingIsValid();
      }
    }

    /** With the newest order done and everything counted the machine may have stopped. */
    lemma CountedIsValid(oid: string)
      requires !claimed && Recorded() && Idle() && attempts != [] && oid == OidAt(intent.id, makers, |attempts| - 1)
      requires Sound(plan) && plan.isClose == intent.action.Close?
      requires E.Reachable(makers, exec.View()) && !exec.View().needsCancelConfirmation
      requires if exec.View().filled then oid in ex.book && LastOrderDone(ex.book[oid], |attempts| == makers + 1)
               else |attempts| == exec.View().makerAttempts
      ensures Valid()
    {
      hide Consistent, Retired, Legs, Base, Idle, LastOrderDone, OidAt;
    }

    lemma OutstandingIsValid()
      requires !claimed && Recorded() && Outstanding() && Sound(plan) && plan.isClose == intent.action.Close?
      requires var m := exec.View();
               E.Reachable(makers, m) && m.needsCancelConfirmation && |attempts| == m.makerAttempts + 1
      requires liveClientOid == Some(OidAt(intent.id, makers, |attempts| - 1))
      requires liveOrderSize == attempts[|attempts| - 1].size
      ensures Valid()
    {
      hide Consistent, Retired, Legs, Base, Outstanding;
    }

    /** Cancel the live maker order and confirm that it can no longer trade. */
    method CancelCurrent() returns (ending: Ending, ghost answer: Poll)
      requires Valid() && E.NextCommand(exec.View(), makers) == E.CancelCurrent
      modifies this`cumulativeFilledBase, this`liveClientOid, exec, ex, db`intents, db`orders
      ensures Drifts(old(ex.book), ex.book) && Settled()
      ensures old(ex.log) + [SentCancel(old(liveClientOid).value)] <= ex.log
      ensures ending.Rejected? ==> ending.why == NotConfirmed(old(liveClientOid).value, liveOrderSize)
      ensures !ending.Done? && !ending.NotConverged?
      ensures Justified(intent, params, entryMarket, ending, ex.log, |old(ex.log)|)
      ensures StatusAfter(intent.id, old(db.intents), db.intents, ending)
      ensures ending.Going? ==> Valid() && E.Step(makers, old(exec.View()), exec.View())
      ensures ending.Going? ==>
                && LiveUntil(ex.log, |old(ex.log)| + 1, old(liveClientOid).value, liveOrderSize, answer)
                && exec.View().filled == SeenFilled(answer, liveOrderSize)
                && answer.Read? && cumulativeFilledBase == old(cumulativeFilledBase) + answer.filled
    {
      hide Consistent, Retired, Legs, Base, Working, Drifts, OfIntent, AllLive, LiveUntil, Justified, LiveThroughout,
           SeenFilled, LastOrderDone, Outstanding, Idle, Valid, StatusAfter;
      answer := Unreadable;
      ValidIsOutstanding();
      var oid := liveClientOid.value;
      label before:
      ex.CancelOrder(oid);
      SurvivesDrift@before();
      ghost var log, mid := ex.log, ex.book;
      var fault := ex.Breakdown();
      if fault.Some? {
        NoStatusChange(intent.id, db.intents, Struck(fault.value));
        StruckIsJustified(intent, params, entryMarket, fault.value, ex.log, |old(ex.log)|);
        return Struck(fault.value), answer;
      }
      ending, answer := AwaitCancelled(oid);
      DriftsTransitive(old(ex.book), mid, ex.book);
      JustifiedEarlier(intent, params, entryMarket, ending, ex.log, |log|, |old(ex.log)|);
    }

    /** Only a whole window in which the order never was seen done or gone fails the intent. */
    method AwaitCancelled(oid: string) returns (ending: Ending, ghost answer: Poll)
      requires !claimed && Recorded() && Outstanding() && Sound(plan) && plan.isClose == intent.action.Close?
      requires oid == OidAt(intent.id, makers, |attempts| - 1)
      requires liveOrderSize == attempts[|attempts| - 1].size
      requires var m := exec.View();
               E.Reachable(makers, m) && m.needsCancelConfirmation && !m.filled && |attempts| == m.makerAttempts + 1
      requires ex.log != [] && !ex.log[|ex.log| - 1].SawOrder?
      modifies this`cumulativeFilledBase, this`liveClientOid, exec, ex, db`intents, db`orders
      ensures Drifts(old(ex.book), ex.book) && Settled() && old(ex.log) <= ex.log
      ensures ending.Rejected? ==> ending.why == NotConfirmed(oid, liveOrderSize)
      ensures !ending.Done? && !ending.NotConverged?
      ensures Justified(intent, params, entryMarket, ending, ex.log, |old(ex.log)|)
      ensures StatusAfter(intent.id, old(db.intents), db.intents, ending)
      ensures ending.Going? ==> Valid()
      ensures ending.Going? ==>
                && LiveUntil(ex.log, |old(ex.log)|, oid, liveOrderSize, answer)
                && answer.Read? && cumulativeFilledBase == old(cumulativeFilledBase) + answer.filled
                && exec.View() == if SeenFilled(answer, liveOrderSize) then E.Filled(old(exec.View()))
                                  else E.Cancelled(old(exec.View()))
    {
      hide Consistent, Retired, Legs, Base, Working, Drifts, OfIntent, AllLive, LiveUntil, Justified, LiveThroughout,
           SeenFilled, LastOrderDone, Outstanding, Idle, Valid, StatusAfter;
      var polls: nat :| polls > 0;
      var outcome, filled;
      ending, outcome, filled, answer := Watch(oid, polls);
      NoStatusChange(intent.id, db.intents, ending);
      if !ending.Going? {
        return;
      }
      if outcome.PollLive? {
        NeverConfirmed(oid, old(ex.log));
        db.SetIntentStatus(intent.id, Failed("could not confirm maker cancellation"));
        FailsTheRow(intent.id, old(db.intents), db.intents, "could not confirm maker cancellation",
                    NotConfirmed(oid, liveOrderSize));
        return Rejected(NotConfirmed(oid, liveOrderSize)), answer;
      }
      CountCancelled(oid, outcome, filled);
    }

    /** A window of answers that all left the order working is reason enough to give up. */
    lemma NeverConfirmed(oid: string, log: seq<Call>)
      requires log != [] && !log[|log| - 1].SawOrder? && log <= ex.log && |ex.log| > |log|
      requires AllLive(ex.log, |log|, oid, liveOrderSize)
      ensures Justified(intent, params, entryMarket, Rejected(NotConfirmed(oid, liveOrderSize)), ex.log, |log|)
    {
      hide AllLive;
    }

    /** The order is gone: count what it filled, and free the machine for the next attempt unless it filled whole. */
    method CountCancelled(oid: string, outcome: PollOutcome, filled: real)
      requires !claimed && Recorded() && Outstanding() && Sound(plan) && plan.isClose == intent.action.Close?
      requires oid == OidAt(intent.id, makers, |attempts| - 1) && oid in ex.book
      requires !Working(ex.book[oid]) && filled == ex.book[oid].filled && !outcome.PollLive?
      requires LastOrderDone(ex.book[oid], outcome.PollVanished?)
      requires var m := exec.View();
               E.Reachable(makers, m) && m.needsCancelConfirmation && !m.filled && |attempts| == m.makerAttempts + 1
      modifies this`cumulativeFilledBase, this`liveClientOid, exec, db`orders
      ensures Valid()
      ensures exec.View() == if outcome.PollFilled? then E.Filled(old(exec.View())) else E.Cancelled(old(exec.View()))
      ensures cumulativeFilledBase == old(cumulativeFilledBase) + filled
      ensures oid in db.orders && db.orders[oid].status == if outcome.PollFilled? then RowFilled else RowCancelled
    {
      hide Consistent, Retired, Legs, Base, Working, OfIntent;
      var row := if oid in db.orders then db.orders[oid] else OrderRow(Submitted, liveOrderSize, 0.0);
      Retire(oid, filled, OrderRow(if outcome.PollFilled? then RowFilled else RowCancelled, row.size, filled));
      if outcome.PollFilled? {
        exec.OnOrderFilled();
      } else {
        exec.OnOrderCancelled();
      }
    }

    method PlaceTaker() returns (ending: Ending)
      requires Valid() && E.NextCommand(exec.View(), makers) == E.PlaceTaker
      requires Based()
      modifies this, exec, ex, db`intents, db`orders
      ensures OnlyAdds(intent.id, old(ex.book), ex.book) && old(attempts) <= attempts
      ensures claimed ==> Quiet(intent.id, old(ex.book), ex.book)
      ensures Settled() && Based() && old(ex.log) <= ex.log
      ensures !ending.Done? && !ending.NotConverged?
      ensures Justified(intent, params, entryMarket, ending, ex.log, |old(ex.log)|)
      ensures StatusAfter(intent.id, old(db.intents), db.intents, ending)
      ensures ending.Going? ==> Valid() && E.Step(makers, old(exec.View()), exec.View())
    {
      hide Consistent, Retired, Legs, Base, RemainingBase, Working, OfIntent, Evolves, Drifts, OnlyAdds, Quiet,
           StatusAfter, Justified, AllBased, CheckIntent, ReferencePrice, LiveUntil, AllLive, JustAsked, Valid, Idle,
           Outstanding, Ready, Settled, Based, Recorded, RemainingIsDust, StableClientOid, RowsAgree, LegsNow,
           SeenFilled, PlacedSize, Priced;
      NoStatusChange(intent.id, db.intents, Going);
      NoChange(intent.id, ex.book);
      ValidIsReady();
      ValidIsSettled();
      var market;
      ghost var checked;
      ending, market, checked := Recheck();
      BasedStill();
      if !ending.Going? {
        return;
      }
      label start:
      if RemainingIsDust(plan.target, cumulativeFilledBase) {
        NothingToJustify(intent, params, entryMarket, Going, ex.log, |old(ex.log)|);
        exec.OnOrderFilled();
        DustIsValid@start();
        return Going;
      }
      ghost var rows, log := db.intents, ex.log;
      var oid, size;
      ending, oid, size := Submit(Taker, 1, market, checked);
      StatusComposes(intent.id, old(db.intents), rows, db.intents, ending);
      JustifiedEarlier(intent, params, entryMarket, ending, ex.log, |log|, |old(ex.log)|);
      rows, log := db.intents, ex.log;
      if !ending.Going? {
        return;
      }
      liveOrderSize := size;
      exec.OnTakerSent();
      label placed:
      ghost var answer;
      ending, answer := AwaitTaker(oid);
      BasedStill@placed();
      JustifiedEarlier(intent, params, entryMarket, ending, ex.log, |log|, |old(ex.log)|);
      StatusComposes(intent.id, old(db.intents), rows, db.intents, ending);
      PlacedThenDrifted(intent.id, old(ex.book), old@placed(ex.book), ex.book);
    }

    /** Only a fill seen on a retired order finishes the intent; anything else is left to reconciliation. */
    method AwaitTaker(oid: string) returns (ending: Ending, ghost answer: Poll)
      requires !claimed && Recorded() && Outstanding()
      requires oid == OidAt(intent.id, makers, |attempts| - 1) && |attempts| == makers + 1
      requires liveOrderSize == attempts[|attempts| - 1].size
      requires E.Reachable(makers, E.Filled(exec.View()))
      requires Sound(plan) && plan.isClose == intent.action.Close?
      requires ex.log != [] && !ex.log[|ex.log| - 1].SawOrder?
      modifies this`cumulativeFilledBase, this`liveClientOid, exec, ex, db`intents, db`orders
      ensures Drifts(old(ex.book), ex.book) && Settled() && old(ex.log) <= ex.log
      ensures !ending.Done? && !ending.NotConverged?
      ensures ending.Rejected? ==> ending.why in {NotConfirmed(oid, liveOrderSize), TakerGone(oid)}
      ensures ending.Rejected? && oid in db.orders ==> db.orders[oid].status.NeedsReconcile?
      ensures Justified(intent, params, entryMarket, ending, ex.log, |old(ex.log)|)
      ensures StatusAfter(intent.id, old(db.intents), db.intents, ending)
      ensures ending.Going? ==> Valid() && exec.View() == E.Filled(old(exec.View()))
      ensures ending.Going? ==>
                && LiveUntil(ex.log, |old(ex.log)|, oid, liveOrderSize, answer) && answer.Read?
                && (SeenFilled(answer, liveOrderSize) || (answer.phase.Vanished? && answer.filled > 0.0))
                && cumulativeFilledBase == old(cumulativeFilledBase) + answer.filled
    {
      hide Consistent, Retired, Legs, Base, Working, Drifts, OfIntent, AllLive, LiveUntil, LiveThroughout, Justified,
           SeenFilled, LastOrderDone, Outstanding, Idle, Valid;
      var polls: nat :| polls > 0;
      var outcome, filled;
      ending, outcome, filled, answer := Watch(oid, polls);
      if !ending.Going? {
        return;
      }
      if outcome.PollLive? {
        NeverConfirmed(oid, old(ex.log));
        if filled > 0.0 {
          db.SetOrderFilledSize(oid, filled);
        }
        db.SetOrderStatus(oid, NeedsReconcile);
        db.SetIntentStatus(intent.id, Failed("taker fill not confirmed in window"));
        return Rejected(NotConfirmed(oid, liveOrderSize)), answer;
      }
      if outcome.PollVanished? && filled <= 0.0 {
        GoneIsJustified(intent, params, entryMarket, oid, liveOrderSize, answer, ex.log, |old(ex.log)|);
        db.SetOrderStatus(oid, NeedsReconcile);
        db.SetIntentStatus(intent.id, Failed("taker vanished with no fill"));
        return Rejected(TakerGone(oid)), answer;
      }
      Retire(oid, filled, OrderRow(RowFilled, liveOrderSize, filled));
      exec.OnOrderFilled();
      CountedAsTaker(oid, outcome);
    }

    lemma CountedAsTaker(oid: string, outcome: PollOutcome)
      requires |attempts| == makers + 1 && oid == OidAt(intent.id, makers, makers)
      requires !claimed && Recorded() && Idle()
      requires Sound(plan) && plan.isClose == intent.action.Close?
      requires E.Reachable(makers, exec.View()) && exec.View().filled
      requires oid in ex.book && LastOrderDone(ex.book[oid], outcome.PollVanished?)
      ensures Valid()
    {
      hide Consistent, Retired, Legs, Base, Idle, OidAt;
    }

    /** Carry out whatever the machine asks for next. */
    method Issue() returns (ending: Ending)
      requires Valid() && !E.NextCommand(exec.View(), makers).Wait? && Based()
      modifies this, exec, ex, db`intents, db`orders
      ensures OnlyAdds(intent.id, old(ex.book), ex.book) && Settled() && Based() && old(ex.log) <= ex.log
      ensures claimed ==> Quiet(intent.id, old(ex.book), ex.book)
      ensures !ending.NotConverged?
      ensures Justified(intent, params, entryMarket, ending, ex.log, |old(ex.log)|)
      ensures StatusAfter(intent.id, old(db.intents), db.intents, ending)
      ensures ending.Going? ==> Valid() && E.Step(makers, old(exec.View()), exec.View())
      ensures ending.Done? ==>
                !claimed && Idle() && Concluded() && exec.View() == old(exec.View()) && exec.View().filled
    {
      hide Consistent, Retired, Legs, Base, RemainingIsDust, RemainingBase;
      match E.NextCommand(exec.View(), makers)
      case PlaceMaker(attempt) => ending := PlaceMaker(attempt);
      case CancelCurrent =>
        ghost var answer;
        ending, answer := CancelCurrent();
        BasedStill();
      case PlaceTaker => ending := PlaceTaker();
      case MarkIntentExecuted =>
        db.SetIntentStatus(intent.id, Executed);
        ending := Done;
    }

    /**
      Issue commands until one ends the execution or `cap` of them were issued.
      `run` lists the machines at which the commands were issued.
    */
    method Drive(cap: nat) returns (ending: Ending, commands: nat, ghost run: seq<E.Machine>)
      requires Valid() && exec.View() == E.START && Based()
      modifies this, exec, ex, db`intents, db`orders
      ensures OnlyAdds(intent.id, old(ex.book), ex.book) && Settled() && Based() && old(ex.log) <= ex.log
      ensures claimed ==> Quiet(intent.id, old(ex.book), ex.book)
      ensures E.Run(makers, run)
      ensures commands <= cap && commands <= 2 * makers + 2
      ensures !ending.Going? && Justified(intent, params, entryMarket, ending, ex.log, |old(ex.log)|)
      ensures StatusAfter(intent.id, old(db.intents), db.intents, ending)
      ensures ending.NotConverged? ==> cap < 2 * makers + 2
      ensures ending.Done? ==> !claimed && Idle() && Concluded() && exec.View().filled
    {
      hide Valid, Idle, Evolves, OfIntent, Recorded, E.Step, Based, Justified;
      ValidIsSettled();
      NoChange(intent.id, ex.book);
      commands := 0;
      run := [exec.View()];
      while true
        invariant Valid() && OnlyAdds(intent.id, old(ex.book), ex.book) && Settled()
        invariant Based() && old(ex.log) <= ex.log
        invariant claimed ==> Quiet(intent.id, old(ex.book), ex.book)
        invariant E.Run(makers, run) && run[|run| - 1] == exec.View() && |run| == commands + 1
        invariant commands <= cap && db.intents == old(db.intents)
        decreases cap - commands
      {
        E.RunInvariant(makers, run);
        E.NeverWaitsNeverCancelsNothing(makers, run, commands);
        if commands >= cap {
          NothingToJustify(intent, params, entryMarket, NotConverged, ex.log, |old(ex.log)|);
          db.SetIntentStatus(intent.id, Failed("execution did not converge"));
          return NotConverged, commands, run;
        }
        commands := commands + 1;
        ghost var before, log := ex.book, ex.log;
        ending := Issue();
        JustifiedEarlier(intent, params, entryMarket, ending, ex.log, |log|, |old(ex.log)|);
        ChangesCompose(intent.id, old(ex.book), before, ex.book);
        if !ending.Going? {
          return;
        }
        run := run + [exec.View()];
      }
    }

    lemma ValidIsSettled()
      requires Valid()
      ensures Settled()
    {
    }
  }

  lemma NothingRead(log: seq<Call>, oid: string, size: real)
    ensures AllLive(log, |log|, oid, size)
  {
  }

  lemma NoChange(id: string, book: Book)
    ensures OnlyAdds(id, book, book) && Quiet(id, book, book)
  {
  }

  lemma NothingDrifted(book: Book)
    ensures Drifts(book, book)
  {
  }

  /** A placement and whatever happens while its order is awaited. */
  lemma PlacedThenDrifted(id: string, a: Book, b: Book, c: Book)
    requires OnlyAdds(id, a, b) && Drifts(b, c)
    ensures OnlyAdds(id, a, c)
    ensures Quiet(id, a, b) ==> Quiet(id, a, c)
  {
  }

  lemma ChangesCompose(id: string, a: Book, b: Book, c: Book)
    requires OnlyAdds(id, a, b) && OnlyAdds(id, b, c)
    ensures OnlyAdds(id, a, c)
    ensures Quiet(id, a, b) && Quiet(id, b, c) ==> Quiet(id, a, c)
  {
  }
}
