/**
  The local order and fill tables of one symbol, as the statements reconciliation
  runs against them, and what they record of the exchange's trades. Rows are in
  table order; a sum is the sum over the rows.
*/
module Ledger {
  import opened Common

  datatype Status = Submitting | Submitted | Live | Filled | Cancelled | Rejected | NeedsReconcile
                  | ExternallyCancelled | ExternallyClosed | OtherStatus(text: string)

  datatype OrderRow = OrderRow(orderId: string, clientOid: string, intentId: Option<string>, isOpen: bool,
                               side: OrderSide, status: Status, size: real, filled: real)

  datatype FillRow = FillRow(fillId: string, tradeId: Option<string>, orderId: string, size: real)

  /** A row of the exchange's fill list. `ours` says it is for the configured symbol. */
  datatype FillEntry = FillEntry(orderId: string, tradeId: string, time: string, size: real, ours: bool)

  datatype Books = Books(orders: seq<OrderRow>, fills: seq<FillRow>)

  // ----- the tables

  predicate UniqueKeys(orders: seq<OrderRow>) {
    forall i, j :: 0 <= i < j < |orders| ==>
      orders[i].orderId != orders[j].orderId && orders[i].clientOid != orders[j].clientOid
  }

  predicate HasOrder(orders: seq<OrderRow>, orderId: string) {
    exists i :: 0 <= i < |orders| && orders[i].orderId == orderId
  }

  function SumFills(fills: seq<FillRow>, orderId: string): real {
    if fills == [] then 0.0
    else SumFills(fills[..|fills| - 1], orderId)
         + if fills[|fills| - 1].orderId == orderId then fills[|fills| - 1].size else 0.0
  }

  predicate HasFill(fills: seq<FillRow>, fillId: string) {
    exists i :: 0 <= i < |fills| && fills[i].fillId == fillId
  }

  predicate KnowsTrade(fills: seq<FillRow>, tradeId: string) {
    exists i :: 0 <= i < |fills| && fills[i].tradeId == Some(tradeId)
  }

  function InsertFill(fills: seq<FillRow>, fill: FillRow): seq<FillRow> {
    if HasFill(fills, fill.fillId) then fills else fills + [fill]
  }

  /** The row with `filled` known to be at least this much; a full fill ends the order. */
  function WithFilled(row: OrderRow, filled: real): OrderRow {
    if row.size > 0.0 && filled + DUST_BASE >= row.size then row.(filled := filled, status := Filled)
    else row.(filled := filled)
  }

  function Max(a: real, b: real): real {
    if a < b then b else a
  }

  /** The row after its fills summed to `sum`: never less than was known before. */
  function SyncRow(row: OrderRow, sum: real): OrderRow {
    if sum <= 0.0 then row else WithFilled(row, Max(row.filled, sum))
  }

  /** The row after order detail reported a cumulative fill. */
  function DetailRow(row: OrderRow, filled: real): OrderRow {
    if filled <= 0.0 then row else WithFilled(row, filled)
  }

  function SyncOrders(orders: seq<OrderRow>, orderId: string, sum: real): (r: seq<OrderRow>)
    ensures |r| == |orders|
  {
    seq(|orders|, i requires 0 <= i < |orders| =>
      if orders[i].orderId == orderId then SyncRow(orders[i], sum) else orders[i])
  }

  function FillId(entry: FillEntry): string {
    if entry.tradeId == "" then "fill-" + entry.orderId + "-" + entry.time else "fill-" + entry.tradeId
  }

  function FillOf(entry: FillEntry): FillRow {
    FillRow(FillId(entry), if entry.tradeId == "" then None else Some(entry.tradeId), entry.orderId, entry.size)
  }

  /** A fill-list row is repaired when it fills one of our orders and its trade was not recorded before the pass. */
  predicate Repairable(entry: FillEntry, orders: seq<OrderRow>, knownFills: seq<FillRow>) {
    && entry.orderId != "" && HasOrder(orders, entry.orderId)
    && (entry.tradeId == "" || !KnowsTrade(knownFills, entry.tradeId))
    && entry.size > 0.0
  }

  function RepairOne(b: Books, entry: FillEntry, knownFills: seq<FillRow>): (r: Books)
    ensures |r.orders| == |b.orders|
  {
    if Repairable(entry, b.orders, knownFills) then
      var fills := InsertFill(b.fills, FillOf(entry));
      Books(SyncOrders(b.orders, entry.orderId, SumFills(fills, entry.orderId)), fills)
    else b
  }

  /** The fill-repair phase of one pass; `knownFills` is the fill table as the phase found it. */
  function RepairFills(b: Books, page: seq<FillEntry>, knownFills: seq<FillRow>): (r: Books)
    ensures |r.orders| == |b.orders|
  {
    if page == [] then b
    else RepairOne(RepairFills(b, page[..|page| - 1], knownFills), page[|page| - 1], knownFills)
  }

  /** The base this system's orders imply is held, buys positive. */
  function NetBase(orders: seq<OrderRow>): real {
    if orders == [] then 0.0 else NetBase(orders[..|orders| - 1]) + Exposure(orders[|orders| - 1])
  }

  predicate CountsAsExposure(row: OrderRow) {
    row.intentId.Some? && row.filled > 0.0 && !row.status.ExternallyClosed?
  }

  function Exposure(row: OrderRow): real {
    if !CountsAsExposure(row) then 0.0 else if row.side.Sell? then -row.filled else row.filled
  }

  /** What this system's orders on one side filled, leaving out what was closed from outside. */
  function FilledOn(side: OrderSide, orders: seq<OrderRow>): real {
    if orders == [] then 0.0
    else
      var row := orders[|orders| - 1];
      FilledOn(side, orders[..|orders| - 1])
      + if row.side == side && row.intentId != None && row.status != ExternallyClosed then Max(row.filled, 0.0) else 0.0
  }

  /** The base held is what was bought less what was sold. */
  function Held(orders: seq<OrderRow>): real {
    FilledOn(Buy, orders) - FilledOn(Sell, orders)
  }

  lemma {:induction false} NetIsBoughtLessSold(orders: seq<OrderRow>)
    ensures NetBase(orders) == Held(orders)
  {
    if orders != [] {
      NetIsBoughtLessSold(orders[..|orders| - 1]);
    }
  }

  // ----- what survives a fill-repair phase

  /** Everything but fill and status is identity; rows are neither added nor removed. */
  predicate SameOrders(orders: seq<OrderRow>, orders': seq<OrderRow>) {
    |orders'| == |orders| &&
    forall i :: 0 <= i < |orders| ==>
      orders'[i] == orders[i].(filled := orders'[i].filled, status := orders'[i].status)
  }

  lemma {:induction false} RepairKeepsRows(b: Books, page: seq<FillEntry>, known: seq<FillRow>)
    ensures SameOrders(b.orders, RepairFills(b, page, known).orders)
    ensures b.fills <= RepairFills(b, page, known).fills
  {
    if page != [] {
      RepairKeepsRows(b, page[..|page| - 1], known);
    }
  }

  lemma SameOrdersKeepKeys(orders: seq<OrderRow>, orders': seq<OrderRow>)
    requires SameOrders(orders, orders')
    ensures UniqueKeys(orders) <==> UniqueKeys(orders')
    ensures forall id :: HasOrder(orders, id) <==> HasOrder(orders', id)
  {
    forall id ensures HasOrder(orders, id) <==> HasOrder(orders', id) {
      if HasOrder(orders, id) {
        var i :| 0 <= i < |orders| && orders[i].orderId == id;
        assert orders'[i].orderId == id;
      }
      if HasOrder(orders', id) {
        var i :| 0 <= i < |orders'| && orders'[i].orderId == id;
        assert orders[i].orderId == id;
      }
    }
    if UniqueKeys(orders') {
      forall i, j | 0 <= i < j < |orders|
        ensures orders[i].orderId != orders[j].orderId && orders[i].clientOid != orders[j].clientOid
      {
        assert orders'[i].orderId != orders'[j].orderId && orders'[i].clientOid != orders'[j].clientOid;
      }
    }
  }

  // ----- the exchange's own record of one order

  datatype Trade = Trade(id: string, size: real)

  predicate TradesOk(trades: seq<Trade>) {
    && (forall i :: 0 <= i < |trades| ==> trades[i].size > 0.0 && trades[i].id != "")
    && (forall i, j :: 0 <= i < j < |trades| ==> trades[i].id != trades[j].id)
  }

  /** What the order had filled once its first `n` trades happened. */
  function Cum(trades: seq<Trade>, n: nat): real
    requires n <= |trades|
  {
    if n == 0 then 0.0 else Cum(trades, n - 1) + trades[n - 1].size
  }

  predicate Happened(trades: seq<Trade>, n: nat, id: string, size: real)
    requires n <= |trades|
  {
    exists i :: 0 <= i < n && trades[i].id == id && trades[i].size == size
  }

  /** A truthful look at the exchange after `n` of the order's trades. */
  datatype Observation = FillPage(n: nat, page: seq<FillEntry>) | Detail(n: nat)

  /**
    A page may hold any of the order's trades so far, in any order and any number
    of times, among any rows of other orders; detail reports the running total.
  */
  ghost predicate Truthful(orderId: string, trades: seq<Trade>, o: Observation) {
    && o.n <= |trades|
    && (o.FillPage? ==>
          forall i :: 0 <= i < |o.page| && o.page[i].orderId == orderId ==>
            Happened(trades, o.n, o.page[i].tradeId, o.page[i].size))
  }

  function DetailOrders(orders: seq<OrderRow>, orderId: string, filled: real): (r: seq<OrderRow>)
    ensures |r| == |orders|
  {
    seq(|orders|, i requires 0 <= i < |orders| =>
      if orders[i].orderId == orderId then DetailRow(orders[i], filled) else orders[i])
  }

  function Observe(b: Books, orderId: string, trades: seq<Trade>, o: Observation): (r: Books)
    requires o.n <= |trades|
    ensures |r.orders| == |b.orders|
  {
    match o
    case FillPage(_, page) => RepairFills(b, page, b.fills)
    case Detail(n) => b.(orders := DetailOrders(b.orders, orderId, Cum(trades, n)))
  }

  /** The order's recorded fills are keyed by their trades, each there once; other orders' rows may be anything. */
  predicate KeyedByTrade(fills: seq<FillRow>, orderId: string) {
    && (forall i :: 0 <= i < |fills| && fills[i].orderId == orderId ==>
          fills[i].tradeId.Some? && fills[i].fillId == "fill-" + fills[i].tradeId.value)
    && (forall i, j :: 0 <= i < j < |fills| && fills[i].orderId == orderId && fills[j].orderId == orderId ==>
          fills[i].tradeId != fills[j].tradeId)
  }

  /** The recorded fills of the order are trades that happened, each recorded once. */
  ghost predicate FillsTruthful(fills: seq<FillRow>, orderId: string, trades: seq<Trade>, n: nat)
    requires n <= |trades|
  {
    && KeyedByTrade(fills, orderId)
    && (forall i :: 0 <= i < |fills| && fills[i].orderId == orderId ==>
          Happened(trades, n, fills[i].tradeId.value, fills[i].size))
  }

  predicate RecordedFor(fills: seq<FillRow>, orderId: string, tradeId: string) {
    exists i :: 0 <= i < |fills| && fills[i].orderId == orderId && fills[i].tradeId == Some(tradeId)
  }

  /** Row `at` records no more of the order than had been filled after `n` trades. */
  ghost predicate LedgerOk(b: Books, at: nat, trades: seq<Trade>, n: nat) {
    && at < |b.orders| && n <= |trades| && TradesOk(trades)
    && UniqueKeys(b.orders) && b.orders[at].orderId != ""
    && 0.0 <= b.orders[at].filled <= Cum(trades, n)
    && FillsTruthful(b.fills, b.orders[at].orderId, trades, n)
  }

  lemma {:induction false} CumGrows(trades: seq<Trade>, n: nat, n': nat)
    requires TradesOk(trades) && n <= n' <= |trades|
    ensures Cum(trades, n) <= Cum(trades, n')
  {
    if n < n' {
      CumGrows(trades, n, n' - 1);
    }
  }

  // ----- the fills of an order never sum to more than its trades

  /** The part of the first `n` trades whose ids are in `ids`. */
  function Part(trades: seq<Trade>, n: nat, ids: set<string>): real
    requires n <= |trades|
  {
    if n == 0 then 0.0
    else Part(trades, n - 1, ids) + if trades[n - 1].id in ids then trades[n - 1].size else 0.0
  }

  lemma {:induction false} PartAtMostCum(trades: seq<Trade>, n: nat, ids: set<string>)
    requires TradesOk(trades) && n <= |trades|
    ensures Part(trades, n, ids) <= Cum(trades, n)
    ensures (forall i :: 0 <= i < n ==> trades[i].id in ids) ==> Part(trades, n, ids) == Cum(trades, n)
  {
    if n > 0 {
      PartAtMostCum(trades, n - 1, ids);
    }
  }

  lemma {:induction false} PartOfNone(trades: seq<Trade>, n: nat, ids: set<string>)
    requires n <= |trades| && forall i :: 0 <= i < n ==> trades[i].id !in ids
    ensures Part(trades, n, ids) == 0.0
  {
    if n > 0 {
      PartOfNone(trades, n - 1, ids);
    }
  }

  /** One more id adds exactly its own trade. */
  lemma {:induction false} PartGains(trades: seq<Trade>, n: nat, ids: set<string>, k: nat)
    requires TradesOk(trades) && k < n <= |trades| && trades[k].id !in ids
    ensures Part(trades, n, ids + {trades[k].id}) == Part(trades, n, ids) + trades[k].size
  {
    if k < n - 1 {
      PartGains(trades, n - 1, ids, k);
    } else {
      PartUnaffected(trades, n - 1, ids, trades[k].id);
    }
  }

  lemma {:induction false} PartUnaffected(trades: seq<Trade>, n: nat, ids: set<string>, id: string)
    requires n <= |trades| && forall i :: 0 <= i < n ==> trades[i].id != id
    ensures Part(trades, n, ids + {id}) == Part(trades, n, ids)
  {
    if n > 0 {
      PartUnaffected(trades, n - 1, ids, id);
    }
  }

  function TradeIds(fills: seq<FillRow>, orderId: string): set<string> {
    set i | 0 <= i < |fills| && fills[i].orderId == orderId && fills[i].tradeId.Some? :: fills[i].tradeId.value
  }

  /** Each trade counts once, so the fills of an order sum to the trades they name. */
  lemma {:induction false} SumIsPart(fills: seq<FillRow>, orderId: string, trades: seq<Trade>, n: nat)
    requires n <= |trades| && TradesOk(trades) && FillsTruthful(fills, orderId, trades, n)
    ensures SumFills(fills, orderId) == Part(trades, n, TradeIds(fills, orderId))
  {
    if fills == [] {
      PartOfNone(trades, n, TradeIds(fills, orderId));
    } else {
      var rest, last := fills[..|fills| - 1], fills[|fills| - 1];
      PrefixTruthful(fills, orderId, trades, n);
      SumIsPart(rest, orderId, trades, n);
      if last.orderId == orderId {
        var k :| 0 <= k < n && trades[k].id == last.tradeId.value && trades[k].size == last.size;
        NewTradeId(fills, orderId);
        PartGains(trades, n, TradeIds(rest, orderId), k);
      } else {
        SameTradeIds(fills, orderId);
      }
    }
  }

  lemma PrefixTruthful(fills: seq<FillRow>, orderId: string, trades: seq<Trade>, n: nat)
    requires fills != [] && n <= |trades| && FillsTruthful(fills, orderId, trades, n)
    ensures FillsTruthful(fills[..|fills| - 1], orderId, trades, n)
  {
  }

  lemma NewTradeId(fills: seq<FillRow>, orderId: string)
    requires fills != [] && KeyedByTrade(fills, orderId) && fills[|fills| - 1].orderId == orderId
    ensures var rest, id := fills[..|fills| - 1], fills[|fills| - 1].tradeId.value;
            id !in TradeIds(rest, orderId) && TradeIds(fills, orderId) == TradeIds(rest, orderId) + {id}
  {
    var rest, last := fills[..|fills| - 1], fills[|fills| - 1];
    forall x | x in TradeIds(fills, orderId) ensures x in TradeIds(rest, orderId) + {last.tradeId.value} {
      var i :| 0 <= i < |fills| && fills[i].orderId == orderId && fills[i].tradeId == Some(x);
      if i < |rest| {
        assert rest[i] == fills[i];
      }
    }
    forall x | x in TradeIds(rest, orderId) ensures x in TradeIds(fills, orderId) {
      var i :| 0 <= i < |rest| && rest[i].orderId == orderId && rest[i].tradeId == Some(x);
      assert fills[i] == rest[i];
    }
  }

  lemma SameTradeIds(fills: seq<FillRow>, orderId: string)
    requires fills != [] && fills[|fills| - 1].orderId != orderId
    ensures TradeIds(fills, orderId) == TradeIds(fills[..|fills| - 1], orderId)
  {
    var rest := fills[..|fills| - 1];
    forall x | x in TradeIds(fills, orderId) ensures x in TradeIds(rest, orderId) {
      var i :| 0 <= i < |fills| && fills[i].orderId == orderId && fills[i].tradeId == Some(x);
      assert rest[i] == fills[i];
    }
    forall x | x in TradeIds(rest, orderId) ensures x in TradeIds(fills, orderId) {
      var i :| 0 <= i < |rest| && rest[i].orderId == orderId && rest[i].tradeId == Some(x);
      assert fills[i] == rest[i];
    }
  }

  // ----- one truthful observation after another

  lemma LaterTruth(b: Books, at: nat, trades: seq<Trade>, n: nat, n': nat)
    requires LedgerOk(b, at, trades, n) && n <= n' <= |trades|
    ensures LedgerOk(b, at, trades, n')
  {
    CumGrows(trades, n, n');
    forall i | 0 <= i < |b.fills| && b.fills[i].orderId == b.orders[at].orderId
      ensures Happened(trades, n', b.fills[i].tradeId.value, b.fills[i].size)
    {
      var k :| 0 <= k < n && trades[k].id == b.fills[i].tradeId.value && trades[k].size == b.fills[i].size;
    }
  }

  lemma SumAtMostCum(fills: seq<FillRow>, orderId: string, trades: seq<Trade>, n: nat)
    requires n <= |trades| && TradesOk(trades) && FillsTruthful(fills, orderId, trades, n)
    ensures SumFills(fills, orderId) <= Cum(trades, n)
    ensures (forall i :: 0 <= i < n ==> RecordedFor(fills, orderId, trades[i].id)) ==>
              SumFills(fills, orderId) == Cum(trades, n)
  {
    SumIsPart(fills, orderId, trades, n);
    PartAtMostCum(trades, n, TradeIds(fills, orderId));
    if forall i :: 0 <= i < n ==> RecordedFor(fills, orderId, trades[i].id) {
      forall i | 0 <= i < n ensures trades[i].id in TradeIds(fills, orderId) {
        assert RecordedFor(fills, orderId, trades[i].id);
      }
    }
  }

  /** Recording one truthful fill-list row keeps the fill table truthful. */
  lemma InsertTruthful(fills: seq<FillRow>, entry: FillEntry, orderId: string, trades: seq<Trade>, n: nat)
    requires n <= |trades| && TradesOk(trades) && FillsTruthful(fills, orderId, trades, n)
    requires entry.orderId == orderId ==> Happened(trades, n, entry.tradeId, entry.size)
    ensures FillsTruthful(InsertFill(fills, FillOf(entry)), orderId, trades, n)
  {
    if entry.orderId == orderId {
      var k :| 0 <= k < n && trades[k].id == entry.tradeId && trades[k].size == entry.size;
      assert entry.tradeId != "";
    }
  }

  lemma RepairOneKeepsLedger(b: Books, at: nat, trades: seq<Trade>, n: nat, entry: FillEntry, known: seq<FillRow>)
    requires LedgerOk(b, at, trades, n)
    requires entry.orderId == b.orders[at].orderId ==> Happened(trades, n, entry.tradeId, entry.size)
    ensures var b' := RepairOne(b, entry, known);
            && LedgerOk(b', at, trades, n)
            && b'.orders[at].orderId == b.orders[at].orderId
            && b.orders[at].filled <= b'.orders[at].filled
            && (Repairable(entry, b.orders, known) && entry.orderId == b.orders[at].orderId ==>
                  SumFills(b'.fills, entry.orderId) <= b'.orders[at].filled)
            && (entry.orderId != b.orders[at].orderId ==>
                  SumFills(b'.fills, b.orders[at].orderId) == SumFills(b.fills, b.orders[at].orderId))
  {
    hide FillsTruthful, Happened, UniqueKeys, SumFills, InsertFill;
    var id := b.orders[at].orderId;
    if Repairable(entry, b.orders, known) {
      var fills := InsertFill(b.fills, FillOf(entry));
      var orders := SyncOrders(b.orders, entry.orderId, SumFills(fills, entry.orderId));
      InsertTruthful(b.fills, entry, id, trades, n);
      SumAtMostCum(fills, id, trades, n);
      SyncKeepsRows(b.orders, entry.orderId, SumFills(fills, entry.orderId));
      OthersSumStays(b.fills, FillOf(entry), id);
    }
  }

  lemma SyncKeepsRows(orders: seq<OrderRow>, orderId: string, sum: real)
    ensures UniqueKeys(orders) <==> UniqueKeys(SyncOrders(orders, orderId, sum))
  {
    SameOrdersKeepKeys(orders, SyncOrders(orders, orderId, sum));
  }

  lemma OthersSumStays(fills: seq<FillRow>, fill: FillRow, orderId: string)
    ensures fill.orderId != orderId ==> SumFills(InsertFill(fills, fill), orderId) == SumFills(fills, orderId)
  {
    assert (fills + [fill])[..|fills|] == fills;
  }

  /** A whole page: nothing lost, nothing counted twice, and never more than the exchange filled. */
  lemma {:induction false} PageKeepsLedger(b: Books, at: nat, trades: seq<Trade>, n: nat, page: seq<FillEntry>,
                                           known: seq<FillRow>)
    requires LedgerOk(b, at, trades, n) && Truthful(b.orders[at].orderId, trades, FillPage(n, page))
    ensures var b', id := RepairFills(b, page, known), b.orders[at].orderId;
            && LedgerOk(b', at, trades, n)
            && b'.orders[at].orderId == id
            && b.orders[at].filled <= b'.orders[at].filled
            && ((exists i :: 0 <= i < |page| && page[i].orderId == id && Repairable(page[i], b.orders, known)) ==>
                  SumFills(b'.fills, id) <= b'.orders[at].filled)
  {
    LedgerBound(b, at, trades, n);
    hide LedgerOk, RepairOne;
    if page != [] {
      var before, entry, id := page[..|page| - 1], page[|page| - 1], b.orders[at].orderId;
      PageKeepsLedger(b, at, trades, n, before, known);
      var mid := RepairFills(b, before, known);
      RepairOneKeepsLedger(mid, at, trades, n, entry, known);
      RepairKeepsRows(b, before, known);
      SameOrdersKeepKeys(b.orders, mid.orders);
      if exists i :: 0 <= i < |page| && page[i].orderId == id && Repairable(page[i], b.orders, known) {
        var i :| 0 <= i < |page| && page[i].orderId == id && Repairable(page[i], b.orders, known);
        if i == |page| - 1 {
          assert Repairable(entry, mid.orders, known);
        } else {
          assert before[i] == page[i];
          if entry.orderId == id && !Repairable(entry, mid.orders, known) {
            RepairNothing(mid, entry, known);
          }
        }
      }
    }
  }

  lemma RepairNothing(b: Books, entry: FillEntry, known: seq<FillRow>)
    requires !Repairable(entry, b.orders, known)
    ensures RepairOne(b, entry, known) == b
  {
  }

  /** Whatever truthful look comes next, the recorded fill only grows and never passes the exchange's. */
  lemma ObserveKeepsLedger(b: Books, at: nat, trades: seq<Trade>, n: nat, o: Observation)
    requires LedgerOk(b, at, trades, n) && n <= o.n && Truthful(b.orders[at].orderId, trades, o)
    ensures var b' := Observe(b, b.orders[at].orderId, trades, o);
            && LedgerOk(b', at, trades, o.n)
            && b'.orders[at].orderId == b.orders[at].orderId
            && b.orders[at].filled <= b'.orders[at].filled <= Cum(trades, o.n)
            && (o.Detail? && Cum(trades, o.n) > 0.0 ==> b'.orders[at].filled == Cum(trades, o.n))
  {
    LaterTruth(b, at, trades, n, o.n);
    match o
    case FillPage(_, page) =>
      PageKeepsLedger(b, at, trades, o.n, page, b.fills);
    case Detail(_) =>
      CumGrows(trades, n, o.n);
      SameOrdersKeepKeys(b.orders, DetailOrders(b.orders, b.orders[at].orderId, Cum(trades, o.n)));
  }

  /** A page that brings a trade not seen before, and leaves none unseen, makes the row exact. */
  lemma NewTradeCompletesTheRow(b: Books, at: nat, trades: seq<Trade>, n: nat, o: Observation, i: nat)
    requires LedgerOk(b, at, trades, n) && n <= o.n && Truthful(b.orders[at].orderId, trades, o)
    requires o.FillPage? && i < |o.page| && o.page[i].orderId == b.orders[at].orderId
    requires !KnowsTrade(b.fills, o.page[i].tradeId)
    requires forall k :: 0 <= k < o.n ==>
               RecordedFor(Observe(b, b.orders[at].orderId, trades, o).fills, b.orders[at].orderId, trades[k].id)
    ensures Observe(b, b.orders[at].orderId, trades, o).orders[at].filled == Cum(trades, o.n)
  {
    var id, b' := b.orders[at].orderId, Observe(b, b.orders[at].orderId, trades, o);
    LaterTruth(b, at, trades, n, o.n);
    PageKeepsLedger(b, at, trades, o.n, o.page, b.fills);
    assert Repairable(o.page[i], b.orders, b.fills) by {
      var k :| 0 <= k < o.n && trades[k].id == o.page[i].tradeId && trades[k].size == o.page[i].size;
      assert b.orders[at].orderId == o.page[i].orderId;
    }
    SumAtMostCum(b'.fills, id, trades, o.n);
  }

  function ObserveAll(b: Books, orderId: string, trades: seq<Trade>, history: seq<Observation>): (r: Books)
    requires forall i :: 0 <= i < |history| ==> history[i].n <= |trades|
    ensures |r.orders| == |b.orders|
  {
    if history == [] then b
    else Observe(ObserveAll(b, orderId, trades, history[..|history| - 1]), orderId, trades, history[|history| - 1])
  }

  /** Over any history of truthful looks in time order. */
  lemma {:induction false} HistoryKeepsLedger(b: Books, at: nat, trades: seq<Trade>, n: nat, history: seq<Observation>)
    requires LedgerOk(b, at, trades, n)
    requires forall i :: 0 <= i < |history| ==>
               n <= history[i].n <= |trades| && Truthful(b.orders[at].orderId, trades, history[i])
    requires forall i, j :: 0 <= i < j < |history| ==> history[i].n <= history[j].n
    ensures var b', now := ObserveAll(b, b.orders[at].orderId, trades, history),
                           if history == [] then n else history[|history| - 1].n;
            && LedgerOk(b', at, trades, now)
            && b'.orders[at].orderId == b.orders[at].orderId
            && b.orders[at].filled <= b'.orders[at].filled <= Cum(trades, now)
  {
    LedgerBound(b, at, trades, n);
    hide LedgerOk, Truthful;
    if history != [] {
      var before := history[..|history| - 1];
      HistoryKeepsLedger(b, at, trades, n, before);
      var mid := ObserveAll(b, b.orders[at].orderId, trades, before);
      ObserveKeepsLedger(mid, at, trades, if before == [] then n else before[|before| - 1].n, history[|history| - 1]);
    }
  }

  /**
    After a page every fill of our orders listed without a trade id is recorded under
    its own id, and whatever the page added is a real fill of an order of ours.
  */
  lemma {:induction false} PageRecordsUntraded(b: Books, page: seq<FillEntry>, known: seq<FillRow>)
    ensures var b' := RepairFills(b, page, known);
            && (forall i :: 0 <= i < |page| && page[i].tradeId == "" && page[i].size > 0.0 && page[i].orderId != ""
                            && HasOrder(b.orders, page[i].orderId) ==>
                  HasFill(b'.fills, FillId(page[i])))
            && |b.fills| <= |b'.fills|
            && (forall k :: |b.fills| <= k < |b'.fills| ==>
                  b'.fills[k].size > 0.0 && HasOrder(b.orders, b'.fills[k].orderId))
  {
    hide FillId, SyncOrders, KnowsTrade;
    if page != [] {
      var before, entry := page[..|page| - 1], page[|page| - 1];
      PageRecordsUntraded(b, before, known);
      var mid, b' := RepairFills(b, before, known), RepairFills(b, page, known);
      RepairKeepsRows(b, before, known);
      SameOrdersKeepKeys(b.orders, mid.orders);
      InsertKeepsFills(mid.fills, FillOf(entry));
      assert forall i :: 0 <= i < |before| ==> before[i] == page[i];
    }
  }

  lemma InsertKeepsFills(fills: seq<FillRow>, fill: FillRow)
    ensures HasFill(InsertFill(fills, fill), fill.fillId)
    ensures forall id :: HasFill(fills, id) ==> HasFill(InsertFill(fills, fill), id)
  {
    var fills' := InsertFill(fills, fill);
    if !HasFill(fills, fill.fillId) {
      assert fills'[|fills|] == fill;
    }
    forall id | HasFill(fills, id) ensures HasFill(fills', id) {
      var i :| 0 <= i < |fills| && fills[i].fillId == id;
      assert fills'[i] == fills[i];
    }
  }

  /** Fills listed without a trade id are told apart by their times. */
  lemma UntradedFillsDiffer(a: FillEntry, b: FillEntry)
    requires a.tradeId == "" == b.tradeId && a.orderId == b.orderId && a.time != b.time
    ensures FillId(a) != FillId(b)
  {
    var prefix := "fill-" + a.orderId + "-";
    assert FillId(a) == prefix + a.time && FillId(b) == prefix + b.time;
    assert FillId(a)[|prefix|..] == a.time && FillId(b)[|prefix|..] == b.time;
  }

  // ----- the status follows the fill

  predicate FilledToSize(row: OrderRow) {
    row.size > 0.0 && row.filled + DUST_BASE >= row.size
  }

  /** The row was left alone, or its status was settled by its fill: filled to its size, or what it was. */
  predicate StatusFollows(row: OrderRow, row': OrderRow) {
    || row' == row
    || StatusSettled(row, row')
  }

  predicate StatusSettled(row: OrderRow, row': OrderRow) {
    && row' == row.(filled := row'.filled, status := row'.status) && row.filled <= row'.filled
    && row'.status == if FilledToSize(row') then Filled else row.status
  }

  lemma StatusFollowsOn(a: OrderRow, b: OrderRow, c: OrderRow)
    requires StatusFollows(a, b) && StatusFollows(b, c)
    ensures StatusFollows(a, c)
    ensures StatusSettled(b, c) || (StatusSettled(a, b) && c == b) ==> StatusSettled(a, c)
  {
  }

  lemma {:induction false} PageSettlesStatus(b: Books, at: nat, trades: seq<Trade>, n: nat, page: seq<FillEntry>,
                                             known: seq<FillRow>)
    requires LedgerOk(b, at, trades, n) && Truthful(b.orders[at].orderId, trades, FillPage(n, page))
    ensures StatusFollows(b.orders[at], RepairFills(b, page, known).orders[at])
  {
    LedgerBound(b, at, trades, n);
    hide LedgerOk;
    if page != [] {
      var before, entry := page[..|page| - 1], page[|page| - 1];
      PageSettlesStatus(b, at, trades, n, before, known);
      PageKeepsLedger(b, at, trades, n, before, known);
      var mid := RepairFills(b, before, known);
      RepairOneKeepsLedger(mid, at, trades, n, entry, known);
      StatusFollowsOn(b.orders[at], mid.orders[at], RepairOne(mid, entry, known).orders[at]);
    }
  }

  lemma LookSettlesStatus(b: Books, at: nat, trades: seq<Trade>, n: nat, o: Observation)
    requires LedgerOk(b, at, trades, n) && n <= o.n && Truthful(b.orders[at].orderId, trades, o)
    ensures var row' := Observe(b, b.orders[at].orderId, trades, o).orders[at];
            && StatusFollows(b.orders[at], row')
            && (o.Detail? && Cum(trades, o.n) > 0.0 ==> StatusSettled(b.orders[at], row'))
  {
    LaterTruth(b, at, trades, n, o.n);
    match o
    case FillPage(_, page) =>
      PageSettlesStatus(b, at, trades, o.n, page, b.fills);
    case Detail(_) =>
      CumGrows(trades, n, o.n);
  }

  /** The history shows the running total of an order that has filled something. */
  predicate SawTotal(trades: seq<Trade>, history: seq<Observation>) {
    exists i :: 0 <= i < |history| && history[i].Detail? && history[i].n <= |trades| && Cum(trades, history[i].n) > 0.0
  }

  lemma SawLastOrBefore(trades: seq<Trade>, history: seq<Observation>)
    requires history != [] && SawTotal(trades, history) && history[|history| - 1].n <= |trades|
    ensures var last := history[|history| - 1];
            SawTotal(trades, history[..|history| - 1]) || (last.Detail? && Cum(trades, last.n) > 0.0)
  {
    var i :| 0 <= i < |history| && history[i].Detail? && history[i].n <= |trades| && Cum(trades, history[i].n) > 0.0;
    if i < |history| - 1 {
      assert history[..|history| - 1][i] == history[i];
    }
  }

  /**
    Over any history of truthful looks a row turns filled exactly when its recorded
    fill comes within dust of its size, and otherwise keeps its status: whatever is
    called filled the exchange has filled, and a working order short of its size
    stays a working order.
  */
  lemma {:induction false} HistorySettlesStatus(b: Books, at: nat, trades: seq<Trade>, n: nat,
                                                history: seq<Observation>)
    requires LedgerOk(b, at, trades, n)
    requires forall i :: 0 <= i < |history| ==>
               n <= history[i].n <= |trades| && Truthful(b.orders[at].orderId, trades, history[i])
    requires forall i, j :: 0 <= i < j < |history| ==> history[i].n <= history[j].n
    ensures var row, row' := b.orders[at], ObserveAll(b, b.orders[at].orderId, trades, history).orders[at];
            && StatusFollows(row, row')
            && (row'.filled > row.filled || SawTotal(trades, history) ==>
                  row'.status == if FilledToSize(row') then Filled else row.status)
            && (row'.status.Filled? && !row.status.Filled? ==>
                  row.size > 0.0 && history != []
                  && Cum(trades, history[|history| - 1].n) + DUST_BASE >= row.size)
  {
    LedgerBound(b, at, trades, n);
    hide LedgerOk, Truthful;
    if history != [] {
      var before, last := history[..|history| - 1], history[|history| - 1];
      var m := if before == [] then n else before[|before| - 1].n;
      HistorySettlesStatus(b, at, trades, n, before);
      HistoryKeepsLedger(b, at, trades, n, before);
      HistoryKeepsLedger(b, at, trades, n, history);
      var mid := ObserveAll(b, b.orders[at].orderId, trades, before);
      LookSettlesStatus(mid, at, trades, m, last);
      LedgerBound(ObserveAll(b, b.orders[at].orderId, trades, history), at, trades, last.n);
      StatusFollowsOn(b.orders[at], mid.orders[at], Observe(mid, b.orders[at].orderId, trades, last).orders[at]);
      if SawTotal(trades, history) {
        SawLastOrBefore(trades, history);
      }
    }
  }

  lemma LedgerBound(b: Books, at: nat, trades: seq<Trade>, n: nat)
    requires LedgerOk(b, at, trades, n)
    ensures at < |b.orders| && n <= |trades| && 0.0 <= b.orders[at].filled <= Cum(trades, n)
  {
  }
}
