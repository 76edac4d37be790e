/**
  One reconciliation pass as a function of the local tables and of the exchange
  as that pass saw it, and what a completed pass guarantees.
*/
module Reconcile {
  import opened Common
  import opened Ledger

  datatype Override = Absent | Active | Cleared

  datatype DetailStatus = DetailFilled | DetailGone | DetailOther

  datatype Detail = Detail(status: DetailStatus, filled: real)

  datatype PendingRow = PendingRow(clientOid: string, orderId: string, isOpen: bool, side: OrderSide,
                                   status: Status, size: real, filled: real, ours: bool)

  datatype PositionRow = PositionRow(side: Side, size: real, ours: bool)

  /** The exchange's answers within one pass; an order without a detail could not be read. */
  datatype Snapshot = Snapshot(pending: seq<PendingRow>, fillList: seq<FillEntry>,
                               details: map<string, Detail>, positions: seq<PositionRow>)

  datatype LocalPosition = LocalPosition(side: Side, size: real, isSystem: bool)

  datatype Tables = Tables(books: Books, position: Option<LocalPosition>, override: Override)

  /** The tables in the middle of a pass, and whether this pass itself raised the override. */
  datatype Pass = Pass(t: Tables, entered: bool)

  function Enter(p: Pass): Pass {
    if p.t.override.Active? then p else Pass(p.t.(override := Active), true)
  }

  // ----- phase 1: orders the exchange lists as pending

  predicate Foreign(row: PendingRow, localBefore: seq<OrderRow>) {
    row.ours && row.clientOid != "" && !HasClientOid(localBefore, row.clientOid)
  }

  predicate HasClientOid(orders: seq<OrderRow>, clientOid: string) {
    exists i :: 0 <= i < |orders| && orders[i].clientOid == clientOid
  }

  function UpsertPending(orders: seq<OrderRow>, row: PendingRow): seq<OrderRow> {
    if HasClientOid(orders, row.clientOid) then
      seq(|orders|, i requires 0 <= i < |orders| =>
        if orders[i].clientOid == row.clientOid
        then orders[i].(orderId := row.orderId, intentId := None, status := row.status,
                        size := row.size, filled := row.filled)
        else orders[i])
    else
      orders + [OrderRow(row.orderId, row.clientOid, None, row.isOpen, row.side, row.status, row.size, row.filled)]
  }

  function ImportOne(p: Pass, row: PendingRow, localBefore: seq<OrderRow>, detect: bool): Pass {
    if !Foreign(row, localBefore) then p
    else
      var q := if detect then Enter(p) else p;
      q.(t := q.t.(books := q.t.books.(orders := UpsertPending(q.t.books.orders, row))))
  }

  function ImportPending(p: Pass, pending: seq<PendingRow>, localBefore: seq<OrderRow>, detect: bool): Pass {
    if pending == [] then p
    else ImportOne(ImportPending(p, pending[..|pending| - 1], localBefore, detect), pending[|pending| - 1],
                   localBefore, detect)
  }

  function OpenCount(pending: seq<PendingRow>): nat {
    if pending == [] then 0 else OpenCount(pending[..|pending| - 1]) + if pending[|pending| - 1].ours then 1 else 0
  }

  // ----- phase 2: fills

  predicate Unmatched(entry: FillEntry, orders: seq<OrderRow>) {
    entry.ours && (entry.orderId == "" || !HasOrder(orders, entry.orderId))
  }

  predicate AnyUnmatched(page: seq<FillEntry>, orders: seq<OrderRow>) {
    exists i :: 0 <= i < |page| && Unmatched(page[i], orders)
  }

  function RepairPhase(p: Pass, page: seq<FillEntry>, detect: bool): Pass {
    var q := if detect && AnyUnmatched(page, p.t.books.orders) then Enter(p) else p;
    q.(t := q.t.(books := RepairFills(p.t.books, page, p.t.books.fills)))
  }

  // ----- phase 3: working orders the exchange does not list

  datatype Verdict = FilledSoFar(filled: real) | Gone | GoneAfterPartialFill(filled: real) | Unknown

  function ClassifyMissing(details: map<string, Detail>, row: OrderRow): Verdict {
    if row.clientOid !in details then Unknown
    else
      var d := details[row.clientOid];
      if (row.size > 0.0 && d.filled >= row.size) || d.status.DetailFilled? then FilledSoFar(d.filled)
      else if d.status.DetailGone? then
        if d.filled > 0.0 then GoneAfterPartialFill(d.filled) else Gone
      else if d.filled > 0.0 then FilledSoFar(d.filled) else Unknown
  }

  predicate ListedPending(pending: seq<PendingRow>, clientOid: string) {
    exists i :: 0 <= i < |pending| && pending[i].ours && pending[i].clientOid != "" && pending[i].clientOid == clientOid
  }

  predicate IsWorking(row: OrderRow) {
    row.intentId.Some? && (row.status.Submitted? || row.status.Live?)
  }

  predicate IsMissing(row: OrderRow, pending: seq<PendingRow>) {
    IsWorking(row) && !ListedPending(pending, row.clientOid)
  }

  function Confirm(row: OrderRow, details: map<string, Detail>): OrderRow {
    match ClassifyMissing(details, row)
    case FilledSoFar(filled) => DetailRow(row, filled)
    case GoneAfterPartialFill(filled) => DetailRow(row, filled).(status := ExternallyCancelled)
    case Gone => row.(status := ExternallyCancelled)
    case Unknown => row.(status := NeedsReconcile)
  }

  function ConfirmRow(row: OrderRow, snap: Snapshot): OrderRow {
    if IsMissing(row, snap.pending) then Confirm(row, snap.details) else row
  }

  function ConfirmRows(orders: seq<OrderRow>, snap: Snapshot): (r: seq<OrderRow>)
    ensures |r| == |orders|
  {
    seq(|orders|, i requires 0 <= i < |orders| => ConfirmRow(orders[i], snap))
  }

  predicate CancelledOutside(row: OrderRow, snap: Snapshot) {
    IsMissing(row, snap.pending)
    && (ClassifyMissing(snap.details, row).Gone? || ClassifyMissing(snap.details, row).GoneAfterPartialFill?)
  }

  predicate AnyCancelledOutside(orders: seq<OrderRow>, snap: Snapshot) {
    exists i :: 0 <= i < |orders| && CancelledOutside(orders[i], snap)
  }

  function ConfirmPhase(p: Pass, snap: Snapshot, detect: bool): Pass {
    if !detect then p
    else
      var q := if AnyCancelledOutside(p.t.books.orders, snap) then Enter(p) else p;
      q.(t := q.t.(books := q.t.books.(orders := ConfirmRows(p.t.books.orders, snap))))
  }

  // ----- phase 4: positions

  function Abs(x: real): real {
    if x < 0.0 then -x else x
  }

  predicate OpenCycle(row: OrderRow) {
    row.isOpen && CountsAsExposure(row)
  }

  /** The exchange position is ours when our orders net to exposure that one of our opens began. */
  predicate SystemOwned(orders: seq<OrderRow>) {
    Abs(NetBase(orders)) > DUST_BASE && exists i :: 0 <= i < |orders| && OpenCycle(orders[i])
  }

  function Signed(row: PositionRow): real {
    if row.side.Short? then -row.size else row.size
  }

  datatype Kind = Added | Reduced | Closed

  function NetSide(net: real): Option<Side> {
    if net > 0.0 then Some(Long) else if net < 0.0 then Some(Short) else None
  }

  /** How the exchange position strays from what our orders imply; `None` within dust. */
  function ClassifyDrift(net: real, row: PositionRow): Option<Kind> {
    var drift := Signed(row) - net;
    if Abs(drift) <= DUST_BASE then None
    else if NetSide(net) != Some(row.side) then Some(Closed)
    else if drift > 0.0 then Some(Added) else Some(Reduced)
  }

  predicate Touched(row: PositionRow, orders: seq<OrderRow>) {
    row.ours && (!SystemOwned(orders) || ClassifyDrift(NetBase(orders), row).Some?)
  }

  predicate AnyTouched(positions: seq<PositionRow>, orders: seq<OrderRow>) {
    exists i :: 0 <= i < |positions| && Touched(positions[i], orders)
  }

  predicate HasPosition(positions: seq<PositionRow>) {
    exists i :: 0 <= i < |positions| && positions[i].ours && Abs(positions[i].size) > DUST_BASE
  }

  function UpsertPositions(position: Option<LocalPosition>, positions: seq<PositionRow>,
                           isSystem: bool): Option<LocalPosition>
  {
    if positions == [] then position
    else
      var row := positions[|positions| - 1];
      if row.ours then Some(LocalPosition(row.side, row.size, isSystem))
      else UpsertPositions(position, positions[..|positions| - 1], isSystem)
  }

  function PositionPhase(p: Pass, positions: seq<PositionRow>, detect: bool): Pass {
    var orders := p.t.books.orders;
    var q := if detect && AnyTouched(positions, orders) then Enter(p) else p;
    q.(t := q.t.(position := UpsertPositions(p.t.position, positions, SystemOwned(orders))))
  }

  // ----- phase 5: a position closed from outside

  function CloseRow(row: OrderRow): OrderRow {
    if row.intentId.Some? && row.filled > 0.0 then row.(status := ExternallyClosed) else row
  }

  function CloseRows(orders: seq<OrderRow>): (r: seq<OrderRow>)
    ensures |r| == |orders|
  {
    seq(|orders|, i requires 0 <= i < |orders| => CloseRow(orders[i]))
  }

  function ClosedPhase(p: Pass, positions: seq<PositionRow>, detect: bool): Pass {
    if HasPosition(positions) then p
    else
      var q := p.(t := p.t.(position := None));
      var orders := q.t.books.orders;
      if !detect || Abs(NetBase(orders)) <= DUST_BASE then q
      else Enter(q.(t := q.t.(books := q.t.books.(orders := CloseRows(orders)))))
  }

  // ----- phase 6: lifting the override

  function TotalSize(positions: seq<PositionRow>): real {
    if positions == [] then 0.0
    else TotalSize(positions[..|positions| - 1])
         + if positions[|positions| - 1].ours then Abs(positions[|positions| - 1].size) else 0.0
  }

  function ClearPhase(p: Pass, snap: Snapshot): Tables {
    if p.t.override.Active? && !p.entered && TotalSize(snap.positions) == 0.0 && OpenCount(snap.pending) == 0
    then p.t.(override := Cleared) else p.t
  }

  // ----- the pass

  function BeforeClear(t: Tables, snap: Snapshot, detect: bool): Pass {
    var p1 := ImportPending(Pass(t, false), snap.pending, t.books.orders, detect);
    var p2 := RepairPhase(p1, snap.fillList, detect);
    var p3 := ConfirmPhase(p2, snap, detect);
    var p4 := PositionPhase(p3, snap.positions, detect);
    ClosedPhase(p4, snap.positions, detect)
  }

  function ReconcileOnce(t: Tables, snap: Snapshot, detect: bool): Tables {
    ClearPhase(BeforeClear(t, snap, detect), snap)
  }

  // ----- a pass that an error abandons

  datatype Stage = Importing | Repairing | Confirming | Classifying | Closing

  /** The first n orders confirmed, the rest as they were. */
  function ConfirmSome(p: Pass, snap: Snapshot, detect: bool, n: nat): Pass
    requires n <= |p.t.books.orders|
  {
    var orders := p.t.books.orders;
    if !detect then p
    else
      var q := if AnyCancelledOutside(orders[..n], snap) then Enter(p) else p;
      q.(t := q.t.(books := q.t.books.(orders := ConfirmRows(orders[..n], snap) + orders[n..])))
  }

  /** What a pass has done when it is abandoned at this stage, after n rows of it. */
  ghost predicate AbandonedAt(t: Tables, t': Tables, snap: Snapshot, detect: bool, stage: Stage, n: nat) {
    var p1 := ImportPending(Pass(t, false), snap.pending, t.books.orders, detect);
    var p2 := RepairPhase(p1, snap.fillList, detect);
    var p3 := ConfirmPhase(p2, snap, detect);
    match stage
    case Importing =>
      && n <= |snap.pending|
      && var p := ImportPending(Pass(t, false), snap.pending[..n], t.books.orders, detect);
         t' == p.t || (detect && t' == Enter(p).t)
    case Repairing =>
      n <= |snap.fillList| && t' == RepairPhase(p1, snap.fillList[..n], detect).t
    case Confirming =>
      n <= |p2.t.books.orders| && t' == ConfirmSome(p2, snap, detect, n).t
    case Classifying =>
      n <= |snap.positions| && t' == PositionPhase(p3, snap.positions[..n], detect).t
    case Closing =>
      t' == BeforeClear(t, snap, detect).t
  }

  /** Wherever it stops, an abandoned pass never lifts an override, and only raises one. */
  lemma AbandonedNeverLifts(t: Tables, t': Tables, snap: Snapshot, detect: bool, stage: Stage, n: nat)
    requires AbandonedAt(t, t', snap, detect, stage, n)
    ensures t'.override == t.override || (detect && t'.override.Active?)
  {
    hide RepairFills, ConfirmRows, CloseRows, AnyTouched, AnyUnmatched, AnyCancelledOutside, HasPosition, NetBase,
         UpsertPositions, SystemOwned;
    ImportOnlyRaises(Pass(t, false), snap.pending, t.books.orders, detect);
    if stage.Importing? {
      ImportOnlyRaises(Pass(t, false), snap.pending[..n], t.books.orders, detect);
    }
  }

  lemma {:induction false} ImportOnlyRaises(p: Pass, pending: seq<PendingRow>, local: seq<OrderRow>, detect: bool)
    ensures var o := ImportPending(p, pending, local, detect).t.override; o == p.t.override || (detect && o.Active?)
  {
    if pending != [] {
      ImportOnlyRaises(p, pending[..|pending| - 1], local, detect);
    }
  }

  // ----- what a pass guarantees

  predicate OneRowPerSide(positions: seq<PositionRow>) {
    && (forall i :: 0 <= i < |positions| && positions[i].ours ==> positions[i].size >= 0.0)
    && (forall i, j :: 0 <= i < j < |positions| && positions[i].ours && positions[j].ours ==>
          positions[i].side != positions[j].side)
  }

  function ExchangeNet(positions: seq<PositionRow>): real {
    if positions == [] then 0.0
    else ExchangeNet(positions[..|positions| - 1])
         + if positions[|positions| - 1].ours then Signed(positions[|positions| - 1]) else 0.0
  }

  /** What the exchange lists as held on one side of our symbol. */
  function SizeOn(side: Side, positions: seq<PositionRow>): real {
    if positions == [] then 0.0
    else
      var row := positions[|positions| - 1];
      SizeOn(side, positions[..|positions| - 1]) + if row.ours && row.side == side then row.size else 0.0
  }

  lemma {:induction false} NetIsLongLessShort(positions: seq<PositionRow>)
    ensures ExchangeNet(positions) == SizeOn(Long, positions) - SizeOn(Short, positions)
  {
    if positions != [] {
      NetIsLongLessShort(positions[..|positions| - 1]);
    }
  }

  lemma {:induction false} NetOfNone(positions: seq<PositionRow>)
    requires forall i :: 0 <= i < |positions| ==> !positions[i].ours
    ensures ExchangeNet(positions) == 0.0
  {
    if positions != [] {
      NetOfNone(positions[..|positions| - 1]);
    }
  }

  lemma {:induction false} NetOfOne(positions: seq<PositionRow>, k: nat)
    requires k < |positions| && positions[k].ours
    requires forall i :: 0 <= i < |positions| && i != k ==> !positions[i].ours
    ensures ExchangeNet(positions) == Signed(positions[k])
  {
    if k == |positions| - 1 {
      NetOfNone(positions[..k]);
    } else {
      NetOfOne(positions[..|positions| - 1], k);
    }
  }

  lemma {:induction false} NetWithinTotal(positions: seq<PositionRow>)
    ensures Abs(ExchangeNet(positions)) <= TotalSize(positions)
    ensures forall i :: 0 <= i < |positions| && positions[i].ours ==> Abs(positions[i].size) <= TotalSize(positions)
  {
    if positions != [] {
      NetWithinTotal(positions[..|positions| - 1]);
    }
  }

  lemma {:induction false} ClosedRowsNetToZero(orders: seq<OrderRow>)
    ensures NetBase(CloseRows(orders)) == 0.0
  {
    if orders != [] {
      ClosedRowsNetToZero(orders[..|orders| - 1]);
      assert CloseRows(orders)[..|orders| - 1] == CloseRows(orders[..|orders| - 1]);
    }
  }

  /** A raised override is never lowered by the phases that detect. */
  lemma {:induction false} ImportKeepsOverride(p: Pass, pending: seq<PendingRow>, local: seq<OrderRow>, detect: bool)
    requires p.entered ==> p.t.override.Active?
    ensures var q := ImportPending(p, pending, local, detect);
            && (p.t.override.Active? ==> q.t.override.Active? && q.entered == p.entered)
            && (!p.t.override.Active? ==>
                  q.entered == q.t.override.Active? && (q.entered || q.t.override == p.t.override))
  {
    if pending != [] {
      ImportKeepsOverride(p, pending[..|pending| - 1], local, detect);
    }
  }

  /** With nothing touched, a held position is exactly one row within dust of what our orders imply. */
  lemma UntouchedPositionAgrees(positions: seq<PositionRow>, orders: seq<OrderRow>)
    requires OneRowPerSide(positions) && HasPosition(positions) && !AnyTouched(positions, orders)
    ensures Abs(ExchangeNet(positions) - NetBase(orders)) <= DUST_BASE
  {
    var k :| 0 <= k < |positions| && positions[k].ours && Abs(positions[k].size) > DUST_BASE;
    assert !Touched(positions[k], orders);
    forall i | 0 <= i < |positions| && i != k ensures !positions[i].ours {
      assert !Touched(positions[i], orders);
    }
    NetOfOne(positions, k);
  }

  /**
    A completed detecting pass that leaves the override inactive, whether it was
    never raised or was lifted in that pass, leaves what the exchange holds, long
    less short, within dust of what our orders bought less what they sold.
  */
  lemma InactiveOverrideMeansInSync(t: Tables, snap: Snapshot)
    requires OneRowPerSide(snap.positions)
    requires !ReconcileOnce(t, snap, true).override.Active?
    ensures var exchange := SizeOn(Long, snap.positions) - SizeOn(Short, snap.positions);
            Abs(exchange - Held(ReconcileOnce(t, snap, true).books.orders)) <= DUST_BASE
  {
    hide RepairFills, ConfirmRows, SystemOwned, ClassifyDrift, Held;
    var p1 := ImportPending(Pass(t, false), snap.pending, t.books.orders, true);
    ImportKeepsOverride(Pass(t, false), snap.pending, t.books.orders, true);
    var p3 := ConfirmPhase(RepairPhase(p1, snap.fillList, true), snap, true);
    var orders := p3.t.books.orders;
    NetWithinTotal(snap.positions);
    NetIsLongLessShort(snap.positions);
    NetIsBoughtLessSold(orders);
    NetIsBoughtLessSold(CloseRows(orders));
    ClosedRowsNetToZero(orders);
    if HasPosition(snap.positions) {
      assert !AnyTouched(snap.positions, orders);
      UntouchedPositionAgrees(snap.positions, orders);
    } else if AnyTouched(snap.positions, orders) {
      assert TotalSize(snap.positions) == 0.0;
    } else {
      NoPositionNoRows(snap.positions, orders);
    }
  }

  /** Untouched dust rows cannot be: a row of ours is system-owned only by exposure it would have to match. */
  lemma NoPositionNoRows(positions: seq<PositionRow>, orders: seq<OrderRow>)
    requires !HasPosition(positions) && !AnyTouched(positions, orders)
    ensures Abs(NetBase(orders)) <= DUST_BASE ==> ExchangeNet(positions) == 0.0
  {
    if Abs(NetBase(orders)) <= DUST_BASE {
      forall i | 0 <= i < |positions| ensures !positions[i].ours {
        assert !Touched(positions[i], orders);
      }
      NetOfNone(positions);
    }
  }

  /** No pass both raises the override and lifts it again. */
  lemma RaisedStaysForThisPass(t: Tables, snap: Snapshot, detect: bool)
    ensures BeforeClear(t, snap, detect).entered ==> ReconcileOnce(t, snap, detect).override.Active?
    ensures ReconcileOnce(t, snap, detect).override.Cleared? ==> t.override.Active? || t.override.Cleared?
  {
    hide RepairFills, ConfirmRows, CloseRows, AnyTouched, AnyUnmatched, AnyCancelledOutside;
    ImportKeepsOverride(Pass(t, false), snap.pending, t.books.orders, detect);
  }

  // ----- exactly when a pass raises the override, and when it lifts it

  /** Nothing pending on our symbol but orders recorded here. */
  predicate AllPendingKnown(pending: seq<PendingRow>, orders: seq<OrderRow>) {
    forall i :: 0 <= i < |pending| && pending[i].ours && pending[i].clientOid != "" ==>
      exists j :: 0 <= j < |orders| && orders[j].clientOid == pending[i].clientOid
  }

  /** Every fill on our symbol belongs to an order recorded here. */
  predicate AllFillsOurs(page: seq<FillEntry>, orders: seq<OrderRow>) {
    forall i :: 0 <= i < |page| && page[i].ours ==> page[i].orderId != "" && HasOrder(orders, page[i].orderId)
  }

  /** A working order of ours that is not listed and, looked up, turns out gone without having filled whole. */
  predicate VanishedUnfilled(row: OrderRow, snap: Snapshot) {
    && row.intentId != None && row.status in {Submitted, Status.Live} && !ListedPending(snap.pending, row.clientOid)
    && row.clientOid in snap.details
    && var d := snap.details[row.clientOid];
       d.status == DetailGone && (row.size <= 0.0 || d.filled < row.size)
  }

  /** The row is accounted for by orders of ours that one of our opens began. */
  predicate Explained(row: PositionRow, orders: seq<OrderRow>) {
    && (exists i :: 0 <= i < |orders| && orders[i].isOpen && orders[i].intentId != None
                    && orders[i].filled > 0.0 && orders[i].status != ExternallyClosed)
    && Abs(Held(orders)) > DUST_BASE
    && Abs((if row.side.Long? then row.size else -row.size) - Held(orders)) <= DUST_BASE
  }

  /** Every position of ours is accounted for, and where none is listed none is expected. */
  predicate PositionsAgree(positions: seq<PositionRow>, orders: seq<OrderRow>) {
    && (forall i :: 0 <= i < |positions| && positions[i].ours ==> Explained(positions[i], orders))
    && ((forall i :: 0 <= i < |positions| && positions[i].ours ==> Abs(positions[i].size) <= DUST_BASE) ==>
          Abs(Held(orders)) <= DUST_BASE)
  }

  /** Nobody but this system has touched the symbol. */
  predicate Healthy(t: Tables, snap: Snapshot) {
    && AllPendingKnown(snap.pending, t.books.orders)
    && AllFillsOurs(snap.fillList, t.books.orders)
    && var repaired := RepairFills(t.books, snap.fillList, t.books.fills).orders;
       && (forall i :: 0 <= i < |repaired| ==> !VanishedUnfilled(repaired[i], snap))
       && PositionsAgree(snap.positions, ConfirmRows(repaired, snap))
  }

  /** Nothing is held and nothing is pending. */
  predicate NothingThere(snap: Snapshot) {
    && (forall i :: 0 <= i < |snap.pending| ==> !snap.pending[i].ours)
    && (forall i :: 0 <= i < |snap.positions| && snap.positions[i].ours ==> snap.positions[i].size == 0.0)
  }

  lemma {:induction false} ImportsExactlyForeign(t: Tables, pending: seq<PendingRow>)
    requires !t.override.Active?
    ensures var p := ImportPending(Pass(t, false), pending, t.books.orders, true);
            if AllPendingKnown(pending, t.books.orders) then p == Pass(t, false) else p.entered && p.t.override.Active?
  {
    if pending != [] {
      var before, last := pending[..|pending| - 1], pending[|pending| - 1];
      ImportsExactlyForeign(t, before);
      if AllPendingKnown(pending, t.books.orders) {
        forall i | 0 <= i < |before| && before[i].ours && before[i].clientOid != ""
          ensures exists j :: 0 <= j < |t.books.orders| && t.books.orders[j].clientOid == before[i].clientOid
        {
          assert before[i] == pending[i];
        }
        assert last == pending[|pending| - 1];
      }
    }
  }

  lemma UnmatchedExactly(page: seq<FillEntry>, orders: seq<OrderRow>)
    ensures AnyUnmatched(page, orders) <==> !AllFillsOurs(page, orders)
  {
    if !AllFillsOurs(page, orders) {
      var i :| 0 <= i < |page| && page[i].ours && !(page[i].orderId != "" && HasOrder(orders, page[i].orderId));
      assert Unmatched(page[i], orders);
    }
  }

  lemma CancelledExactly(row: OrderRow, snap: Snapshot)
    ensures CancelledOutside(row, snap) <==> VanishedUnfilled(row, snap)
  {
  }

  lemma TouchedExactly(row: PositionRow, orders: seq<OrderRow>)
    ensures Touched(row, orders) <==> row.ours && !Explained(row, orders)
  {
    hide Held, NetBase;
    NetIsBoughtLessSold(orders);
    if SystemOwned(orders) {
      var i :| 0 <= i < |orders| && OpenCycle(orders[i]);
    }
    if Explained(row, orders) {
      var i :| 0 <= i < |orders| && orders[i].isOpen && orders[i].intentId != None
               && orders[i].filled > 0.0 && orders[i].status != ExternallyClosed;
      assert OpenCycle(orders[i]);
    }
  }

  lemma PositionsAgreeExactly(positions: seq<PositionRow>, orders: seq<OrderRow>)
    ensures PositionsAgree(positions, orders) <==>
              !AnyTouched(positions, orders) && (HasPosition(positions) || Abs(NetBase(orders)) <= DUST_BASE)
  {
    hide Touched, Explained, Held, NetBase;
    NetIsBoughtLessSold(orders);
    forall i | 0 <= i < |positions| ensures Touched(positions[i], orders)
                                           <==> positions[i].ours && !Explained(positions[i], orders)
    {
      TouchedExactly(positions[i], orders);
    }
  }

  lemma EntersExactlyWhenUnhealthy(t: Tables, snap: Snapshot)
    requires !t.override.Active?
    ensures var p := BeforeClear(t, snap, true);
            && p.entered == p.t.override.Active? == !Healthy(t, snap)
            && (!p.entered ==> p.t.override == t.override)
  {
    hide RepairFills, ConfirmRows, AnyTouched, AnyUnmatched, HasPosition, NetBase, UpsertPositions,
         SystemOwned, CloseRows, CancelledOutside, VanishedUnfilled, AllPendingKnown, AllFillsOurs, PositionsAgree;
    var p1 := ImportPending(Pass(t, false), snap.pending, t.books.orders, true);
    ImportsExactlyForeign(t, snap.pending);
    if p1 == Pass(t, false) {
      UnmatchedExactly(snap.fillList, t.books.orders);
      var repaired := RepairFills(t.books, snap.fillList, t.books.fills).orders;
      forall i | 0 <= i < |repaired|
        ensures CancelledOutside(repaired[i], snap) <==> VanishedUnfilled(repaired[i], snap)
      {
        CancelledExactly(repaired[i], snap);
      }
      PositionsAgreeExactly(snap.positions, ConfirmRows(repaired, snap));
    }
  }

  lemma ActiveStaysUntilCleared(t: Tables, snap: Snapshot)
    requires t.override.Active?
    ensures BeforeClear(t, snap, true).t.override.Active? && !BeforeClear(t, snap, true).entered
  {
    hide RepairFills, ConfirmRows, AnyTouched, AnyUnmatched, HasPosition, NetBase, UpsertPositions,
         SystemOwned, CloseRows, AnyCancelledOutside;
    ImportKeepsOverride(Pass(t, false), snap.pending, t.books.orders, true);
  }

  lemma {:induction false} CountsExactly(pending: seq<PendingRow>)
    ensures OpenCount(pending) == 0 <==> forall i :: 0 <= i < |pending| ==> !pending[i].ours
  {
    if pending != [] {
      var before := pending[..|pending| - 1];
      CountsExactly(before);
      assert forall i :: 0 <= i < |before| ==> before[i] == pending[i];
    }
  }

  lemma {:induction false} TotalsExactly(positions: seq<PositionRow>)
    ensures TotalSize(positions) >= 0.0
    ensures TotalSize(positions) == 0.0
            <==> forall i :: 0 <= i < |positions| && positions[i].ours ==> positions[i].size == 0.0
  {
    if positions != [] {
      var before := positions[..|positions| - 1];
      TotalsExactly(before);
      assert forall i :: 0 <= i < |before| ==> before[i] == positions[i];
    }
  }

  /**
    The whole life of the override in one law: a completed pass raises it exactly
    when somebody else has touched the symbol, and lifts it exactly when it was
    already raised and nothing is held or pending.
  */
  lemma OverrideAfterAPass(t: Tables, snap: Snapshot)
    ensures ReconcileOnce(t, snap, true).override ==
              if t.override.Active? then if NothingThere(snap) then Cleared else Active
              else if Healthy(t, snap) then t.override else Active
  {
    hide Healthy, BeforeClear;
    CountsExactly(snap.pending);
    TotalsExactly(snap.positions);
    if t.override.Active? {
      ActiveStaysUntilCleared(t, snap);
    } else {
      EntersExactlyWhenUnhealthy(t, snap);
    }
  }

  /** A position closed from outside closes exactly the rows that counted towards it. */
  lemma ClosesExactlyWhatCounted(orders: seq<OrderRow>, i: nat)
    requires i < |orders|
    ensures var row, row' := orders[i], CloseRows(orders)[i];
            if CountsAsExposure(row) then row' == row.(status := ExternallyClosed) else row' == row
  {
  }

  /**
    A drift is named by its sign alone, which is right for longs and the wrong way
    round for shorts: a short that shrank is reported as added to.
  */
  lemma DriftNamedRightlyExactlyForLongs(net: real, row: PositionRow)
    requires row.size >= 0.0 && ClassifyDrift(net, row).Some? && !ClassifyDrift(net, row).value.Closed?
    ensures (ClassifyDrift(net, row).value.Added? <==> row.size > Abs(net)) <==> row.side.Long?
  {
  }

  /** A drift is a closing or a reversal exactly when our orders imply the other side, or none. */
  lemma DriftClosesExactlyAcrossSides(net: real, row: PositionRow)
    requires ClassifyDrift(net, row).Some?
    ensures ClassifyDrift(net, row).value.Closed? <==> if row.side.Long? then net <= 0.0 else net >= 0.0
  {
  }

  /** What looking a missing order up makes of its row. */
  lemma ConfirmedRowSays(row: OrderRow, snap: Snapshot)
    ensures var row' := ConfirmRow(row, snap);
            if !IsMissing(row, snap.pending) then row' == row
            else if row.clientOid !in snap.details then row' == row.(status := NeedsReconcile)
            else
              var d := snap.details[row.clientOid];
              var whole := row.size > 0.0 && d.filled >= row.size;
              && row' == row.(filled := if d.filled > 0.0 then d.filled else row.filled, status := row'.status)
              && (row'.status.ExternallyCancelled? <==> d.status.DetailGone? && !whole)
              && (row'.status.NeedsReconcile? <==> d.status.DetailOther? && d.filled <= 0.0)
              && (row'.status.Filled? <==>
                    d.filled > 0.0 && FilledToSize(row') && !(d.status.DetailGone? && !whole))
  {
  }

  lemma {:induction false} LastRowIsStored(position: Option<LocalPosition>, positions: seq<PositionRow>, isSystem: bool)
    ensures var stored := UpsertPositions(position, positions, isSystem);
            if forall i :: 0 <= i < |positions| ==> !positions[i].ours then stored == position
            else exists i :: 0 <= i < |positions| && positions[i].ours
                             && stored == Some(LocalPosition(positions[i].side, positions[i].size, isSystem))
  {
    if positions != [] && !positions[|positions| - 1].ours {
      var before := positions[..|positions| - 1];
      LastRowIsStored(position, before, isSystem);
      assert forall i :: 0 <= i < |before| ==> before[i] == positions[i];
    }
  }

  /** After a pass the local position is one the exchange lists, or none when nothing above dust is listed. */
  lemma PositionIsTheExchanges(t: Tables, snap: Snapshot, detect: bool)
    ensures var position := ReconcileOnce(t, snap, detect).position;
            if !HasPosition(snap.positions) then position == None
            else
              && position.Some?
              && exists i :: 0 <= i < |snap.positions| && snap.positions[i].ours
                             && position.value.side == snap.positions[i].side
                             && position.value.size == snap.positions[i].size
  {
    hide RepairFills, ConfirmRows, AnyTouched, AnyUnmatched, NetBase, UpsertPositions, SystemOwned, CloseRows,
         AnyCancelledOutside, ImportPending;
    var p3 := ConfirmPhase(RepairPhase(ImportPending(Pass(t, false), snap.pending, t.books.orders, detect),
                                       snap.fillList, detect), snap, detect);
    LastRowIsStored(p3.t.position, snap.positions, SystemOwned(p3.t.books.orders));
  }

  /** The row of an order first seen on the exchange: what is listed, as nobody's intent. */
  predicate RecordOf(order: OrderRow, row: PendingRow) {
    && order.clientOid == row.clientOid && order.intentId.None? && order.orderId == row.orderId
    && order.status == row.status && order.size == row.size && order.filled == row.filled
  }

  predicate Recorded(orders: seq<OrderRow>, row: PendingRow) {
    exists j :: 0 <= j < |orders| && RecordOf(orders[j], row)
  }

  predicate StemsFrom(order: OrderRow, pending: seq<PendingRow>, local: seq<OrderRow>) {
    exists i :: 0 <= i < |pending| && Foreign(pending[i], local) && RecordOf(order, pending[i])
  }

  predicate ListedAgain(pending: seq<PendingRow>, i: nat)
    requires i < |pending|
  {
    exists j :: i < j < |pending| && pending[j].clientOid == pending[i].clientOid
  }

  /**
    Importing leaves every row known before alone, records each foreign order as it
    was last listed, as nobody's intent, and records nothing else.
  */
  lemma {:induction false} ImportRecordsForeign(p: Pass, pending: seq<PendingRow>, detect: bool)
    ensures var local, orders := p.t.books.orders, ImportPending(p, pending, p.t.books.orders, detect).t.books.orders;
            && local <= orders
            && (forall i :: 0 <= i < |pending| && Foreign(pending[i], local) && !ListedAgain(pending, i) ==>
                  Recorded(orders, pending[i]))
            && (forall j :: |local| <= j < |orders| ==> StemsFrom(orders[j], pending, local))
  {
    hide RecordOf;
    if pending != [] {
      var before, row, local := pending[..|pending| - 1], pending[|pending| - 1], p.t.books.orders;
      ImportRecordsForeign(p, before, detect);
      var mid := ImportPending(p, before, local, detect).t.books.orders;
      var after := ImportPending(p, pending, local, detect).t.books.orders;
      if Foreign(row, local) {
        UpsertRecords(mid, row, |local|);
      }
      forall i | 0 <= i < |pending| && Foreign(pending[i], local) && !ListedAgain(pending, i)
        ensures Recorded(after, pending[i])
      {
        if i < |before| {
          assert before[i] == pending[i];
          ListedAgainLater(pending, i);
          assert Recorded(mid, before[i]);
        }
      }
      forall j | |local| <= j < |after|
        ensures StemsFrom(after[j], pending, local)
      {
        if !(Foreign(row, local) && RecordOf(after[j], row)) {
          assert after[j] == mid[j] && StemsFrom(mid[j], before, local);
          var i :| 0 <= i < |before| && Foreign(before[i], local) && RecordOf(mid[j], before[i]);
          assert pending[i] == before[i];
        }
      }
    }
  }

  lemma ListedAgainLater(pending: seq<PendingRow>, i: nat)
    requires i < |pending| - 1 && !ListedAgain(pending, i)
    ensures !ListedAgain(pending[..|pending| - 1], i) && pending[|pending| - 1].clientOid != pending[i].clientOid
  {
  }

  /** Recording one row changes rows of its client id alone, past the first n, and leaves the others recorded. */
  lemma UpsertRecords(orders: seq<OrderRow>, row: PendingRow, n: nat)
    requires n <= |orders| && !HasClientOid(orders[..n], row.clientOid)
    ensures var orders' := UpsertPending(orders, row);
            && orders[..n] <= orders' && Recorded(orders', row) && |orders| <= |orders'|
            && (forall other: PendingRow :: other.clientOid != row.clientOid && Recorded(orders, other) ==>
                  Recorded(orders', other))
            && (forall j :: n <= j < |orders'| ==>
                  RecordOf(orders'[j], row) || (j < |orders| && orders'[j] == orders[j]))
  {
    var orders' := UpsertPending(orders, row);
    forall i | 0 <= i < n ensures orders'[i] == orders[i] {
      assert orders[..n][i].clientOid != row.clientOid;
    }
    if HasClientOid(orders, row.clientOid) {
      var i :| 0 <= i < |orders| && orders[i].clientOid == row.clientOid;
      assert RecordOf(orders'[i], row);
    } else {
      assert RecordOf(orders'[|orders|], row);
    }
    forall other: PendingRow | other.clientOid != row.clientOid && Recorded(orders, other)
      ensures Recorded(orders', other)
    {
      var j :| 0 <= j < |orders| && RecordOf(orders[j], other);
      assert orders'[j] == orders[j];
    }
  }

  // ----- an exchange that stays flat

  /** No pending order of ours, nothing held, and every fill of ours belongs to a local order. */
  predicate Flat(t: Tables, snap: Snapshot) {
    && (forall i :: 0 <= i < |snap.pending| ==> !snap.pending[i].ours)
    && TotalSize(snap.positions) == 0.0
    && !AnyUnmatched(snap.fillList, t.books.orders)
    && (forall i :: 0 <= i < |snap.fillList| ==> snap.fillList[i].tradeId != "")
    && FillIdsFree(t.books.fills, snap.fillList)
  }

  predicate NoRowListed(positions: seq<PositionRow>) {
    forall i :: 0 <= i < |positions| ==> !positions[i].ours
  }

  /** A recorded fill under the id a listed trade would get does name that trade. */
  predicate FillIdsFree(fills: seq<FillRow>, page: seq<FillEntry>) {
    forall i :: 0 <= i < |page| && HasFill(fills, FillId(page[i])) ==> KnowsTrade(fills, page[i].tradeId)
  }

  /** Confirming this row again would change nothing and raise nothing. */
  predicate Settled(row: OrderRow, snap: Snapshot) {
    ConfirmRow(row, snap) == row && !CancelledOutside(row, snap)
  }

  predicate AllSettled(orders: seq<OrderRow>, snap: Snapshot) {
    forall i :: 0 <= i < |orders| ==> Settled(orders[i], snap)
  }

  predicate CaughtUp(b: Books, page: seq<FillEntry>) {
    forall i :: 0 <= i < |page| ==> !Repairable(page[i], b.orders, b.fills)
  }

  lemma ConfirmSettles(row: OrderRow, snap: Snapshot)
    ensures Settled(ConfirmRow(row, snap), snap)
  {
  }

  lemma CloseSettles(row: OrderRow, snap: Snapshot)
    requires Settled(row, snap)
    ensures Settled(CloseRow(row), snap)
  {
  }

  /** Repairing the first n rows of a page records their trades and keeps the ids of the rest free. */
  lemma {:induction false} RepairCatchesUp(b: Books, page: seq<FillEntry>, n: nat, known: seq<FillRow>)
    requires n <= |page| && FillIdsFree(b.fills, page)
    requires forall i :: 0 <= i < |page| ==> page[i].tradeId != ""
    ensures var b' := RepairFills(b, page[..n], known);
            && FillIdsFree(b'.fills, page)
            && forall i :: 0 <= i < n && Repairable(page[i], b.orders, known) ==>
                 KnowsTrade(b'.fills, page[i].tradeId)
  {
    hide FillIdsFree, KnowsTrade, HasFill, Repairable;
    if n > 0 {
      RepairCatchesUp(b, page, n - 1, known);
      assert page[..n][..n - 1] == page[..n - 1];
      var mid := RepairFills(b, page[..n - 1], known);
      RepairKeepsRows(b, page[..n - 1], known);
      SameOrdersKeepKeys(b.orders, mid.orders);
      SameRepairable(page[n - 1], b.orders, mid.orders, known);
      InsertRecords(mid.fills, page, n - 1);
    }
  }

  lemma SameRepairable(entry: FillEntry, orders: seq<OrderRow>, orders': seq<OrderRow>, known: seq<FillRow>)
    requires HasOrder(orders, entry.orderId) <==> HasOrder(orders', entry.orderId)
    ensures Repairable(entry, orders, known) <==> Repairable(entry, orders', known)
  {
  }

  lemma InsertRecords(fills: seq<FillRow>, page: seq<FillEntry>, k: nat)
    requires k < |page| && FillIdsFree(fills, page)
    requires forall i :: 0 <= i < |page| ==> page[i].tradeId != ""
    ensures var fills' := InsertFill(fills, FillOf(page[k]));
            && FillIdsFree(fills', page) && KnowsTrade(fills', page[k].tradeId)
            && forall id :: KnowsTrade(fills, id) ==> KnowsTrade(fills', id)
  {
    var fill, fills' := FillOf(page[k]), InsertFill(fills, FillOf(page[k]));
    if !HasFill(fills, fill.fillId) {
      assert fills'[|fills|].tradeId == Some(page[k].tradeId);
    }
    forall id | KnowsTrade(fills, id) ensures KnowsTrade(fills', id) {
      var i :| 0 <= i < |fills| && fills[i].tradeId == Some(id);
      assert fills'[i] == fills[i];
    }
    forall i | 0 <= i < |page| && HasFill(fills', FillId(page[i])) ensures KnowsTrade(fills', page[i].tradeId) {
      var j :| 0 <= j < |fills'| && fills'[j].fillId == FillId(page[i]);
      if j < |fills| {
        assert HasFill(fills, FillId(page[i]));
      } else {
        SameFillId(page[i], page[k]);
      }
    }
  }

  lemma SameFillId(a: FillEntry, b: FillEntry)
    requires a.tradeId != "" && b.tradeId != "" && FillId(a) == FillId(b)
    ensures a.tradeId == b.tradeId
  {
    assert a.tradeId == FillId(a)[5..] && b.tradeId == FillId(b)[5..];
  }

  lemma {:induction false} CaughtUpRepairsNothing(b: Books, page: seq<FillEntry>)
    requires CaughtUp(b, page)
    ensures RepairFills(b, page, b.fills) == b
  {
    if page != [] {
      assert CaughtUp(b, page[..|page| - 1]);
      CaughtUpRepairsNothing(b, page[..|page| - 1]);
    }
  }

  lemma {:induction false} NothingPending(p: Pass, pending: seq<PendingRow>, local: seq<OrderRow>, detect: bool)
    requires forall i :: 0 <= i < |pending| ==> !pending[i].ours
    ensures ImportPending(p, pending, local, detect) == p && OpenCount(pending) == 0
  {
    if pending != [] {
      NothingPending(p, pending[..|pending| - 1], local, detect);
    }
  }

  lemma {:induction false} NothingHeld(position: Option<LocalPosition>, positions: seq<PositionRow>, isSystem: bool)
    requires forall i :: 0 <= i < |positions| ==> !positions[i].ours
    ensures TotalSize(positions) == 0.0 && UpsertPositions(position, positions, isSystem) == position
  {
    if positions != [] {
      NothingHeld(position, positions[..|positions| - 1], isSystem);
    }
  }

  /** The fill table after one pass holds every trade the exchange lists, and the rows need no further confirming. */
  predicate Quiesced(t: Tables, snap: Snapshot) {
    && Flat(t, snap) && CaughtUp(t.books, snap.fillList) && AllSettled(t.books.orders, snap)
    && Abs(NetBase(t.books.orders)) <= DUST_BASE && t.position == None
  }

  lemma FlatPassQuiesces(t: Tables, snap: Snapshot)
    requires Flat(t, snap)
    ensures Quiesced(ReconcileOnce(t, snap, true), snap)
  {
    hide RepairFills, ConfirmRow, CloseRow, CaughtUp, FillIdsFree, AnyUnmatched, AnyCancelledOutside, AnyTouched,
         SystemOwned, UpsertPositions, SameOrders;
    NothingPending(Pass(t, false), snap.pending, t.books.orders, true);
    NetWithinTotal(snap.positions);
    var repaired := RepairFills(t.books, snap.fillList, t.books.fills);
    var confirmed := ConfirmRows(repaired.orders, snap);
    RepairedIsCaughtUp(t.books, snap.fillList);
    forall i | 0 <= i < |confirmed| ensures Settled(confirmed[i], snap) && Settled(CloseRow(confirmed[i]), snap) {
      ConfirmSettles(repaired.orders[i], snap);
      CloseSettles(confirmed[i], snap);
    }
    ClosedRowsNetToZero(confirmed);
    var closed := CloseRows(confirmed);
    assert SameOrders(repaired.orders, confirmed) && SameOrders(confirmed, closed) by {
      RowsKeepIdentity(repaired.orders, snap);
    }
    StillCaughtUp(repaired, confirmed, snap.fillList);
    StillCaughtUp(repaired.(orders := confirmed), closed, snap.fillList);
    assert !HasPosition(snap.positions);
  }

  lemma RowsKeepIdentity(orders: seq<OrderRow>, snap: Snapshot)
    ensures SameOrders(orders, ConfirmRows(orders, snap))
    ensures SameOrders(ConfirmRows(orders, snap), CloseRows(ConfirmRows(orders, snap)))
  {
  }

  lemma RepairedIsCaughtUp(b: Books, page: seq<FillEntry>)
    requires FillIdsFree(b.fills, page)
    requires !AnyUnmatched(page, b.orders) && forall i :: 0 <= i < |page| ==> page[i].tradeId != ""
    ensures var b' := RepairFills(b, page, b.fills);
            && CaughtUp(b', page) && !AnyUnmatched(page, b'.orders) && FillIdsFree(b'.fills, page)
  {
    hide RepairFills, FillIdsFree;
    var b' := RepairFills(b, page, b.fills);
    RepairCatchesUp(b, page, |page|, b.fills);
    assert page[..|page|] == page;
    RepairKeepsRows(b, page, b.fills);
    SameOrdersKeepKeys(b.orders, b'.orders);
    forall i | 0 <= i < |page| ensures !Repairable(page[i], b'.orders, b'.fills) && !Unmatched(page[i], b'.orders) {
      assert !Unmatched(page[i], b.orders);
      if KnowsTrade(b.fills, page[i].tradeId) {
        var j :| 0 <= j < |b.fills| && b.fills[j].tradeId == Some(page[i].tradeId);
        assert b'.fills[j] == b.fills[j];
      }
    }
  }

  lemma StillCaughtUp(b: Books, orders': seq<OrderRow>, page: seq<FillEntry>)
    requires CaughtUp(b, page) && !AnyUnmatched(page, b.orders) && SameOrders(b.orders, orders')
    ensures CaughtUp(b.(orders := orders'), page) && !AnyUnmatched(page, orders')
  {
    SameOrdersKeepKeys(b.orders, orders');
    forall i | 0 <= i < |page| ensures !Repairable(page[i], orders', b.fills) && !Unmatched(page[i], orders') {
      assert !Repairable(page[i], b.orders, b.fills) && !Unmatched(page[i], b.orders);
    }
  }

  /** On quiesced tables, with no row listed, a pass changes nothing but lifts a raised override. */
  lemma QuiescedPass(t: Tables, snap: Snapshot)
    requires Quiesced(t, snap) && NoRowListed(snap.positions)
    ensures ReconcileOnce(t, snap, true) == if t.override.Active? then t.(override := Cleared) else t
  {
    hide RepairFills, ConfirmRow, CancelledOutside, FillIdsFree, CaughtUp, AllSettled;
    NothingPending(Pass(t, false), snap.pending, t.books.orders, true);
    NothingHeld(t.position, snap.positions, true);
    NothingHeld(t.position, snap.positions, false);
    CaughtUpRepairsNothing(t.books, snap.fillList);
    ConfirmingAgain(t.books.orders, snap);
  }

  lemma ConfirmingAgain(orders: seq<OrderRow>, snap: Snapshot)
    requires AllSettled(orders, snap)
    ensures ConfirmRows(orders, snap) == orders && !AnyCancelledOutside(orders, snap)
  {
    hide ConfirmRow, CancelledOutside;
    forall i | 0 <= i < |orders|
      ensures ConfirmRow(orders[i], snap) == orders[i] && !CancelledOutside(orders[i], snap)
    {
      assert Settled(orders[i], snap);
    }
  }

  function Passes(t: Tables, snap: Snapshot, n: nat): Tables {
    if n == 0 then t else ReconcileOnce(Passes(t, snap, n - 1), snap, true)
  }

  /** From the first pass on the tables are quiesced, whatever the local state was. */
  lemma {:induction false} FlatPassesQuiesce(t: Tables, snap: Snapshot, n: nat)
    requires Flat(t, snap) && n >= 1
    ensures Quiesced(Passes(t, snap, n), snap)
  {
    hide ReconcileOnce, Flat;
    var before := Passes(t, snap, n - 1);
    if n > 1 {
      FlatPassesQuiesce(t, snap, n - 1);
      QuiescedIsFlat(before, snap);
    }
    FlatPassQuiesces(before, snap);
  }

  lemma QuiescedIsFlat(t: Tables, snap: Snapshot)
    requires Quiesced(t, snap)
    ensures Flat(t, snap) && t.position == None && Abs(NetBase(t.books.orders)) <= DUST_BASE
  {
  }

  /**
    From any local state, two passes over an unchanging flat exchange reach a
    state no later pass changes: override not active, no position, net within dust.
  */
  lemma {:induction false} FlatExchangeSettlesInTwoPasses(t: Tables, snap: Snapshot, n: nat)
    requires Flat(t, snap) && NoRowListed(snap.positions) && n >= 2
    ensures Passes(t, snap, n) == Passes(t, snap, 2)
    ensures !Passes(t, snap, n).override.Active?
    ensures Passes(t, snap, n).position == None
    ensures Abs(NetBase(Passes(t, snap, n).books.orders)) <= DUST_BASE
  {
    hide ReconcileOnce, Flat, Quiesced, NoRowListed;
    FlatPassesQuiesce(t, snap, n - 1);
    QuiescedPass(Passes(t, snap, n - 1), snap);
    FlatPassesQuiesce(t, snap, n);
    QuiescedIsFlat(Passes(t, snap, n), snap);
    if n > 2 {
      FlatExchangeSettlesInTwoPasses(t, snap, n - 1);
    }
  }

  /** Every stage a pass can be abandoned at leaves a flat exchange flat for the tables. */
  lemma AbandonedStaysFlat(t: Tables, t': Tables, snap: Snapshot, stage: Stage, n: nat)
    requires Flat(t, snap) && AbandonedAt(t, t', snap, true, stage, n)
    ensures Flat(t', snap)
  {
    hide RepairFills, ConfirmRow, CloseRow, AnyUnmatched, AnyTouched, AnyCancelledOutside, FillIdsFree, NetBase,
         UpsertPositions, SystemOwned, HasPosition, SameOrders, TotalSize;
    NothingPending(Pass(t, false), snap.pending, t.books.orders, true);
    var whole := RepairFills(t.books, snap.fillList, t.books.fills);
    RepairedIsCaughtUp(t.books, snap.fillList);
    match stage {
      case Importing =>
        NothingPending(Pass(t, false), snap.pending[..n], t.books.orders, true);
      case Repairing =>
        RepairCatchesUp(t.books, snap.fillList, n, t.books.fills);
        RepairKeepsRows(t.books, snap.fillList[..n], t.books.fills);
        StillMatched(t.books.orders, t'.books.orders, snap.fillList);
      case Confirming =>
        SomeKeepIdentity(whole.orders, snap, n);
        StillMatched(whole.orders, t'.books.orders, snap.fillList);
      case Classifying =>
        RowsKeepIdentity(whole.orders, snap);
        StillMatched(whole.orders, t'.books.orders, snap.fillList);
      case Closing =>
        RowsKeepIdentity(whole.orders, snap);
        var confirmed := ConfirmRows(whole.orders, snap);
        StillMatched(whole.orders, confirmed, snap.fillList);
        StillMatched(confirmed, CloseRows(confirmed), snap.fillList);
    }
  }

  lemma StillMatched(orders: seq<OrderRow>, orders': seq<OrderRow>, page: seq<FillEntry>)
    requires SameOrders(orders, orders') && !AnyUnmatched(page, orders)
    ensures !AnyUnmatched(page, orders')
  {
    SameOrdersKeepKeys(orders, orders');
    forall i | 0 <= i < |page| ensures !Unmatched(page[i], orders') {
      assert !Unmatched(page[i], orders);
    }
  }

  lemma SomeKeepIdentity(orders: seq<OrderRow>, snap: Snapshot, n: nat)
    requires n <= |orders|
    ensures SameOrders(orders, ConfirmRows(orders[..n], snap) + orders[n..])
  {
  }

  /** An abandoned pass costs nothing but time: from where it stopped, two passes settle as from anywhere. */
  lemma SettlesAfterAbandonedPass(t: Tables, t': Tables, snap: Snapshot, stage: Stage, n: nat, m: nat)
    requires Flat(t, snap) && NoRowListed(snap.positions) && AbandonedAt(t, t', snap, true, stage, n) && m >= 2
    ensures Passes(t', snap, m) == Passes(t', snap, 2) && !Passes(t', snap, m).override.Active?
    ensures Abs(NetBase(Passes(t', snap, m).books.orders)) <= DUST_BASE
  {
    hide Passes, Flat, AbandonedAt;
    AbandonedStaysFlat(t, t', snap, stage, n);
    FlatExchangeSettlesInTwoPasses(t', snap, m);
  }

  lemma ZeroSizeRowFlips(t: Tables, snap: Snapshot)
    requires Quiesced(t, snap) && !NoRowListed(snap.positions)
    ensures ReconcileOnce(t, snap, true) == t.(override := if t.override.Active? then Cleared else Active)
  {
    hide RepairFills, ConfirmRow, CancelledOutside, FillIdsFree, CaughtUp, NetBase, TotalSize, AllSettled;
    NothingPending(Pass(t, false), snap.pending, t.books.orders, true);
    CaughtUpRepairsNothing(t.books, snap.fillList);
    NetWithinTotal(snap.positions);
    var k :| 0 <= k < |snap.positions| && snap.positions[k].ours;
    assert Touched(snap.positions[k], t.books.orders);
    ConfirmingAgain(t.books.orders, snap);
  }

  /** A zero-size row of ours raises and lifts the override on every other pass, for good, from any local state. */
  lemma ZeroSizeRowKeepsFlapping(t: Tables, snap: Snapshot, n: nat)
    requires Flat(t, snap) && !NoRowListed(snap.positions) && n >= 1
    ensures var before := Passes(t, snap, n);
            Passes(t, snap, n + 1) == before.(override := if before.override.Active? then Cleared else Active)
  {
    hide ReconcileOnce, Flat, Quiesced, NoRowListed;
    FlatPassesQuiesce(t, snap, n);
    ZeroSizeRowFlips(Passes(t, snap, n), snap);
  }

  /** So, from any local state, reconciliation comes to rest on a flat exchange exactly when it lists no row of ours. */
  lemma SettlesExactlyWhenNoRowListed(t: Tables, snap: Snapshot)
    requires Flat(t, snap)
    ensures (forall n: nat :: n >= 2 ==> Passes(t, snap, n) == Passes(t, snap, 2)) <==> NoRowListed(snap.positions)
  {
    hide ReconcileOnce, Flat, NoRowListed;
    if NoRowListed(snap.positions) {
      forall n: nat | n >= 2 ensures Passes(t, snap, n) == Passes(t, snap, 2) {
        FlatExchangeSettlesInTwoPasses(t, snap, n);
      }
    } else {
      ZeroSizeRowKeepsFlapping(t, snap, 2);
      assert Passes(t, snap, 3) != Passes(t, snap, 2);
    }
  }

  // ----- a fill recorded without its trade

  /** A trade whose fill id is taken by another row is never recorded. */
  lemma {:induction false} TakenIdStaysUnknown(b: Books, page: seq<FillEntry>, n: nat, known: seq<FillRow>,
                                               entry: FillEntry)
    requires n <= |page| && forall i :: 0 <= i < |page| ==> page[i].tradeId != ""
    requires entry.tradeId != "" && HasFill(b.fills, FillId(entry)) && !KnowsTrade(b.fills, entry.tradeId)
    ensures var fills := RepairFills(b, page[..n], known).fills;
            HasFill(fills, FillId(entry)) && !KnowsTrade(fills, entry.tradeId)
  {
    hide Repairable;
    if n > 0 {
      TakenIdStaysUnknown(b, page, n - 1, known, entry);
      assert page[..n][..n - 1] == page[..n - 1];
      InsertLeavesTaken(RepairFills(b, page[..n - 1], known).fills, page[n - 1], entry);
    }
  }

  lemma InsertLeavesTaken(fills: seq<FillRow>, inserted: FillEntry, entry: FillEntry)
    requires inserted.tradeId != "" && entry.tradeId != ""
    requires HasFill(fills, FillId(entry)) && !KnowsTrade(fills, entry.tradeId)
    ensures var fills' := InsertFill(fills, FillOf(inserted));
            HasFill(fills', FillId(entry)) && !KnowsTrade(fills', entry.tradeId)
  {
    var fills' := InsertFill(fills, FillOf(inserted));
    var i :| 0 <= i < |fills| && fills[i].fillId == FillId(entry);
    assert fills'[i].fillId == FillId(entry);
    assert inserted.tradeId == entry.tradeId ==> FillId(inserted) == FillId(entry);
  }

  /**
    One pass records every trade listed for our orders exactly when no recorded row
    holds a listed trade's fill id without naming that trade.
  */
  lemma {:induction false} RecordsEveryTradeExactlyWhenIdsFree(b: Books, page: seq<FillEntry>)
    requires !AnyUnmatched(page, b.orders)
    requires forall i :: 0 <= i < |page| ==> page[i].ours && page[i].tradeId != "" && page[i].size > 0.0
    ensures CaughtUp(RepairFills(b, page, b.fills), page) <==> FillIdsFree(b.fills, page)
  {
    hide RepairFills, HasFill, KnowsTrade;
    var b' := RepairFills(b, page, b.fills);
    assert page[..|page|] == page;
    if FillIdsFree(b.fills, page) {
      RepairedIsCaughtUp(b, page);
    } else {
      var i :| 0 <= i < |page| && HasFill(b.fills, FillId(page[i])) && !KnowsTrade(b.fills, page[i].tradeId);
      TakenIdStaysUnknown(b, page, |page|, b.fills, page[i]);
      RepairKeepsRows(b, page, b.fills);
      SameOrdersKeepKeys(b.orders, b'.orders);
      assert !Unmatched(page[i], b.orders);
      assert Repairable(page[i], b'.orders, b'.fills);
    }
  }

  /**
    Why a listed trade's fill id must be free: where a row without a trade id holds
    it, the trade is repaired again on every pass, which revives the order that the
    flat position closed, and the override is raised and lifted on every other pass.
  */
  lemma OccupiedFillIdKeepsFlapping(order: OrderRow, entry: FillEntry, override: Override, n: nat)
    requires order.intentId.Some? && order.orderId != "" && order.status.Filled?
    requires order.filled == order.size > DUST_BASE
    requires entry.orderId == order.orderId && entry.tradeId != "" && entry.size == order.size
    requires n >= 1
    ensures var fill := FillRow(FillId(entry), None, order.orderId, order.size);
            var t := Tables(Books([order], [fill]), None, override);
            var snap := Snapshot([], [entry], map[], []);
            var before, u := Passes(t, snap, n - 1), Passes(t, snap, n);
            && u.override == (if before.override.Active? then Cleared else Active)
            && u.books == Books([order.(status := ExternallyClosed)], [fill])
  {
    var fill := FillRow(FillId(entry), None, order.orderId, order.size);
    var t := Tables(Books([order], [fill]), None, override);
    var snap := Snapshot([], [entry], map[], []);
    var before := Passes(t, snap, n - 1);
    if n > 1 {
      OccupiedFillIdKeepsFlapping(order, entry, override, n - 1);
    }
    RevivedAndClosed(before, order, entry);
  }

  lemma RevivedAndClosed(t: Tables, order: OrderRow, entry: FillEntry)
    requires order.intentId.Some? && order.orderId != "" && order.status.Filled?
    requires order.filled == order.size > DUST_BASE
    requires entry.orderId == order.orderId && entry.tradeId != "" && entry.size == order.size
    requires var fill := FillRow(FillId(entry), None, order.orderId, order.size);
             t.books == Books([order], [fill]) || t.books == Books([order.(status := ExternallyClosed)], [fill])
    ensures var u := ReconcileOnce(t, Snapshot([], [entry], map[], []), true);
            && u.override == (if t.override.Active? then Cleared else Active)
            && u.books == t.books.(orders := [order.(status := ExternallyClosed)])
  {
    var snap := Snapshot([], [entry], map[], []);
    OccupiedIsRepaired(t.books, order, entry);
    var repaired := RepairFills(t.books, snap.fillList, t.books.fills);
    assert t.books.orders[0].orderId == entry.orderId;
    assert HasOrder(t.books.orders, entry.orderId);
    assert !AnyUnmatched(snap.fillList, t.books.orders);
    assert ConfirmRows(repaired.orders, snap) == repaired.orders;
    assert !AnyCancelledOutside(repaired.orders, snap);
    assert [order][..0] == [] && NetBase([order][..0]) == 0.0;
    assert CloseRows([order]) == [order.(status := ExternallyClosed)];
  }

  lemma OccupiedIsRepaired(b: Books, order: OrderRow, entry: FillEntry)
    requires order.orderId != "" && order.status.Filled? && order.filled == order.size > DUST_BASE
    requires entry.orderId == order.orderId && entry.tradeId != "" && entry.size == order.size
    requires b.fills == [FillRow(FillId(entry), None, order.orderId, order.size)]
    requires b.orders == [order] || b.orders == [order.(status := ExternallyClosed)]
    ensures RepairFills(b, [entry], b.fills) == b.(orders := [order])
  {
    assert [entry][..0] == [] && b.fills[..0] == [];
    assert RepairFills(b, [entry][..0], b.fills) == b;
    assert SumFills(b.fills[..0], order.orderId) == 0.0;
    assert b.orders[0].orderId == order.orderId && b.fills[0].fillId == FillId(entry);
    assert RepairOne(b, entry, b.fills).orders == [order];
  }
}
