/**
  Reconciliation as the executor runs it: loops over the exchange's answers that
  update rows by key. Each phase is proved to do to the tables what the pass
  function says.
*/
module ReconcileLoop {
  import opened Common
  import opened Ledger
  import R = Reconcile

  class LocalTables {
    var orders: seq<OrderRow>
    var fills: seq<FillRow>
    var position: Option<R.LocalPosition>
    var override: R.Override
    /** How many requests and statements have failed. */
    ghost var failures: nat

    function View(): R.Tables
      reads this
    {
      R.Tables(Books(orders, fills), position, override)
    }

    method Fails() returns (fails: bool)
      modifies this`failures
      ensures failures == old(failures) + if fails then 1 else 0
    {
      fails := *;
      if fails {
        failures := failures + 1;
      }
    }

    method RaiseOverride(entered: bool) returns (entered': bool)
      modifies this`override
      ensures R.Pass(View(), entered') == R.Enter(R.Pass(old(View()), entered))
    {
      entered' := entered;
      if !override.Active? {
        override := R.Active;
        entered' := true;
      }
    }

    /** Insert or update by client order id; refused when the order id belongs to another row. */
    method UpsertOrder(row: R.PendingRow) returns (ok: bool)
      requires UniqueKeys(orders)
      modifies this`orders
      ensures UniqueKeys(orders) && ok == UniqueKeys(R.UpsertPending(old(orders), row))
      ensures orders == if ok then R.UpsertPending(old(orders), row) else old(orders)
    {
      var updated := R.UpsertPending(orders, row);
      ok := UniqueKeys(updated);
      if ok {
        orders := updated;
      }
    }

    method SetFilledFromDetail(orderId: string, filled: real)
      modifies this`orders
      ensures orders == DetailOrders(old(orders), orderId, filled)
    {
      orders := DetailOrders(orders, orderId, filled);
    }

    method SetStatus(clientOid: string, status: Status)
      modifies this`orders
      ensures orders == WithStatus(old(orders), clientOid, status)
    {
      orders := WithStatus(orders, clientOid, status);
    }

    /** Unknown pending orders of our symbol are imported; the first of them raises the override. */
    method ImportPendingOrders(snap: R.Snapshot, detect: bool, entered: bool) returns (entered': bool, ok: bool)
      requires UniqueKeys(orders)
      modifies this`orders, this`override
      ensures UniqueKeys(orders)
      ensures ok ==> R.Pass(View(), entered')
                     == R.ImportPending(R.Pass(old(View()), entered), snap.pending, old(orders), detect)
      ensures !ok && !entered ==> exists n: nat :: R.AbandonedAt(old(View()), View(), snap, detect, R.Importing, n)
      ensures !ok ==> Clashes(old(orders), snap)
    {
      hide UniqueKeys, R.UpsertPending, Clashes, R.AbandonedAt, R.ImportPending;
      var localBefore := orders;
      entered' := entered;
      NoneImportedYet(R.Pass(View(), entered), snap.pending, localBefore, detect);
      var i := 0;
      while i < |snap.pending|
        invariant 0 <= i <= |snap.pending| && UniqueKeys(orders)
        invariant R.Pass(View(), entered')
               == R.ImportPending(R.Pass(old(View()), entered), snap.pending[..i], localBefore, detect)
      {
        var row := snap.pending[i];
        OneMoreImported(R.Pass(old(View()), entered), snap.pending, i, localBefore, detect);
        if R.Foreign(row, localBefore) {
          if detect {
            entered' := RaiseOverride(entered');
          }
          ok := UpsertOrder(row);
          if !ok {
            ClashesHere(R.Pass(old(View()), entered), snap, detect, i);
            if !entered {
              StoppedImporting(old(View()), View(), snap, detect, i);
            }
            return;
          }
        }
        i := i + 1;
      }
      assert snap.pending[..i] == snap.pending;
      ok := true;
    }

    /**
      Missing trades are recorded and their orders synced; a fill of no order of ours
      raises the override. `rows` tells how many rows were seen to when not all were.
    */
    method RepairMissingFills(snap: R.Snapshot, detect: bool, entered: bool)
      returns (entered': bool, ok: bool, ghost rows: nat)
      requires UniqueKeys(orders)
      modifies this
      ensures UniqueKeys(orders) && rows <= |snap.fillList| && failures == old(failures) + if ok then 0 else 1
      ensures R.Pass(View(), entered') == R.RepairPhase(R.Pass(old(View()), entered), snap.fillList[..rows], detect)
      ensures ok ==> R.Pass(View(), entered') == R.RepairPhase(R.Pass(old(View()), entered), snap.fillList, detect)
    {
      hide UniqueKeys, Repairable, RepairOne, R.AnyUnmatched, R.Unmatched;
      var known, ordersBefore := fills, orders;
      NoneUnmatchedYet(orders);
      ghost var before := Books(orders, fills);
      entered' := entered;
      var i := 0;
      while i < |snap.fillList|
        invariant 0 <= i <= |snap.fillList| && position == old(position) && UniqueKeys(orders)
        invariant failures == old(failures)
        invariant Books(orders, fills) == RepairFills(before, snap.fillList[..i], known)
        invariant R.Pass(View().(books := before), entered')
               == var p := R.Pass(old(View()), entered);
                  if detect && R.AnyUnmatched(snap.fillList[..i], ordersBefore) then R.Enter(p) else p
      {
        var fails := Fails();
        if fails {
          return entered', false, i;
        }
        var entry := snap.fillList[i];
        var page := snap.fillList[..i + 1];
        assert page[..i] == snap.fillList[..i] && page[i] == entry;
        RepairKeepsRows(before, snap.fillList[..i], known);
        SameOrdersKeepKeys(before.orders, orders);
        UnmatchedSoFar(page, ordersBefore);
        RepairableIsMatched(entry, ordersBefore, orders, known);
        var b := RepairOne(Books(orders, fills), entry, known);
        if Repairable(entry, orders, known) {
          orders, fills := b.orders, b.fills;
        } else if detect && R.Unmatched(entry, ordersBefore) {
          RepairNothing(Books(orders, fills), entry, known);
          entered' := RaiseOverride(entered');
        } else {
          RepairNothing(Books(orders, fills), entry, known);
        }
        RepairKeepsRows(before, page, known);
        SameOrdersKeepKeys(before.orders, orders);
        i := i + 1;
      }
      assert snap.fillList[..i] == snap.fillList;
      return entered', true, i;
    }

    /**
      Every working order the exchange no longer lists is looked up and updated by
      its keys; afterwards each row is what confirming that row alone gives.
    */
    method ConfirmMissingOrders(snap: R.Snapshot, detect: bool, entered: bool)
      returns (entered': bool, ok: bool, ghost rows: nat)
      requires UniqueKeys(orders)
      modifies this`orders, this`override, this`failures
      ensures UniqueKeys(orders) && rows <= |old(orders)| && failures == old(failures) + if ok then 0 else 1
      ensures R.Pass(View(), entered') == R.ConfirmSome(R.Pass(old(View()), entered), snap, detect, rows)
      ensures ok ==> R.Pass(View(), entered') == R.ConfirmPhase(R.Pass(old(View()), entered), snap, detect)
    {
      hide UniqueKeys, R.ConfirmRow, R.CancelledOutside;
      entered' := entered;
      if !detect {
        return entered', true, 0;
      }
      var before := orders;
      var j := 0;
      while j < |before|
        invariant 0 <= j <= |before| == |orders| && UniqueKeys(orders) && SameOrders(before, orders)
        invariant failures == old(failures)
        invariant forall i :: 0 <= i < |before| ==>
                    orders[i] == if i < j then R.ConfirmRow(before[i], snap) else before[i]
        invariant R.Pass(R.Tables(Books(before, fills), position, override), entered')
               == var p := R.Pass(old(View()), entered);
                  if R.AnyCancelledOutside(before[..j], snap) then R.Enter(p) else p
      {
        var fails := Fails();
        if fails {
          assert orders == R.ConfirmRows(before[..j], snap) + before[j..];
          return entered', false, j;
        }
        var row := before[j];
        CancelledSoFar(before, j, snap);
        ghost var stand := orders;
        entered' := ConfirmOrder(j, row, snap, entered');
        ConfirmKeepsIdentity(row, snap);
        SameOrdersKeepKeys(stand, orders);
        j := j + 1;
      }
      assert before[..j] == before;
      assert orders == R.ConfirmRows(before, snap) == R.ConfirmRows(before[..j], snap) + before[j..];
      return entered', true, j;
    }

    /** Look one working order up unless the exchange lists it, and update it by its keys. */
    method ConfirmOrder(ghost j: nat, row: OrderRow, snap: R.Snapshot, entered: bool) returns (entered': bool)
      requires UniqueKeys(orders) && j < |orders| && orders[j] == row
      modifies this`orders, this`override
      ensures orders == old(orders)[j := R.ConfirmRow(row, snap)]
      ensures var p := R.Pass(old(View()), entered);
              R.Pass(View().(books := old(View()).books), entered')
              == if R.CancelledOutside(row, snap) then R.Enter(p) else p
    {
      KeyedUpdatesTouchOneRow(orders, j);
      hide UniqueKeys, R.ClassifyMissing, R.IsMissing, DetailOrders, WithStatus;
      entered' := entered;
      if R.IsMissing(row, snap.pending) {
        match R.ClassifyMissing(snap.details, row) {
          case FilledSoFar(filled) =>
            SetFilledFromDetail(row.orderId, filled);
          case GoneAfterPartialFill(filled) =>
            SetFilledFromDetail(row.orderId, filled);
            SetStatus(row.clientOid, ExternallyCancelled);
            entered' := RaiseOverride(entered');
          case Gone =>
            SetStatus(row.clientOid, ExternallyCancelled);
            entered' := RaiseOverride(entered');
          case Unknown =>
            SetStatus(row.clientOid, NeedsReconcile);
        }
      }
    }

    /** Each position row of ours is classified and stored; one that is imported or strays raises the override. */
    method ClassifyPositions(snap: R.Snapshot, detect: bool, entered: bool)
      returns (entered': bool, hasPosition: bool, ok: bool, ghost rows: nat)
      modifies this`position, this`override, this`failures
      ensures rows <= |snap.positions| && failures == old(failures) + if ok then 0 else 1
      ensures R.Pass(View(), entered') == R.PositionPhase(R.Pass(old(View()), entered), snap.positions[..rows], detect)
      ensures ok ==> rows == |snap.positions| && hasPosition == R.HasPosition(snap.positions)
    {
      hide R.SystemOwned, R.ClassifyDrift;
      entered', hasPosition := entered, false;
      var isSystem := R.SystemOwned(orders);
      var i := 0;
      while i < |snap.positions|
        invariant 0 <= i <= |snap.positions| && failures == old(failures)
        invariant hasPosition == R.HasPosition(snap.positions[..i])
        invariant position == R.UpsertPositions(old(position), snap.positions[..i], isSystem)
        invariant R.Pass(View().(position := old(position)), entered')
               == var p := R.Pass(old(View()), entered);
                  if detect && R.AnyTouched(snap.positions[..i], orders) then R.Enter(p) else p
      {
        var fails := Fails();
        if fails {
          return entered', hasPosition, false, i;
        }
        var row := snap.positions[i];
        PositionsSoFar(snap.positions, i, orders);
        assert snap.positions[..i + 1][..i] == snap.positions[..i];
        if row.ours {
          if R.Abs(row.size) > DUST_BASE {
            hasPosition := true;
          }
          position := Some(R.LocalPosition(row.side, row.size, isSystem));
          if detect && !isSystem {
            entered' := RaiseOverride(entered');
          }
          if detect && isSystem && R.ClassifyDrift(NetBase(orders), row).Some? {
            entered' := RaiseOverride(entered');
          }
        }
        i := i + 1;
      }
      assert snap.positions[..i] == snap.positions;
      return entered', hasPosition, true, i;
    }

    method SyncMissingPosition(snap: R.Snapshot, detect: bool, entered: bool) returns (entered': bool)
      requires !R.HasPosition(snap.positions)
      modifies this`orders, this`position, this`override
      ensures R.Pass(View(), entered') == R.ClosedPhase(R.Pass(old(View()), entered), snap.positions, detect)
    {
      hide R.HasPosition, NetBase;
      entered' := entered;
      var net := NetBase(orders);
      position := None;
      if detect && R.Abs(net) > DUST_BASE {
        orders := R.CloseRows(orders);
        entered' := RaiseOverride(entered');
      }
    }

    /**
      A completed pass leaves the tables exactly as the pass function does. A request
      or statement that fails, or a listed order whose keys clash with two rows,
      abandons it, and nothing else does; then it stopped in one of its stages.
    */
    method ReconcileOnce(snap: R.Snapshot, detect: bool) returns (completed: bool)
      requires UniqueKeys(orders)
      modifies this
      ensures completed ==> View() == R.ReconcileOnce(old(View()), snap, detect)
      ensures !completed ==> exists stage, n: nat :: R.AbandonedAt(old(View()), View(), snap, detect, stage, n)
      ensures !completed ==> failures > old(failures) || Clashes(old(orders), snap)
    {
      hide R.ImportPending, R.RepairPhase, R.ConfirmPhase, R.ConfirmSome, R.PositionPhase, R.ClosedPhase, UniqueKeys;
      var entered, hasPosition := false, false;
      ghost var rows: nat;
      entered, completed := ImportPendingOrders(snap, detect, entered);
      if !completed {
        return;
      }
      entered, completed, rows := RepairMissingFills(snap, detect, entered);
      if !completed {
        assert R.AbandonedAt(old(View()), View(), snap, detect, R.Repairing, rows);
        return;
      }
      entered, completed, rows := ConfirmMissingOrders(snap, detect, entered);
      if !completed {
        assert R.AbandonedAt(old(View()), View(), snap, detect, R.Confirming, rows);
        return;
      }
      entered, hasPosition, completed, rows := ClassifyPositions(snap, detect, entered);
      if !completed {
        assert R.AbandonedAt(old(View()), View(), snap, detect, R.Classifying, rows);
        return;
      }
      assert snap.positions[..|snap.positions|] == snap.positions;
      if hasPosition {
        HeldPositionStays(R.Pass(View(), entered), snap.positions, detect);
      } else {
        entered := SyncMissingPosition(snap, detect, entered);
      }
      if override.Active? && !entered {
        var fails := Fails();
        if fails {
          completed := false;
          assert R.AbandonedAt(old(View()), View(), snap, detect, R.Closing, 0);
          return;
        }
        if R.TotalSize(snap.positions) == 0.0 && R.OpenCount(snap.pending) == 0 {
          override := R.Cleared;
        }
      }
    }
  }

  /** Some listed order cannot be imported: its order id is another row's. */
  ghost predicate Clashes(orders: seq<OrderRow>, snap: R.Snapshot) {
    exists i | 0 <= i < |snap.pending| ::
      && R.Foreign(snap.pending[i], orders)
      && !UniqueKeys(R.UpsertPending(Imported(orders, snap.pending[..i]), snap.pending[i]))
  }

  function Imported(orders: seq<OrderRow>, pending: seq<R.PendingRow>): seq<OrderRow> {
    R.ImportPending(R.Pass(R.Tables(Books(orders, []), None, R.Absent), false), pending, orders, false).t.books.orders
  }

  /** What is imported depends on neither the rest of the tables nor on detecting. */
  lemma {:induction false} OrdersAsImported(p: R.Pass, pending: seq<R.PendingRow>, local: seq<OrderRow>, detect: bool)
    requires p.t.books.orders == local
    ensures R.ImportPending(p, pending, local, detect).t.books.orders == Imported(local, pending)
  {
    if pending != [] {
      OrdersAsImported(p, pending[..|pending| - 1], local, detect);
    }
  }

  lemma NoneImportedYet(p: R.Pass, pending: seq<R.PendingRow>, local: seq<OrderRow>, detect: bool)
    ensures R.ImportPending(p, pending[..0], local, detect) == p
  {
  }

  lemma OneMoreImported(p: R.Pass, pending: seq<R.PendingRow>, i: nat, local: seq<OrderRow>, detect: bool)
    requires i < |pending|
    ensures R.ImportPending(p, pending[..i + 1], local, detect)
            == R.ImportOne(R.ImportPending(p, pending[..i], local, detect), pending[i], local, detect)
  {
    assert pending[..i + 1][..i] == pending[..i];
  }

  lemma ClashesHere(p: R.Pass, snap: R.Snapshot, detect: bool, i: nat)
    requires i < |snap.pending| && R.Foreign(snap.pending[i], p.t.books.orders)
    requires var q := R.ImportPending(p, snap.pending[..i], p.t.books.orders, detect);
             !UniqueKeys(R.UpsertPending(q.t.books.orders, snap.pending[i]))
    ensures Clashes(p.t.books.orders, snap)
  {
    hide UniqueKeys, R.UpsertPending, R.ImportPending, Imported;
    OrdersAsImported(p, snap.pending[..i], p.t.books.orders, detect);
  }

  lemma StoppedImporting(t: R.Tables, t': R.Tables, snap: R.Snapshot, detect: bool, i: nat)
    requires i <= |snap.pending|
    requires var p := R.ImportPending(R.Pass(t, false), snap.pending[..i], t.books.orders, detect);
             t' == p.t || (detect && t' == R.Enter(p).t)
    ensures R.AbandonedAt(t, t', snap, detect, R.Importing, i)
  {
  }

  function WithStatus(orders: seq<OrderRow>, clientOid: string, status: Status): (r: seq<OrderRow>)
    ensures |r| == |orders|
  {
    seq(|orders|, i requires 0 <= i < |orders| =>
      if orders[i].clientOid == clientOid then orders[i].(status := status) else orders[i])
  }

  lemma HeldPositionStays(p: R.Pass, positions: seq<R.PositionRow>, detect: bool)
    requires R.HasPosition(positions)
    ensures R.ClosedPhase(p, positions, detect) == p
  {
  }

  lemma UnmatchedSoFar(page: seq<FillEntry>, orders: seq<OrderRow>)
    requires page != []
    ensures R.AnyUnmatched(page, orders)
            <==> R.AnyUnmatched(page[..|page| - 1], orders) || R.Unmatched(page[|page| - 1], orders)
  {
    if R.AnyUnmatched(page[..|page| - 1], orders) {
      var i :| 0 <= i < |page| - 1 && R.Unmatched(page[..|page| - 1][i], orders);
      assert R.Unmatched(page[i], orders);
    }
    if R.AnyUnmatched(page, orders) {
      var i :| 0 <= i < |page| && R.Unmatched(page[i], orders);
      assert i < |page| - 1 ==> page[..|page| - 1][i] == page[i];
    }
  }

  lemma NoneUnmatchedYet(orders: seq<OrderRow>)
    ensures forall page: seq<FillEntry> :: !R.AnyUnmatched(page[..0], orders)
  {
  }

  lemma RepairableIsMatched(entry: FillEntry, before: seq<OrderRow>, orders: seq<OrderRow>, known: seq<FillRow>)
    requires SameOrders(before, orders)
    ensures Repairable(entry, orders, known) ==> !R.Unmatched(entry, before)
  {
    SameOrdersKeepKeys(before, orders);
  }

  lemma CancelledSoFar(orders: seq<OrderRow>, j: nat, snap: R.Snapshot)
    requires j < |orders|
    ensures R.AnyCancelledOutside(orders[..j + 1], snap)
            <==> R.AnyCancelledOutside(orders[..j], snap) || R.CancelledOutside(orders[j], snap)
  {
    hide R.CancelledOutside;
    if R.AnyCancelledOutside(orders[..j], snap) {
      var i :| 0 <= i < j && R.CancelledOutside(orders[..j][i], snap);
      assert R.CancelledOutside(orders[..j + 1][i], snap);
    }
    if R.CancelledOutside(orders[j], snap) {
      assert R.CancelledOutside(orders[..j + 1][j], snap);
    }
    if R.AnyCancelledOutside(orders[..j + 1], snap) {
      var i :| 0 <= i < j + 1 && R.CancelledOutside(orders[..j + 1][i], snap);
      assert i < j ==> orders[..j][i] == orders[..j + 1][i];
    }
  }

  lemma PositionsSoFar(positions: seq<R.PositionRow>, j: nat, orders: seq<OrderRow>)
    requires j < |positions|
    ensures R.AnyTouched(positions[..j + 1], orders)
            <==> R.AnyTouched(positions[..j], orders) || R.Touched(positions[j], orders)
    ensures R.HasPosition(positions[..j + 1])
            <==> R.HasPosition(positions[..j]) || (positions[j].ours && R.Abs(positions[j].size) > DUST_BASE)
  {
    hide R.Touched;
    var now, next := positions[..j], positions[..j + 1];
    assert next[j] == positions[j] && forall i :: 0 <= i < j ==> now[i] == next[i];
  }

  lemma ConfirmKeepsIdentity(row: OrderRow, snap: R.Snapshot)
    ensures var row' := R.ConfirmRow(row, snap);
            row' == row.(filled := row'.filled, status := row'.status)
  {
  }

  /** With unique keys, the updates for one order change its row and no other. */
  lemma KeyedUpdatesTouchOneRow(orders: seq<OrderRow>, j: nat)
    requires UniqueKeys(orders) && j < |orders|
    ensures forall f :: DetailOrders(orders, orders[j].orderId, f) == orders[j := DetailRow(orders[j], f)]
    ensures forall f, s :: WithStatus(DetailOrders(orders, orders[j].orderId, f), orders[j].clientOid, s)
                        == orders[j := DetailRow(orders[j], f).(status := s)]
    ensures forall s :: WithStatus(orders, orders[j].clientOid, s) == orders[j := orders[j].(status := s)]
  {
  }
}
