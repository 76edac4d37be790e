/** The rows of the shared database the executor writes while it drives an intent. */
module Store {
  datatype IntentStatus = Pending | Accepted | Executed | Failed(reason: string)

  datatype RowStatus = Submitting | Submitted | RowFilled | RowCancelled | RowRejected | NeedsReconcile

  datatype OrderRow = OrderRow(status: RowStatus, size: real, filledSize: real)

  predicate Unresolved(intents: map<string, IntentStatus>, id: string) {
    id in intents && (intents[id].Pending? || intents[id].Accepted?)
  }

  /** Only this row may have changed, and none came or went. */
  predicate SetOnly(id: string, before: map<string, IntentStatus>, after: map<string, IntentStatus>) {
    after.Keys == before.Keys && forall j :: j in before && j != id ==> after[j] == before[j]
  }

  class Database {
    var intents: map<string, IntentStatus>
    var orders: map<string, OrderRow>
    var operatorStop: bool
    var manualOverride: bool

    /** A new intent starts pending; an id already known is refused. */
    method InsertIntent(id: string)
      modifies this`intents
      ensures intents == if id in old(intents) then old(intents) else old(intents)[id := Pending]
    {
      if id !in intents {
        intents := intents[id := Pending];
      }
    }

    method AcceptIntent(id: string) returns (ok: bool)
      modifies this`intents
      ensures ok == Unresolved(old(intents), id)
      ensures intents == if ok then old(intents)[id := Accepted] else old(intents)
    {
      ok := Unresolved(intents, id);
      if ok {
        intents := intents[id := Accepted];
      }
    }

    method SetIntentStatus(id: string, status: IntentStatus)
      modifies this`intents
      ensures intents == if id in old(intents) then old(intents)[id := status] else old(intents)
    {
      if id in intents {
        intents := intents[id := status];
      }
    }

    method UpsertOrder(oid: string, row: OrderRow)
      modifies this`orders
      ensures orders == old(orders)[oid := row]
    {
      orders := orders[oid := row];
    }

    method SetOrderStatus(oid: string, status: RowStatus)
      modifies this`orders
      ensures orders == if oid in old(orders)
                        then old(orders)[oid := old(orders)[oid].(status := status)] else old(orders)
    {
      if oid in orders {
        orders := orders[oid := orders[oid].(status := status)];
      }
    }

    method SetOrderFilledSize(oid: string, filledSize: real)
      modifies this`orders
      ensures orders == if oid in old(orders)
                        then old(orders)[oid := old(orders)[oid].(filledSize := filledSize)] else old(orders)
    {
      if oid in orders {
        orders := orders[oid := orders[oid].(filledSize := filledSize)];
      }
    }
  }
}
