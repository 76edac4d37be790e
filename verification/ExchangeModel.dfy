/**
  The exchange as an adversary. Nothing it does is scripted: live orders fill in
  any portions, vanish at any time, cancels may lose the race, placements may be
  refused, reads may fail, and an accepted placement may be reported as failed.
  What it does keep: an order's fill never shrinks, never exceeds its size and is
  frozen once the order is terminal, and a client order id is accepted only once.
  The log lists every request with its answer, and where the process itself broke down.
*/
module ExchangeModel {
  import opened Common
  import opened Risk
  import opened Sizing

  datatype Phase = Live | Filled | Vanished

  datatype Order = Order(size: real, filled: real, phase: Phase)

  type Book = map<string, Order>

  datatype Poll = Unreadable | Read(phase: Phase, filled: real)

  datatype Fault = Infra | Crash

  datatype Call = SentOrder(oid: string, size: real, ok: bool)
                | SentCancel(oid: string)
                | SawOrder(oid: string, answer: Poll)
                | SawMarket(market: Option<Market>)
                | SawAccount(account: Option<Account>)
                | Broke(fault: Fault)

  /** The order can still trade. A full fill ends that even before the status says so. */
  predicate Working(o: Order) {
    o.phase.Live? && o.filled < o.size
  }

  predicate Evolves(o: Order, o': Order) {
    && o'.size == o.size
    && o.filled <= o'.filled
    && (o.filled <= o.size ==> o'.filled <= o'.size)
    && (!o.phase.Live? ==> o' == o)
  }

  /** Time passes on the exchange: every known order evolves, no other appears. */
  predicate Drifts(book: Book, book': Book) {
    book'.Keys == book.Keys && forall k | k in book :: Evolves(book[k], book'[k])
  }

  /** Time passes and at most the order `oid`, unknown before, has been taken on. */
  predicate Placed(book: Book, book': Book, oid: string, size: real) {
    && (forall k | k in book :: k in book' && Evolves(book[k], book'[k]))
    && (forall k | k in book' && k !in book ::
          k == oid && book'[k].size == size && 0.0 <= book'[k].filled <= size)
  }

  lemma DriftsTransitive(a: Book, b: Book, c: Book)
    requires Drifts(a, b) && Drifts(b, c)
    ensures Drifts(a, c)
  {
  }

  class Exchange {
    var book: Book
    ghost var log: seq<Call>

    method Drift()
      modifies this`book
      ensures Drifts(old(book), book)
    {
      assert Drifts(book, book);
      var later :| Drifts(book, later);
      book := later;
    }

    /**
      `ok` is the acknowledgement. A repeated id is never acknowledged; a new one
      may be refused, or taken on with its acknowledgement lost.
    */
    method PlaceOrder(oid: string, size: real) returns (ok: bool)
      modifies this
      ensures Placed(old(book), book, oid, size)
      ensures ok ==> oid !in old(book) && oid in book
      ensures log == old(log) + [SentOrder(oid, size, ok)]
    {
      Drift();
      ok := false;
      var takes: bool := *;
      if takes && oid !in book && 0.0 <= size {
        book := book[oid := Order(size, 0.0, Live)];
        ok := *;
      }
      Drift();
      log := log + [SentOrder(oid, size, ok)];
    }

    /** The answer to a cancel tells nothing sure about the order, so none is returned. */
    method CancelOrder(oid: string)
      modifies this
      ensures Drifts(old(book), book)
      ensures log == old(log) + [SentCancel(oid)]
    {
      log := log + [SentCancel(oid)];
      Drift();
      var lands: bool := *;
      if lands && oid in book && book[oid].phase.Live? {
        book := book[oid := book[oid].(phase := Vanished)];
      }
    }

    /** A read is truthful about the moment it is made; it may also fail. */
    method GetOrderDetail(oid: string) returns (poll: Poll)
      modifies this
      ensures Drifts(old(book), book)
      ensures poll.Read? ==> oid in book && poll == Read(book[oid].phase, book[oid].filled)
      ensures log == old(log) + [SawOrder(oid, poll)]
    {
      Drift();
      poll := Unreadable;
      var answers: bool := *;
      if answers && oid in book {
        poll := Read(book[oid].phase, book[oid].filled);
      }
      log := log + [SawOrder(oid, poll)];
    }

    method FetchMarket() returns (market: Option<Market>)
      modifies this`log
      ensures log == old(log) + [SawMarket(market)]
    {
      market := *;
      log := log + [SawMarket(market)];
    }

    method FetchAccount() returns (account: Option<Account>)
      modifies this`log
      ensures log == old(log) + [SawAccount(account)]
    {
      account := *;
      log := log + [SawAccount(account)];
    }

    method RequestFails() returns (fails: bool)
      modifies this`log
      ensures log == if fails then old(log) + [Broke(Infra)] else old(log)
    {
      fails := *;
      if fails {
        log := log + [Broke(Infra)];
      }
    }

    /** A write or request outside this model may fail here, or the process may end. */
    method Breakdown() returns (fault: Option<Fault>)
      modifies this`log
      ensures log == if fault.Some? then old(log) + [Broke(fault.value)] else old(log)
    {
      fault := *;
      if fault.Some? {
        log := log + [Broke(fault.value)];
      }
    }
  }
}
