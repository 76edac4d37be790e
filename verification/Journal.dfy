/**
  What the accepted orders of one intent look like on the exchange: a history
  value, independent of the executor's own variables, together with the facts
  that survive any further drift of the exchange.
*/
module Journal {
  import opened ClientOid
  import opened Common
  import opened Sizing
  import opened ExchangeModel

  /**
    An accepted order: what was asked, at which reference price, the exchange as
    it stood before, and the base the executor then believed was filled.
  */
  datatype Attempt = Attempt(size: real, refPrice: real, before: Book, believed: real)

  /** The id of the i-th order: `makers` maker attempts first, then the taker. */
  function OidAt(id: string, makers: nat, i: nat): string {
    if i < makers then StableClientOid(id, Maker, i + 1) else StableClientOid(id, Taker, 1)
  }

  function FilledOf(book: Book, oid: string): real {
    if oid in book then book[oid].filled else 0.0
  }

  function Legs(id: string, makers: nat, attempts: seq<Attempt>, book: Book): (legs: seq<Leg>)
    ensures |legs| == |attempts|
  {
    seq(|attempts|, i requires 0 <= i < |attempts| =>
      Leg(attempts[i].size, attempts[i].refPrice, FilledOf(book, OidAt(id, makers, i))))
  }

  /** The intent's orders on the exchange are exactly the attempts. */
  ghost predicate Known(id: string, makers: nat, attempts: seq<Attempt>, book: Book) {
    && |attempts| <= makers + 1
    && (forall i :: 0 <= i < |attempts| ==>
          var oid := OidAt(id, makers, i);
          oid in book && book[oid].size == attempts[i].size && 0.0 <= book[oid].filled <= book[oid].size)
    && (forall k :: k in book && OfIntent(id, k) ==>
          exists i :: 0 <= i < |attempts| && k == OidAt(id, makers, i))
  }

  /** None of the first `n` orders can trade any more. */
  ghost predicate Retired(id: string, makers: nat, n: int, book: Book) {
    forall i :: 0 <= i < n ==> OidAt(id, makers, i) in book && !Working(book[OidAt(id, makers, i)])
  }

  ghost predicate NoneWorking(id: string, book: Book) {
    forall k :: k in book && OfIntent(id, k) ==> !Working(book[k])
  }

  /**
    The i-th order was placed safely: nothing of the intent was still working, and
    what the executor believed filled is what the earlier orders had filled.
  */
  ghost predicate SafelyPlaced(id: string, makers: nat, attempts: seq<Attempt>, i: nat)
    requires i < |attempts|
  {
    && NoneWorking(id, attempts[i].before)
    && attempts[i].believed == Base(Legs(id, makers, attempts[..i], attempts[i].before))
  }

  ghost predicate Consistent(id: string, makers: nat, plan: Plan, attempts: seq<Attempt>, book: Book) {
    && Known(id, makers, attempts, book)
    && Retired(id, makers, |attempts| - 1, book)
    && Sized(plan, Legs(id, makers, attempts, book))
    && forall i :: 0 <= i < |attempts| ==> SafelyPlaced(id, makers, attempts, i)
  }

  /** Orders known before have evolved; no order of this intent has appeared. */
  ghost predicate Quiet(id: string, book: Book, book': Book) {
    && (forall k :: k in book ==> k in book' && Evolves(book[k], book'[k]))
    && (forall k :: k in book' && k !in book ==> !OfIntent(id, k))
  }

  lemma OidOfIntent(id: string, makers: nat, i: nat)
    ensures OfIntent(id, OidAt(id, makers, i))
  {
  }

  lemma OidsDiffer(id: string, makers: nat, i: nat, j: nat)
    requires i < j <= makers
    ensures OidAt(id, makers, i) != OidAt(id, makers, j)
  {
    if OidAt(id, makers, i) == OidAt(id, makers, j) {
      if j < makers {
        StableClientOidInjective(id, Maker, i + 1, id, Maker, j + 1);
      } else {
        StableClientOidInjective(id, Maker, i + 1, id, Taker, 1);
      }
    }
  }

  lemma RetiredMeansNoneWorking(id: string, makers: nat, attempts: seq<Attempt>, book: Book)
    requires Known(id, makers, attempts, book) && Retired(id, makers, |attempts|, book)
    ensures NoneWorking(id, book)
  {
  }

  /** Orders that can no longer trade keep their fill. */
  lemma RetiredFillsFreeze(id: string, makers: nat, attempts: seq<Attempt>, book: Book, book': Book, n: nat)
    requires n <= |attempts|
    requires Known(id, makers, attempts, book) && Retired(id, makers, n, book) && Quiet(id, book, book')
    ensures Retired(id, makers, n, book')
    ensures Legs(id, makers, attempts, book')[..n] == Legs(id, makers, attempts, book)[..n]
  {
    forall i | 0 <= i < n
      ensures OidAt(id, makers, i) in book' && !Working(book'[OidAt(id, makers, i)])
      ensures FilledOf(book', OidAt(id, makers, i)) == FilledOf(book, OidAt(id, makers, i))
    {
      assert Evolves(book[OidAt(id, makers, i)], book'[OidAt(id, makers, i)]);
    }
  }

  lemma KnownPersists(id: string, makers: nat, attempts: seq<Attempt>, book: Book, book': Book)
    requires Known(id, makers, attempts, book) && Quiet(id, book, book')
    ensures Known(id, makers, attempts, book')
  {
    forall i | 0 <= i < |attempts|
      ensures var oid := OidAt(id, makers, i);
              oid in book' && book'[oid].size == attempts[i].size && 0.0 <= book'[oid].filled <= book'[oid].size
    {
      assert Evolves(book[OidAt(id, makers, i)], book'[OidAt(id, makers, i)]);
    }
  }

  /** Whatever the exchange does next, the history stays as it is described. */
  lemma ConsistentPersists(id: string, makers: nat, plan: Plan, attempts: seq<Attempt>, book: Book, book': Book)
    requires Consistent(id, makers, plan, attempts, book) && Quiet(id, book, book')
    ensures Consistent(id, makers, plan, attempts, book')
    ensures attempts != [] ==>
              Legs(id, makers, attempts, book')[..|attempts| - 1] == Legs(id, makers, attempts, book)[..|attempts| - 1]
    ensures Retired(id, makers, |attempts|, book) ==>
              && Retired(id, makers, |attempts|, book')
              && Legs(id, makers, attempts, book') == Legs(id, makers, attempts, book)
  {
    hide Known, Retired, Sized, SafelyPlaced, Quiet, OidAt;
    KnownPersists(id, makers, attempts, book, book');
    if attempts != [] {
      RetiredFillsFreeze(id, makers, attempts, book, book', |attempts| - 1);
      LastLegGrows(id, makers, attempts, book, book');
      SizedStill(plan, Legs(id, makers, attempts, book), Legs(id, makers, attempts, book'));
    } else {
      NothingPlaced(id, makers, plan, book');
    }
    if Retired(id, makers, |attempts|, book) {
      RetiredFillsFreeze(id, makers, attempts, book, book', |attempts|);
      var legs, legs' := Legs(id, makers, attempts, book), Legs(id, makers, attempts, book');
      assert legs'[..|attempts|] == legs' && legs[..|attempts|] == legs;
    }
  }

  lemma NothingPlaced(id: string, makers: nat, plan: Plan, book: Book)
    ensures Retired(id, makers, -1, book) && Sized(plan, Legs(id, makers, [], book))
  {
  }

  lemma LastLegGrows(id: string, makers: nat, attempts: seq<Attempt>, book: Book, book': Book)
    requires Known(id, makers, attempts, book) && Quiet(id, book, book') && attempts != []
    ensures var last := |attempts| - 1;
            var leg, leg' := Legs(id, makers, attempts, book)[last], Legs(id, makers, attempts, book')[last];
            leg' == leg.(filled := leg'.filled) && 0.0 <= leg.filled <= leg'.filled <= leg.size
  {
    hide OidAt, OfIntent;
    var oid := OidAt(id, makers, |attempts| - 1);
    assert oid in book && Evolves(book[oid], book'[oid]);
  }

  lemma SizedStill(plan: Plan, legs: seq<Leg>, legs': seq<Leg>)
    requires Sized(plan, legs) && legs != [] && |legs'| == |legs| && legs'[..|legs| - 1] == legs[..|legs| - 1]
    requires var leg, leg' := legs[|legs| - 1], legs'[|legs| - 1];
             leg' == leg.(filled := leg'.filled) && 0.0 <= leg'.filled <= leg.size
    ensures Sized(plan, legs')
  {
    hide PlacedSize, RemainingIsDust;
  }

  /** A new order, sized from what the earlier ones filled, extends the history. */
  lemma ConsistentExtends(id: string, makers: nat, plan: Plan, attempts: seq<Attempt>, next: Attempt,
                          book: Book, book': Book)
    requires Consistent(id, makers, plan, attempts, book) && Retired(id, makers, |attempts|, book)
    requires |attempts| <= makers
    requires var oid := OidAt(id, makers, |attempts|);
             oid !in book && oid in book' && Placed(book, book', oid, next.size)
    requires next.before == book && next.believed == Base(Legs(id, makers, attempts, book))
    requires Priced(plan, next.refPrice) && !RemainingIsDust(plan.target, next.believed)
    requires next.size == PlacedSize(plan, next.believed, next.refPrice)
    ensures Consistent(id, makers, plan, attempts + [next], book')
    ensures Legs(id, makers, attempts + [next], book')[..|attempts|] == Legs(id, makers, attempts, book)
  {
    hide PlacedSize, OidAt, Placed;
    var all, n := attempts + [next], |attempts|;
    KnownExtends(id, makers, attempts, next, book, book');
    OldLegsStay(id, makers, attempts, next, book, book');
    RetiredMeansNoneWorking(id, makers, attempts, book);
    var legs := Legs(id, makers, all, book');
    assert legs[|legs| - 1] == Leg(next.size, next.refPrice, FilledOf(book', OidAt(id, makers, n)));
    SafeExtends(id, makers, attempts, next, book);
  }

  lemma KnownExtends(id: string, makers: nat, attempts: seq<Attempt>, next: Attempt, book: Book, book': Book)
    requires Known(id, makers, attempts, book) && |attempts| <= makers
    requires var oid := OidAt(id, makers, |attempts|);
             oid !in book && oid in book' && Placed(book, book', oid, next.size)
    ensures Known(id, makers, attempts + [next], book')
  {
    hide OidAt, OfIntent;
    var all, n := attempts + [next], |attempts|;
    forall i | 0 <= i < |all|
      ensures var oid := OidAt(id, makers, i);
              oid in book' && book'[oid].size == all[i].size && 0.0 <= book'[oid].filled <= book'[oid].size
    {
      if i < n {
        assert Evolves(book[OidAt(id, makers, i)], book'[OidAt(id, makers, i)]);
      }
    }
    forall k | k in book' && OfIntent(id, k)
      ensures exists i :: 0 <= i < |all| && k == OidAt(id, makers, i)
    {
      if k in book {
        var i :| 0 <= i < n && k == OidAt(id, makers, i);
      } else {
        assert k == OidAt(id, makers, n);
      }
    }
  }

  lemma OldLegsStay(id: string, makers: nat, attempts: seq<Attempt>, next: Attempt, book: Book, book': Book)
    requires Known(id, makers, attempts, book) && Retired(id, makers, |attempts|, book)
    requires Placed(book, book', OidAt(id, makers, |attempts|), next.size)
    ensures Retired(id, makers, |attempts|, book')
    ensures Legs(id, makers, attempts + [next], book')[..|attempts|] == Legs(id, makers, attempts, book)
  {
    hide OidAt, OfIntent;
    forall i | 0 <= i < |attempts|
      ensures OidAt(id, makers, i) in book' && !Working(book'[OidAt(id, makers, i)])
      ensures FilledOf(book', OidAt(id, makers, i)) == FilledOf(book, OidAt(id, makers, i))
    {
      assert Evolves(book[OidAt(id, makers, i)], book'[OidAt(id, makers, i)]);
    }
  }

  lemma SafeExtends(id: string, makers: nat, attempts: seq<Attempt>, next: Attempt, book: Book)
    requires forall i :: 0 <= i < |attempts| ==> SafelyPlaced(id, makers, attempts, i)
    requires NoneWorking(id, book)
    requires next.before == book && next.believed == Base(Legs(id, makers, attempts, book))
    ensures forall i :: 0 <= i <= |attempts| ==> SafelyPlaced(id, makers, attempts + [next], i)
  {
    hide Legs, Base, NoneWorking;
    var all := attempts + [next];
    forall i | 0 <= i <= |attempts| ensures SafelyPlaced(id, makers, all, i) {
      if i < |attempts| {
        assert SafelyPlaced(id, makers, attempts, i);
        assert all[..i] == attempts[..i];
      } else {
        assert all[..i] == attempts;
      }
    }
  }

  /** An intent with this history has at most `makers + 1` orders on the exchange, ever. */
  lemma AtMostOneOrderPerAttempt(id: string, makers: nat, attempts: seq<Attempt>, book: Book)
    requires Known(id, makers, attempts, book)
    ensures |set k | k in book && OfIntent(id, k)| <= makers + 1
  {
    var orders := set k | k in book && OfIntent(id, k);
    var ids := seq(|attempts|, i requires 0 <= i < |attempts| => OidAt(id, makers, i));
    forall k | k in orders ensures k in ids {
      var i :| 0 <= i < |attempts| && k == OidAt(id, makers, i);
      assert ids[i] == k;
    }
    SetWithinSequence(orders, ids);
  }

  lemma {:induction false} SetWithinSequence<T>(s: set<T>, q: seq<T>)
    requires forall x :: x in s ==> x in q
    ensures |s| <= |q|
  {
    if q != [] {
      var rest := s - {q[0]};
      forall x | x in rest ensures x in q[1..] {
        var i :| 0 <= i < |q| && q[i] == x;
        assert q[1..][i - 1] == x;
      }
      SetWithinSequence(rest, q[1..]);
    } else {
      assert s == {};
    }
  }
}
