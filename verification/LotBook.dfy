/**
  Lots and the event stream that opens and closes them. `Replay` reads a stream
  without knowing how it was produced; the score book and the simulator are both
  held against it.
*/
module LotBook {
  import opened Common

  datatype Lot = Lot(id: nat, side: Side, notional: real)

  datatype Event = Event(bar: nat, isOpen: bool, side: Side, score: real, notional: real, lotId: nat)

  function LotOf(e: Event): Lot {
    Lot(e.lotId, e.side, e.notional)
  }

  predicate HasLot(lots: seq<Lot>, id: nat) {
    exists i :: 0 <= i < |lots| && lots[i].id == id
  }

  predicate UniqueIds(lots: seq<Lot>) {
    forall i, j :: 0 <= i < j < |lots| ==> lots[i].id != lots[j].id
  }

  /** Drop the first lot with this id, if any. */
  function Remove(lots: seq<Lot>, id: nat): seq<Lot> {
    if lots == [] then []
    else if lots[0].id == id then lots[1..]
    else [lots[0]] + Remove(lots[1..], id)
  }

  function Gross(lots: seq<Lot>): real {
    if lots == [] then 0.0 else lots[0].notional + Gross(lots[1..])
  }

  predicate NonNegative(lots: seq<Lot>) {
    forall i :: 0 <= i < |lots| ==> lots[i].notional >= 0.0
  }

  function ReplayOne(lots: seq<Lot>, e: Event): seq<Lot> {
    if e.isOpen then lots + [LotOf(e)] else Remove(lots, e.lotId)
  }

  /** The lots a stream of events leaves open. */
  function Replay(events: seq<Event>): seq<Lot> {
    if events == [] then [] else ReplayOne(Replay(events[..|events| - 1]), events[|events| - 1])
  }

  predicate OpenedBefore(events: seq<Event>, id: nat) {
    exists i :: 0 <= i < |events| && events[i].isOpen && events[i].lotId == id
  }

  /** An open brings a new id; a close names a lot that is open, with its own side and size. */
  predicate Fits(events: seq<Event>, e: Event) {
    if e.isOpen then !OpenedBefore(events, e.lotId) else LotOf(e) in Replay(events)
  }

  predicate WellBracketed(events: seq<Event>) {
    events != [] ==>
      WellBracketed(events[..|events| - 1]) && Fits(events[..|events| - 1], events[|events| - 1])
  }

  // ----- removing

  lemma {:induction false} RemoveGross(lots: seq<Lot>, id: nat)
    ensures NonNegative(lots) ==> Gross(Remove(lots, id)) <= Gross(lots)
    ensures forall lot :: lot in Remove(lots, id) ==> lot in lots
  {
    if lots != [] && lots[0].id != id {
      RemoveGross(lots[1..], id);
      assert lots[1..] + [] == lots[1..];
    }
  }

  lemma UniqueSplit(lots: seq<Lot>)
    requires UniqueIds(lots) && lots != []
    ensures UniqueIds(lots[1..])
    ensures forall other :: other in lots[1..] ==> other.id != lots[0].id
    ensures forall other :: other in lots <==> other == lots[0] || other in lots[1..]
  {
    assert lots == [lots[0]] + lots[1..];
  }

  lemma UniqueJoined(head: Lot, rest: seq<Lot>)
    requires UniqueIds(rest) && forall other :: other in rest ==> other.id != head.id
    ensures UniqueIds([head] + rest)
    ensures forall other :: other in [head] + rest <==> other == head || other in rest
  {
  }

  /** The named lot leaves, with exactly its own size; the others stay. */
  lemma {:induction false} RemoveExact(lots: seq<Lot>, lot: Lot)
    requires UniqueIds(lots) && lot in lots
    ensures Gross(Remove(lots, lot.id)) == Gross(lots) - lot.notional
    ensures UniqueIds(Remove(lots, lot.id))
    ensures forall other :: other in Remove(lots, lot.id) <==> other in lots && other.id != lot.id
    ensures |Remove(lots, lot.id)| == |lots| - 1
  {
    hide UniqueIds;
    UniqueSplit(lots);
    if lots[0].id != lot.id {
      RemoveExact(lots[1..], lot);
      var rest := Remove(lots[1..], lot.id);
      UniqueJoined(lots[0], rest);
      assert ([lots[0]] + rest)[1..] == rest;
    }
  }

  lemma {:induction false} GrossAppend(lots: seq<Lot>, lot: Lot)
    ensures Gross(lots + [lot]) == Gross(lots) + lot.notional
  {
    if lots != [] {
      GrossAppend(lots[1..], lot);
      assert (lots + [lot])[1..] == lots[1..] + [lot];
    }
  }

  lemma {:induction false} GrossNonNegative(lots: seq<Lot>)
    requires NonNegative(lots)
    ensures Gross(lots) >= 0.0
  {
    if lots != [] {
      GrossNonNegative(lots[1..]);
    }
  }

  // ----- one book inside another

  /** `part` is `whole` with some lots left out, order kept. */
  predicate Within(part: seq<Lot>, whole: seq<Lot>) {
    if part == [] then true
    else if whole == [] then false
    else (part[0] == whole[0] && Within(part[1..], whole[1..])) || Within(part, whole[1..])
  }

  lemma {:induction false} WithinSelf(lots: seq<Lot>)
    ensures Within(lots, lots)
  {
    if lots != [] {
      WithinSelf(lots[1..]);
    }
  }

  lemma {:induction false} WithinMembers(part: seq<Lot>, whole: seq<Lot>)
    requires Within(part, whole)
    ensures forall lot :: lot in part ==> lot in whole
  {
    if part != [] {
      assert forall lot :: lot in whole <==> lot == whole[0] || lot in whole[1..];
      assert forall lot :: lot in part <==> lot == part[0] || lot in part[1..];
      if part[0] == whole[0] && Within(part[1..], whole[1..]) {
        WithinMembers(part[1..], whole[1..]);
      } else {
        WithinMembers(part, whole[1..]);
      }
    }
  }

  lemma {:induction false} WithinGross(part: seq<Lot>, whole: seq<Lot>)
    requires Within(part, whole) && NonNegative(whole)
    ensures Gross(part) <= Gross(whole)
  {
    GrossNonNegative(whole);
    if part != [] {
      if part[0] == whole[0] && Within(part[1..], whole[1..]) {
        WithinGross(part[1..], whole[1..]);
      } else {
        WithinGross(part, whole[1..]);
      }
    }
  }

  lemma {:induction false} WithinAppend(part: seq<Lot>, whole: seq<Lot>, lot: Lot)
    requires Within(part, whole)
    ensures Within(part + [lot], whole + [lot])
    ensures Within(part, whole + [lot])
  {
    if whole == [] {
      assert part == [];
    } else {
      assert (whole + [lot])[1..] == whole[1..] + [lot];
      if part == [] {
        WithinAppend(part, whole[1..], lot);
      } else {
        assert (part + [lot])[1..] == part[1..] + [lot];
        if part[0] == whole[0] && Within(part[1..], whole[1..]) {
          WithinAppend(part[1..], whole[1..], lot);
        } else {
          WithinAppend(part, whole[1..], lot);
        }
      }
    }
  }

  lemma AbsentFromRest(lots: seq<Lot>, id: nat)
    requires lots != [] && !HasLot(lots, id)
    ensures lots[0].id != id && !HasLot(lots[1..], id)
  {
    var rest := lots[1..];
    forall i | 0 <= i < |rest| ensures rest[i].id != id {
      assert lots[i + 1].id != id;
    }
  }

  lemma {:induction false} RemoveAbsent(lots: seq<Lot>, id: nat)
    requires !HasLot(lots, id)
    ensures Remove(lots, id) == lots
  {
    hide HasLot;
    if lots != [] {
      AbsentFromRest(lots, id);
      RemoveAbsent(lots[1..], id);
    }
  }

  /** Closing the same lot in both keeps the one inside the other. */
  lemma {:induction false} WithinRemove(part: seq<Lot>, whole: seq<Lot>, id: nat)
    requires Within(part, whole) && UniqueIds(whole)
    ensures Within(Remove(part, id), Remove(whole, id))
  {
    if part != [] {
      if part[0] == whole[0] && Within(part[1..], whole[1..]) {
        if part[0].id != id {
          WithinRemove(part[1..], whole[1..], id);
        }
      } else if whole[0].id == id {
        WithinMembers(part, whole[1..]);
        forall i | 0 <= i < |part| ensures part[i].id != id {
          assert part[i] in whole[1..];
        }
        RemoveAbsent(part, id);
      } else {
        WithinRemove(part, whole[1..], id);
        assert Remove(whole, id)[1..] == Remove(whole[1..], id);
      }
    }
  }
}
