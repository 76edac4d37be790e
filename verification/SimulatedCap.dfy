/**
  Scores and prices on one bar grid: the simulator's open lots are always among
  those of the score book, so the book's cap bounds the simulated exposure too.
*/
module SimulatedCap {
  import opened Common
  import opened LotBook
  import opened Simulator
  import SimulatorRuns
  import ScoreBook

  function Project(lots: seq<SimLot>): seq<Lot> {
    if lots == [] then [] else [lots[0].entry.ticket.lot] + Project(lots[1..])
  }

  /** The signals of the first n bars, in order. */
  function Flat(signals: seq<seq<Event>>, n: nat): seq<Event>
    requires n <= |signals|
  {
    if n == 0 then [] else Flat(signals, n - 1) + signals[n - 1]
  }

  lemma {:induction false} ProjectAppend(a: seq<SimLot>, b: seq<SimLot>)
    ensures Project(a + b) == Project(a) + Project(b)
  {
    if a == [] {
      assert a + b == b;
    } else {
      assert (a + b)[1..] == a[1..] + b;
      ProjectAppend(a[1..], b);
    }
  }

  lemma {:induction false} ProjectWithout(lots: seq<SimLot>, id: nat)
    ensures Project(Without(lots, id)) == Remove(Project(lots), id)
    ensures Find(lots, id).None? ==> Without(lots, id) == lots
  {
    if lots != [] {
      ProjectWithout(lots[1..], id);
      assert ([lots[0].entry.ticket.lot] + Project(lots[1..]))[1..] == Project(lots[1..]);
      assert lots[0].entry.ticket.lot.id != id ==> ([lots[0]] + Without(lots[1..], id))[1..] == Without(lots[1..], id);
    }
  }

  lemma {:induction false} WithinTransitive(a: seq<Lot>, b: seq<Lot>, c: seq<Lot>)
    requires Within(a, b) && Within(b, c)
    ensures Within(a, c)
    decreases |b| + |c|
  {
    if a != [] {
      if b[0] == c[0] && Within(b[1..], c[1..]) {
        if a[0] == b[0] && Within(a[1..], b[1..]) {
          WithinTransitive(a[1..], b[1..], c[1..]);
        } else {
          WithinTransitive(a, b[1..], c[1..]);
        }
      } else {
        WithinTransitive(a, b, c[1..]);
      }
    }
  }

  // ----- any well-bracketed stream

  lemma {:induction false} ReplayIsUnique(events: seq<Event>)
    requires WellBracketed(events)
    ensures UniqueIds(Replay(events))
    ensures forall lot :: lot in Replay(events) ==> OpenedBefore(events, lot.id)
  {
    if events != [] {
      var before, e := events[..|events| - 1], events[|events| - 1];
      ReplayIsUnique(before);
      StillOpened(before, e);
      assert before + [e] == events;
      if e.isOpen {
        forall k | 0 <= k < |Replay(before)| ensures Replay(before)[k].id != e.lotId {
          assert Replay(before)[k] in Replay(before);
        }
        assert events[|events| - 1].isOpen && events[|events| - 1].lotId == e.lotId;
      } else {
        RemoveExact(Replay(before), LotOf(e));
      }
    }
  }

  lemma StillOpened(events: seq<Event>, e: Event)
    ensures forall id :: OpenedBefore(events, id) ==> OpenedBefore(events + [e], id)
  {
    forall id | OpenedBefore(events, id) ensures OpenedBefore(events + [e], id) {
      var k :| 0 <= k < |events| && events[k].isOpen && events[k].lotId == id;
      assert (events + [e])[k] == events[k];
    }
  }

  lemma {:induction false} PrefixBracketed(events: seq<Event>, n: nat)
    requires WellBracketed(events) && n <= |events|
    ensures WellBracketed(events[..n])
  {
    if n == |events| {
      assert events[..n] == events;
    } else {
      PrefixBracketed(events[..|events| - 1], n);
      assert events[..|events| - 1][..n] == events[..n];
    }
  }

  lemma SignalWithin(s: Inputs, w: Walk, i: nat, e: Event, seen: seq<Event>)
    requires i < |s.bars| && (e.isOpen ==> e.notional > 0.0)
    requires WellBracketed(seen) && Within(Project(w.open), Replay(seen))
    ensures Within(Project(HandleSignal(s, w, e, i).open), Replay(seen + [e]))
  {
    hide Within, Remove, Find, Without, WellBracketed, FillPrice, NetFee, CloseLot;
    assert (seen + [e])[..|seen|] == seen;
    if e.isOpen {
      var lot := OpenLot(s, e, i);
      ProjectAppend(w.open, [lot]);
      assert Project([lot]) == [LotOf(e)];
      WithinAppend(Project(w.open), Replay(seen), LotOf(e));
    } else {
      ReplayIsUnique(seen);
      ProjectWithout(w.open, e.lotId);
      WithinRemove(Project(w.open), Replay(seen), e.lotId);
    }
  }

  lemma SeenSoFar(seen: seq<Event>, today: seq<Event>, k: nat)
    requires 0 < k <= |today| && WellBracketed(seen + today)
    ensures WellBracketed(seen + today[..k - 1])
    ensures seen + today[..k - 1] + [today[k - 1]] == seen + today[..k]
  {
    hide WellBracketed;
    PrefixBracketed(seen + today, |seen| + k - 1);
    assert (seen + today)[..|seen| + k - 1] == seen + today[..k - 1];
  }

  lemma {:induction false} SignalsWithin(s: Inputs, w: Walk, i: nat, k: nat, seen: seq<Event>)
    requires i < |s.bars| && k <= |s.signals[i]|
    requires WellBracketed(seen + s.signals[i]) && Within(Project(w.open), Replay(seen))
    ensures Within(Project(HandleSignals(s, w, i, k).open), Replay(seen + s.signals[i][..k]))
  {
    hide Within, Project, Replay, HandleSignal, WellBracketed;
    if k == 0 {
      assert seen + s.signals[i][..0] == seen;
    } else {
      SignalsWithin(s, w, i, k - 1, seen);
      SeenSoFar(seen, s.signals[i], k);
      SignalWithin(s, HandleSignals(s, w, i, k - 1), i, s.signals[i][k - 1], seen + s.signals[i][..k - 1]);
    }
  }

  lemma {:induction false} SurvivorsWithin(s: Inputs, lots: seq<SimLot>, i: nat)
    requires i < |s.bars|
    ensures Within(Project(Survivors(s, lots, i)), Project(lots))
  {
    hide EvaluateExits, Within;
    if lots == [] {
      WithinSelf([]);
    } else {
      var before, last := lots[..|lots| - 1], lots[|lots| - 1];
      SurvivorsWithin(s, before, i);
      SimulatorRuns.ExitKeepsTheTicket(s, last, i);
      assert lots == before + [last];
      ProjectAppend(before, [last]);
      assert Project([last]) == [last.entry.ticket.lot];
      WithinAppend(Project(Survivors(s, before, i)), Project(before), last.entry.ticket.lot);
      match EvaluateExits(s, last, i) {
        case Stay(after) =>
          ProjectAppend(Survivors(s, before, i), [after]);
          assert Project([after]) == [last.entry.ticket.lot];
        case Exit(trade) =>
          assert Survivors(s, lots, i) == Survivors(s, before, i);
      }
    }
  }

  /**
    Whatever the prices do, the simulator never holds a lot the signal stream has
    not left open: stops, trailing exits and holding closes only take lots away.
  */
  lemma {:induction false} OpenLotsAreWithinTheStream(s: Inputs, n: nat)
    requires n <= |s.bars| && WellBracketed(Flat(s.signals, n))
    ensures Within(Project(After(s, n).open), Replay(Flat(s.signals, n)))
  {
    hide Within, HandleSignals, Survivors, Exits, WellBracketed;
    if n == 0 {
      WithinSelf([]);
    } else {
      var i := n - 1;
      var seen, today := Flat(s.signals, i), s.signals[i];
      PrefixBracketed(Flat(s.signals, n), |seen|);
      assert Flat(s.signals, n)[..|seen|] == seen;
      OpenLotsAreWithinTheStream(s, i);
      var w := After(s, i);
      SignalsWithin(s, w, i, |today|, seen);
      assert today[..|today|] == today;
      var signalled := HandleSignals(s, w, i, |today|);
      SurvivorsWithin(s, signalled.open, i);
      WithinTransitive(Project(Survivors(s, signalled.open, i)), Project(signalled.open), Replay(seen + today));
    }
  }

  // ----- the score book's stream, looked up bar by bar

  /** The rows of one bar, in order. */
  function At(rows: seq<Event>, bar: nat): seq<Event> {
    if rows == [] then []
    else At(rows[..|rows| - 1], bar) + if rows[|rows| - 1].bar == bar then [rows[|rows| - 1]] else []
  }

  function SignalsByBar(rows: seq<Event>, n: nat): seq<seq<Event>> {
    seq(n, (i: nat) => At(rows, i))
  }

  lemma {:induction false} AtSlice(rows: seq<Event>, bar: nat, from: nat, upto: nat)
    requires from <= upto <= |rows|
    requires forall j :: 0 <= j < |rows| ==> (rows[j].bar == bar <==> from <= j < upto)
    ensures At(rows, bar) == rows[from..upto]
  {
    if rows != [] {
      var last := |rows| - 1;
      if upto == |rows| && from < upto {
        AtSlice(rows[..last], bar, from, last);
        assert rows[..last][from..last] + [rows[last]] == rows[from..upto];
      } else if from == upto {
        AtSlice(rows[..last], bar, 0, 0);
        assert rows[from..upto] == [];
      } else {
        AtSlice(rows[..last], bar, from, upto);
        assert rows[..last][from..upto] == rows[from..upto];
      }
    }
  }

  predicate AppendedAt(before: seq<Event>, after: seq<Event>, bar: nat) {
    before <= after && forall j :: |before| <= j < |after| ==> after[j].bar == bar
  }

  lemma {:induction false} ClosesAppendAt(b: ScoreBook.Book, lots: seq<Lot>, bar: nat, score: real)
    ensures AppendedAt(b.rows, ScoreBook.CloseAll(b, lots, bar, score).rows, bar)
  {
    hide Remove;
    if lots != [] {
      ClosesAppendAt(b, lots[..|lots| - 1], bar, score);
    }
  }

  lemma StepAppendsAt(b: ScoreBook.Book, bar: nat, score: real, p: ScoreBook.Params)
    ensures AppendedAt(b.rows, ScoreBook.BarStep(b, bar, score, p).rows, bar)
  {
    hide ScoreBook.CloseAll, ScoreBook.ToClose, ScoreBook.Notional, ScoreBook.MayOpen;
    ClosesAppendAt(b, ScoreBook.ToClose(b.open, score, p), bar, score);
  }

  /** The stream up to a bar is a prefix, split off exactly by the bar numbers. */
  lemma {:induction false} SplitByBar(scores: seq<real>, p: ScoreBook.Params, i: nat)
    requires i <= |scores|
    ensures var part, rows := ScoreBook.After(scores[..i], p).rows, ScoreBook.After(scores, p).rows;
            && part <= rows
            && (forall j :: 0 <= j < |part| ==> rows[j].bar < i)
            && forall j :: |part| <= j < |rows| ==> i <= rows[j].bar < |scores|
  {
    hide ScoreBook.BarStep;
    if i == |scores| {
      assert scores[..i] == scores;
      if i > 0 {
        SplitByBar(scores[..i - 1], p, i - 1);
        assert scores[..i - 1][..i - 1] == scores[..i - 1];
        StepAppendsAt(ScoreBook.After(scores[..i - 1], p), i - 1, scores[i - 1], p);
      }
    } else {
      var last := |scores| - 1;
      SplitByBar(scores[..last], p, i);
      assert scores[..last][..i] == scores[..i];
      StepAppendsAt(ScoreBook.After(scores[..last], p), last, scores[last], p);
    }
  }

  lemma {:induction false} FlatIsTheStream(scores: seq<real>, p: ScoreBook.Params, n: nat)
    requires n <= |scores|
    ensures Flat(SignalsByBar(ScoreBook.After(scores, p).rows, |scores|), n) == ScoreBook.After(scores[..n], p).rows
  {
    hide ScoreBook.BarStep, At;
    var rows := ScoreBook.After(scores, p).rows;
    if n > 0 {
      FlatIsTheStream(scores, p, n - 1);
      SplitByBar(scores, p, n - 1);
      SplitByBar(scores, p, n);
      SplitByBar(scores[..n], p, n - 1);
      assert scores[..n][..n - 1] == scores[..n - 1];
      var from, upto := |ScoreBook.After(scores[..n - 1], p).rows|, |ScoreBook.After(scores[..n], p).rows|;
      AtSlice(rows, n - 1, from, upto);
      assert rows[..from] + rows[from..upto] == rows[..upto];
    }
  }

  /**
    At every bar, simulated open lots are the score book's open lots with some
    left out, and their gross notional stays within the cap.
  */
  lemma SimulatedWithinCap(scores: seq<real>, p: ScoreBook.Params, s: Inputs, n: nat)
    requires ScoreBook.Sensible(p) && |s.bars| == |scores| && n <= |scores|
    requires s.signals == SignalsByBar(ScoreBook.After(scores, p).rows, |scores|)
    ensures Within(Project(After(s, n).open), ScoreBook.After(scores[..n], p).open)
    ensures Gross(Project(After(s, n).open)) <= p.cap + ScoreBook.CAP_TOLERANCE
  {
    hide ScoreBook.Sound, After, Within, Gross, Project;
    var book := ScoreBook.After(scores[..n], p);
    ScoreBook.AlwaysSound(scores[..n], p);
    ScoreBook.SoundParts(book, p);
    FlatIsTheStream(scores, p, n);
    OpenLotsAreWithinTheStream(s, n);
    WithinGross(Project(After(s, n).open), book.open);
  }
}
