/**
  Scores to lot signals: close what the score opposes, then perhaps open one lot,
  under a cooldown per direction and a cap on total notional.
*/
module ScoreBook {
  import opened Common
  import opened LotBook

  const CAP_TOLERANCE: real := 0.000000001

  datatype Params = Params(cap: real, openThreshold: real, closeThreshold: real, cooldown: int,
                           minFraction: real, maxFraction: real)

  /** The book between bars: open lots in opening order, the bar of the last open per side, and the signals so far. */
  datatype Book = Book(open: seq<Lot>, lastLong: Option<nat>, lastShort: Option<nat>,
                       openNotional: real, counter: nat, rows: seq<Event>)

  const EMPTY := Book([], None, None, 0.0, 0, [])

  function Abs(x: real): real {
    if x < 0.0 then -x else x
  }

  function Magnitude(score: real, p: Params): real {
    var floor := if Abs(score) < p.openThreshold then p.openThreshold else Abs(score);
    if floor > 1.0 then 1.0 else floor
  }

  /** Where the magnitude lies between the open threshold and one. */
  function Strength(score: real, p: Params): real {
    var span := 1.0 - p.openThreshold;
    if span == 0.0 then 0.0 else (Magnitude(score, p) - p.openThreshold) / span
  }

  function Between(lo: real, hi: real, q: real): real {
    lo + (hi - lo) * q
  }

  function Notional(score: real, p: Params): real {
    p.cap * Between(p.minFraction, p.maxFraction, Strength(score, p))
  }

  predicate Opposes(lot: Lot, score: real, p: Params) {
    (lot.side.Long? && score <= -p.closeThreshold) || (lot.side.Short? && score >= p.closeThreshold)
  }

  function ToClose(lots: seq<Lot>, score: real, p: Params): seq<Lot> {
    if lots == [] then []
    else ToClose(lots[..|lots| - 1], score, p)
         + if Opposes(lots[|lots| - 1], score, p) then [lots[|lots| - 1]] else []
  }

  function CloseOne(b: Book, lot: Lot, bar: nat, score: real): Book {
    b.(open := Remove(b.open, lot.id), openNotional := b.openNotional - lot.notional,
       rows := b.rows + [Event(bar, false, lot.side, score, lot.notional, lot.id)])
  }

  function CloseAll(b: Book, lots: seq<Lot>, bar: nat, score: real): Book {
    if lots == [] then b
    else CloseOne(CloseAll(b, lots[..|lots| - 1], bar, score), lots[|lots| - 1], bar, score)
  }

  function SideOf(score: real): Side {
    if score > 0.0 then Long else Short
  }

  function LastOpen(b: Book, side: Side): Option<nat> {
    if side.Long? then b.lastLong else b.lastShort
  }

  predicate CooledDown(b: Book, side: Side, bar: nat, p: Params) {
    LastOpen(b, side).Some? ==> bar - LastOpen(b, side).value >= p.cooldown
  }

  predicate MayOpen(b: Book, bar: nat, score: real, p: Params) {
    && Abs(score) >= p.openThreshold
    && CooledDown(b, SideOf(score), bar, p)
    && b.openNotional + Notional(score, p) <= p.cap + CAP_TOLERANCE
  }

  function OpenOne(b: Book, bar: nat, score: real, p: Params): Book {
    var side, notional, id := SideOf(score), Notional(score, p), b.counter + 1;
    Book(b.open + [Lot(id, side, notional)],
         if side.Long? then Some(bar) else b.lastLong,
         if side.Short? then Some(bar) else b.lastShort,
         b.openNotional + notional, id,
         b.rows + [Event(bar, true, side, score, notional, id)])
  }

  function BarStep(b: Book, bar: nat, score: real, p: Params): Book {
    var closed := CloseAll(b, ToClose(b.open, score, p), bar, score);
    if MayOpen(closed, bar, score, p) then OpenOne(closed, bar, score, p) else closed
  }

  function After(scores: seq<real>, p: Params): Book {
    if scores == [] then EMPTY
    else BarStep(After(scores[..|scores| - 1], p), |scores| - 1, scores[|scores| - 1], p)
  }

  // ----- the loop

  /** The signal loop with its own variables; it produces exactly the stream `After` describes. */
  method ScoreToLotSignals(scores: seq<real>, p: Params) returns (rows: seq<Event>)
    ensures rows == After(scores, p).rows
  {
    hide Notional, CloseAll, ToClose, Abs, SideOf;
    rows := [];
    var counter: nat := 0;
    var openLots: seq<Lot> := [];
    var lastOpen: map<Side, nat> := map[];
    var openNotional := 0.0;
    var bar := 0;
    while bar < |scores|
      invariant 0 <= bar <= |scores|
      invariant Book(openLots, Recorded(lastOpen, Long), Recorded(lastOpen, Short), openNotional, counter, rows)
             == After(scores[..bar], p)
    {
      var score := scores[bar];
      assert scores[..bar + 1][..bar] == scores[..bar];
      ghost var before := After(scores[..bar], p);
      openLots, openNotional, rows := CloseOpposed(openLots, openNotional, rows, bar, score, p, before);
      if Abs(score) >= p.openThreshold {
        var side := SideOf(score);
        var cooldownOk := side !in lastOpen || bar - lastOpen[side] >= p.cooldown;
        var notional := if cooldownOk then Notional(score, p) else 0.0;
        if cooldownOk && openNotional + notional <= p.cap + CAP_TOLERANCE {
          counter := counter + 1;
          openLots := openLots + [Lot(counter, side, notional)];
          openNotional := openNotional + notional;
          lastOpen := lastOpen[side := bar];
          rows := rows + [Event(bar, true, side, score, notional, counter)];
        }
      }
      bar := bar + 1;
    }
    assert scores[..bar] == scores;
  }

  /** Collect the lots the score opposes, then close them one by one. */
  method CloseOpposed(lots: seq<Lot>, notional: real, events: seq<Event>, bar: nat, score: real, p: Params,
                      ghost before: Book)
    returns (openLots: seq<Lot>, openNotional: real, rows: seq<Event>)
    requires lots == before.open && notional == before.openNotional && events == before.rows
    ensures before.(open := openLots, openNotional := openNotional, rows := rows)
         == CloseAll(before, ToClose(before.open, score, p), bar, score)
  {
    hide Remove, Opposes;
    openLots, openNotional, rows := lots, notional, events;
    var toClose: seq<Lot> := [];
    var i := 0;
    while i < |lots|
      invariant 0 <= i <= |lots|
      invariant toClose == ToClose(lots[..i], score, p)
    {
      assert lots[..i + 1][..i] == lots[..i];
      if Opposes(lots[i], score, p) {
        toClose := toClose + [lots[i]];
      }
      i := i + 1;
    }
    assert lots[..i] == lots;
    i := 0;
    while i < |toClose|
      invariant 0 <= i <= |toClose|
      invariant before.(open := openLots, openNotional := openNotional, rows := rows)
             == CloseAll(before, toClose[..i], bar, score)
    {
      var lot := toClose[i];
      assert toClose[..i + 1][..i] == toClose[..i];
      openLots := Remove(openLots, lot.id);
      openNotional := openNotional - lot.notional;
      rows := rows + [Event(bar, false, lot.side, score, lot.notional, lot.id)];
      i := i + 1;
    }
    assert toClose[..i] == toClose;
  }

  function Recorded(lastOpen: map<Side, nat>, side: Side): Option<nat> {
    if side in lastOpen then Some(lastOpen[side]) else None
  }

  // ----- what holds of the book at every bar

  predicate Sensible(p: Params) {
    p.cap >= 0.0 && 0.0 <= p.minFraction <= p.maxFraction
  }

  /** The tracked variables describe the open lots, and the stream replays to them. */
  predicate Sound(b: Book, p: Params) {
    && UniqueIds(b.open) && NonNegative(b.open)
    && (forall i :: 0 <= i < |b.open| ==> b.open[i].id <= b.counter)
    && (forall i :: 0 <= i < |b.rows| ==> b.rows[i].lotId <= b.counter)
    && b.openNotional == Gross(b.open)
    && b.openNotional <= p.cap + CAP_TOLERANCE
    && Replay(b.rows) == b.open
    && WellBracketed(b.rows)
  }

  lemma StrengthInRange(score: real, p: Params)
    ensures 0.0 <= Strength(score, p) <= 1.0
  {
    var span, over := 1.0 - p.openThreshold, Magnitude(score, p) - p.openThreshold;
    if span > 0.0 {
      assert 0.0 <= over <= span;
      QuotientInRange(over, span);
    } else if span < 0.0 {
      assert over == span;
      assert over / span == 1.0;
    }
  }

  lemma QuotientInRange(x: real, d: real)
    requires d > 0.0 && 0.0 <= x <= d
    ensures 0.0 <= x / d <= 1.0
  {
    assert x / d * d == x;
  }

  /** An opened lot is sized between the two configured fractions of the cap. */
  lemma NotionalInRange(score: real, p: Params)
    requires Sensible(p)
    ensures p.cap * p.minFraction <= Notional(score, p) <= p.cap * p.maxFraction
    ensures Notional(score, p) >= 0.0
  {
    hide Strength, Between;
    StrengthInRange(score, p);
    var fraction := Between(p.minFraction, p.maxFraction, Strength(score, p));
    BetweenTheTwo(p.minFraction, p.maxFraction, Strength(score, p));
    Scaled(p.cap, p.minFraction, fraction);
    Scaled(p.cap, fraction, p.maxFraction);
    Scaled(p.cap, 0.0, p.minFraction);
  }

  lemma BetweenTheTwo(lo: real, hi: real, q: real)
    requires lo <= hi && 0.0 <= q <= 1.0
    ensures lo <= Between(lo, hi, q) <= hi
  {
    Scaled(hi - lo, 0.0, q);
    Scaled(hi - lo, q, 1.0);
  }

  lemma Scaled(c: real, a: real, b: real)
    requires c >= 0.0 && a <= b
    ensures c * a <= c * b
  {
    assert c * (b - a) >= 0.0;
    assert c * (b - a) == c * b - c * a;
  }

  /**
    A lot's size grows evenly with the score, from the smallest fraction of the cap
    at the open threshold to the largest at one; a score as strong the other way
    asks for as much. With no room between threshold and one every lot is the
    smallest, with a threshold past one the largest.
  */
  lemma NotionalGrowsWithTheScore(score: real, p: Params)
    ensures p.openThreshold == 1.0 || Abs(score) <= p.openThreshold < 1.0 ==>
              Notional(score, p) == p.cap * p.minFraction
    ensures p.openThreshold > 1.0 || Abs(score) >= 1.0 > p.openThreshold ==>
              Notional(score, p) == p.cap * p.maxFraction
    ensures p.openThreshold <= Abs(score) <= 1.0 ==>
              Notional(score, p) * (1.0 - p.openThreshold)
              == p.cap * (p.minFraction * (1.0 - Abs(score)) + p.maxFraction * (Abs(score) - p.openThreshold))
    ensures Notional(-score, p) == Notional(score, p)
  {
    hide Between, Strength;
    SameStrength(score, -score, p);
    var span := 1.0 - p.openThreshold;
    StrengthTimesSpan(score, p);
    BetweenTheEnds(p.minFraction, p.maxFraction);
    if p.openThreshold <= Abs(score) <= 1.0 && p.openThreshold < 1.0 {
      Interpolated(p.cap, p.minFraction, p.maxFraction, Strength(score, p), span, Abs(score) - p.openThreshold);
    }
  }

  lemma StrengthTimesSpan(score: real, p: Params)
    ensures p.openThreshold < 1.0 ==>
              Strength(score, p) * (1.0 - p.openThreshold) == Magnitude(score, p) - p.openThreshold
    ensures p.openThreshold == 1.0 || Abs(score) <= p.openThreshold < 1.0 ==> Strength(score, p) == 0.0
    ensures p.openThreshold > 1.0 || Abs(score) >= 1.0 > p.openThreshold ==> Strength(score, p) == 1.0
  {
    if p.openThreshold != 1.0 {
      Quotient(Magnitude(score, p) - p.openThreshold, 1.0 - p.openThreshold);
    }
  }

  lemma Quotient(x: real, d: real)
    requires d != 0.0
    ensures x / d * d == x && (x == d ==> x / d == 1.0) && (x == 0.0 ==> x / d == 0.0)
  {
  }

  lemma BetweenTheEnds(lo: real, hi: real)
    ensures Between(lo, hi, 0.0) == lo && Between(lo, hi, 1.0) == hi
  {
  }

  lemma Interpolated(cap: real, lo: real, hi: real, q: real, span: real, over: real)
    requires q * span == over
    ensures cap * Between(lo, hi, q) * span == cap * (lo * (span - over) + hi * over)
  {
    assert Between(lo, hi, q) * span == lo * span + (hi - lo) * (q * span);
    assert lo * span + (hi - lo) * over == lo * (span - over) + hi * over;
    assert cap * Between(lo, hi, q) * span == cap * (Between(lo, hi, q) * span);
  }

  lemma {:induction false} ToCloseMembers(lots: seq<Lot>, score: real, p: Params)
    ensures forall lot :: lot in ToClose(lots, score, p) <==> lot in lots && Opposes(lot, score, p)
    ensures UniqueIds(lots) ==> UniqueIds(ToClose(lots, score, p))
  {
    hide Opposes;
    if lots != [] {
      var before, last := lots[..|lots| - 1], lots[|lots| - 1];
      ToCloseMembers(before, score, p);
      assert lots == before + [last];
      var kept := ToClose(before, score, p);
      forall i | 0 <= i < |kept| && UniqueIds(lots) ensures kept[i].id != last.id {
        assert kept[i] in before;
      }
    }
  }

  lemma OldIdsOnly(rows: seq<Event>, id: nat, counter: nat)
    requires forall i :: 0 <= i < |rows| ==> rows[i].lotId <= counter
    requires id > counter
    ensures !OpenedBefore(rows, id)
  {
  }

  predicate NoneNamed(lots: seq<Lot>, id: nat) {
    forall k :: 0 <= k < |lots| ==> lots[k].id != id
  }

  /** Only closes were appended, and nothing but the open lots, their total and the stream changed. */
  predicate OnlyCloses(b: Book, c: Book) {
    && c == b.(open := c.open, openNotional := c.openNotional, rows := c.rows)
    && b.rows <= c.rows && forall i :: |b.rows| <= i < |c.rows| ==> !c.rows[i].isOpen
  }

  /** Closing keeps the book sound and leaves exactly the lots not closed. */
  lemma {:induction false} CloseAllSound(b: Book, lots: seq<Lot>, bar: nat, score: real, p: Params)
    requires Sound(b, p) && UniqueIds(lots) && forall lot :: lot in lots ==> lot in b.open
    ensures var c := CloseAll(b, lots, bar, score);
            && Sound(c, p) && OnlyCloses(b, c)
            && forall lot :: lot in c.open <==> lot in b.open && NoneNamed(lots, lot.id)
  {
    hide Sound, CloseOne;
    if lots != [] {
      var before, lot := lots[..|lots| - 1], lots[|lots| - 1];
      CloseAllSound(b, before, bar, score, p);
      var mid := CloseAll(b, before, bar, score);
      assert lot in b.open && NoneNamed(before, lot.id);
      CloseOneSound(mid, lot, bar, score, p);
      forall other: Lot ensures NoneNamed(lots, other.id) <==> NoneNamed(before, other.id) && other.id != lot.id {
        assert lots == before + [lot];
      }
    }
  }

  lemma CloseFits(rows: seq<Event>, e: Event)
    requires WellBracketed(rows) && !e.isOpen && LotOf(e) in Replay(rows)
    ensures Replay(rows + [e]) == Remove(Replay(rows), e.lotId)
    ensures WellBracketed(rows + [e])
  {
    hide Remove;
    assert (rows + [e])[..|rows|] == rows;
  }

  lemma IdsStayKnown(lots: seq<Lot>, id: nat, counter: nat)
    requires NonNegative(lots) && forall i :: 0 <= i < |lots| ==> lots[i].id <= counter
    ensures NonNegative(Remove(lots, id))
    ensures forall i :: 0 <= i < |Remove(lots, id)| ==> Remove(lots, id)[i].id <= counter
  {
    hide Remove;
    RemoveGross(lots, id);
    forall i | 0 <= i < |Remove(lots, id)| ensures Remove(lots, id)[i] in lots {
      assert Remove(lots, id)[i] in Remove(lots, id);
    }
  }

  lemma CloseOneSound(b: Book, lot: Lot, bar: nat, score: real, p: Params)
    requires Sound(b, p) && lot in b.open
    ensures var c := CloseOne(b, lot, bar, score);
            && Sound(c, p) && c.rows[..|b.rows|] == b.rows && |c.rows| == |b.rows| + 1 && !c.rows[|b.rows|].isOpen
            && c == b.(open := c.open, openNotional := c.openNotional, rows := c.rows)
            && forall other :: other in c.open <==> other in b.open && other.id != lot.id
  {
    hide Remove, Replay, WellBracketed, Gross;
    var e := Event(bar, false, lot.side, score, lot.notional, lot.id);
    assert LotOf(e) == lot;
    RemoveExact(b.open, lot);
    IdsStayKnown(b.open, lot.id, b.counter);
    CloseFits(b.rows, e);
    var k :| 0 <= k < |b.open| && b.open[k] == lot;
    assert lot.notional >= 0.0;
  }

  lemma OpenOneSound(b: Book, bar: nat, score: real, p: Params)
    requires Sound(b, p) && Sensible(p) && MayOpen(b, bar, score, p)
    ensures Sound(OpenOne(b, bar, score, p), p)
  {
    hide Notional;
    var c := OpenOne(b, bar, score, p);
    NotionalInRange(score, p);
    GrossAppend(b.open, c.open[|c.open| - 1]);
    OldIdsOnly(b.rows, c.counter, b.counter);
    assert c.rows[..|c.rows| - 1] == b.rows;
  }

  /**
    At every bar: unique lot ids, every close matches an open lot, the tracked
    notional is the sum over open lots and stays within the cap.
  */
  lemma {:induction false} AlwaysSound(scores: seq<real>, p: Params)
    requires Sensible(p)
    ensures Sound(After(scores, p), p)
  {
    if scores != [] {
      var before, score, bar := scores[..|scores| - 1], scores[|scores| - 1], |scores| - 1;
      AlwaysSound(before, p);
      BarStepSound(After(before, p), bar, score, p);
    }
  }

  lemma BarStepSound(b: Book, bar: nat, score: real, p: Params)
    requires Sensible(p) && Sound(b, p)
    ensures Sound(BarStep(b, bar, score, p), p)
  {
    hide Sound, Notional, Opposes;
    SoundParts(b, p);
    ToCloseMembers(b.open, score, p);
    CloseAllSound(b, ToClose(b.open, score, p), bar, score, p);
    var closed := CloseAll(b, ToClose(b.open, score, p), bar, score);
    if MayOpen(closed, bar, score, p) {
      OpenOneSound(closed, bar, score, p);
    }
  }

  lemma SoundParts(b: Book, p: Params)
    requires Sound(b, p)
    ensures UniqueIds(b.open) && NonNegative(b.open) && Replay(b.rows) == b.open && WellBracketed(b.rows)
    ensures Gross(b.open) == b.openNotional <= p.cap + CAP_TOLERANCE
  {
  }

  // ----- one direction at a time

  predicate OneSided(lots: seq<Lot>) {
    forall i, j :: 0 <= i < |lots| && 0 <= j < |lots| ==> lots[i].side == lots[j].side
  }

  /** What is left after the score closed its opposites faces the way an opening score does. */
  lemma SurvivorsFaceTheScore(b: Book, bar: nat, score: real, p: Params)
    requires Sound(b, p) && p.closeThreshold <= p.openThreshold && Abs(score) >= p.openThreshold
    ensures var closed := CloseAll(b, ToClose(b.open, score, p), bar, score);
            forall i :: 0 <= i < |closed.open| ==> closed.open[i].side == SideOf(score)
  {
    hide Sound;
    SoundParts(b, p);
    ToCloseMembers(b.open, score, p);
    var gone := ToClose(b.open, score, p);
    CloseAllSound(b, gone, bar, score, p);
    var closed := CloseAll(b, gone, bar, score);
    forall i | 0 <= i < |closed.open| ensures closed.open[i].side == SideOf(score) {
      var lot := closed.open[i];
      assert lot in closed.open;
      assert !Opposes(lot, score, p);
    }
  }

  lemma BarStepOneSided(b: Book, bar: nat, score: real, p: Params)
    requires Sound(b, p) && OneSided(b.open) && p.closeThreshold <= p.openThreshold
    ensures OneSided(BarStep(b, bar, score, p).open)
  {
    hide Sound, Notional, Opposes, ToClose, CloseAll, SideOf;
    SoundParts(b, p);
    ToCloseMembers(b.open, score, p);
    var closed := CloseAll(b, ToClose(b.open, score, p), bar, score);
    CloseAllSound(b, ToClose(b.open, score, p), bar, score, p);
    if Abs(score) >= p.openThreshold {
      SurvivorsFaceTheScore(b, bar, score, p);
    } else {
      forall i, j | 0 <= i < |closed.open| && 0 <= j < |closed.open|
        ensures closed.open[i].side == closed.open[j].side
      {
        assert closed.open[i] in b.open && closed.open[j] in b.open;
      }
    }
  }

  /** With close threshold at most open threshold, all open lots always face one way. */
  lemma {:induction false} AlwaysOneSided(scores: seq<real>, p: Params)
    requires Sensible(p) && p.closeThreshold <= p.openThreshold
    ensures OneSided(After(scores, p).open)
  {
    if scores != [] {
      var before := scores[..|scores| - 1];
      AlwaysOneSided(before, p);
      AlwaysSound(before, p);
      BarStepOneSided(After(before, p), |before|, scores[|before|], p);
    }
  }

  /**
    The threshold order is what keeps the book one-sided: with room for two
    smallest lots, all score streams keep it one-sided exactly when a score that
    opens also closes the other side.
  */
  lemma OneSidedExactlyWhenOpeningCloses(p: Params)
    requires Sensible(p) && p.openThreshold > 0.0
    requires 2.0 * Notional(p.openThreshold, p) <= p.cap + CAP_TOLERANCE
    ensures (forall scores :: OneSided(After(scores, p).open)) <==> p.closeThreshold <= p.openThreshold
  {
    if p.closeThreshold <= p.openThreshold {
      forall scores ensures OneSided(After(scores, p).open) {
        AlwaysOneSided(scores, p);
      }
    } else {
      BothSidesOpen(p);
      assert !OneSided(After([p.openThreshold, -p.openThreshold], p).open);
    }
  }

  lemma BothSidesOpen(p: Params)
    requires Sensible(p) && 0.0 < p.openThreshold < p.closeThreshold
    requires 2.0 * Notional(p.openThreshold, p) <= p.cap + CAP_TOLERANCE
    ensures var lots := After([p.openThreshold, -p.openThreshold], p).open;
            |lots| == 2 && lots[0].side.Long? && lots[1].side.Short?
  {
    hide Strength;
    var up, down := p.openThreshold, -p.openThreshold;
    assert Magnitude(up, p) == Magnitude(down, p);
    assert Strength(up, p) == Strength(down, p) by { SameStrength(up, down, p); }
    NotionalInRange(up, p);
    var size := Notional(up, p);
    assert [up][..0] == [] && After([], p) == EMPTY;
    assert ToClose([], up, p) == [];
    var one := After([up], p);
    assert one == OpenOne(EMPTY, 0, up, p);
    assert [up, down][..1] == [up];
    assert one.open == [Lot(1, Long, size)];
    assert ToClose(one.open[..0], down, p) == [];
    assert ToClose(one.open, down, p) == [];
    assert After([up, down], p) == OpenOne(one, 1, down, p);
  }

  lemma SameStrength(a: real, b: real, p: Params)
    requires Magnitude(a, p) == Magnitude(b, p)
    ensures Strength(a, p) == Strength(b, p)
  {
  }

  // ----- cooldown

  /** Opens on one side are at least the cooldown apart, and the book remembers the latest. */
  predicate Spaced(b: Book, p: Params, bar: nat) {
    && (forall i :: 0 <= i < |b.rows| && b.rows[i].isOpen ==>
          && b.rows[i].bar < bar
          && LastOpen(b, b.rows[i].side).Some? && b.rows[i].bar <= LastOpen(b, b.rows[i].side).value)
    && (forall i, j :: 0 <= i < j < |b.rows|
                       && b.rows[i].isOpen && b.rows[j].isOpen && b.rows[i].side == b.rows[j].side ==>
          b.rows[j].bar - b.rows[i].bar >= p.cooldown)
  }

  lemma NothingOpenedIsSpaced(p: Params)
    ensures Spaced(After([], p), p, 0)
  {
  }

  lemma ClosesKeepSpacing(b: Book, c: Book, p: Params, bar: nat)
    requires OnlyCloses(b, c) && Spaced(b, p, bar)
    ensures Spaced(c, p, bar)
  {
    forall i | 0 <= i < |c.rows| && c.rows[i].isOpen ensures i < |b.rows| && c.rows[i] == b.rows[i] {
    }
  }

  lemma OpenKeepsSpacing(b: Book, bar: nat, score: real, p: Params)
    requires Spaced(b, p, bar) && CooledDown(b, SideOf(score), bar, p)
    ensures Spaced(OpenOne(b, bar, score, p), p, bar + 1)
  {
    hide Notional, SideOf;
  }

  lemma BarStepSpaced(b: Book, bar: nat, score: real, p: Params)
    requires Sound(b, p) && Spaced(b, p, bar)
    ensures Spaced(BarStep(b, bar, score, p), p, bar + 1)
  {
    hide Sound, Notional, Opposes, ToClose, CloseAll, SideOf, Abs, Spaced, OpenOne, OnlyCloses;
    SoundParts(b, p);
    ToCloseMembers(b.open, score, p);
    var closed := CloseAll(b, ToClose(b.open, score, p), bar, score);
    CloseAllSound(b, ToClose(b.open, score, p), bar, score, p);
    ClosesKeepSpacing(b, closed, p, bar);
    if MayOpen(closed, bar, score, p) {
      OpenKeepsSpacing(closed, bar, score, p);
    } else {
      LaterIsStillSpaced(closed, p, bar);
    }
  }

  lemma LaterIsStillSpaced(b: Book, p: Params, bar: nat)
    requires Spaced(b, p, bar)
    ensures Spaced(b, p, bar + 1)
  {
  }

  /** Opens on one side are at least the cooldown apart, over every score stream. */
  lemma {:induction false} AlwaysSpaced(scores: seq<real>, p: Params)
    requires Sensible(p)
    ensures Spaced(After(scores, p), p, |scores|)
  {
    hide Sound, BarStep, Spaced;
    if scores == [] {
      NothingOpenedIsSpaced(p);
    } else {
      var before := scores[..|scores| - 1];
      AlwaysSpaced(before, p);
      AlwaysSound(before, p);
      BarStepSpaced(After(before, p), |before|, scores[|before|], p);
    }
  }

  // ----- exactly what one bar does

  /** The book remembers, per side, the bar of its latest open. */
  predicate Remembers(b: Book) {
    forall side :: match LastOpen(b, side)
      case None => forall i :: 0 <= i < |b.rows| && b.rows[i].isOpen ==> b.rows[i].side != side
      case Some(bar) => OpenedAt(b.rows, side, bar)
  }

  predicate OpenedAt(rows: seq<Event>, side: Side, bar: nat) {
    exists i :: 0 <= i < |rows| && rows[i].isOpen && rows[i].side == side && rows[i].bar == bar
  }

  lemma ClosesKeepMemory(b: Book, c: Book)
    requires OnlyCloses(b, c) && Remembers(b)
    ensures Remembers(c)
  {
    forall side ensures match LastOpen(c, side)
                        case None => forall i :: 0 <= i < |c.rows| && c.rows[i].isOpen ==> c.rows[i].side != side
                        case Some(bar) => OpenedAt(c.rows, side, bar)
    {
      assert LastOpen(c, side) == LastOpen(b, side);
      if LastOpen(b, side).Some? {
        var bar := LastOpen(b, side).value;
        assert OpenedAt(b.rows, side, bar);
        var i :| 0 <= i < |b.rows| && b.rows[i].isOpen && b.rows[i].side == side && b.rows[i].bar == bar;
        assert c.rows[i] == b.rows[i];
      }
    }
  }

  lemma OpenKeepsMemory(b: Book, bar: nat, score: real, p: Params)
    requires Remembers(b)
    ensures Remembers(OpenOne(b, bar, score, p))
  {
    hide Notional, SideOf;
    var c := OpenOne(b, bar, score, p);
    forall side ensures match LastOpen(c, side)
                        case None => forall i :: 0 <= i < |c.rows| && c.rows[i].isOpen ==> c.rows[i].side != side
                        case Some(at) => OpenedAt(c.rows, side, at)
    {
      if side == SideOf(score) {
        assert c.rows[|b.rows|].bar == bar;
      } else {
        assert LastOpen(c, side) == LastOpen(b, side);
        if LastOpen(b, side).Some? {
          var at := LastOpen(b, side).value;
          assert OpenedAt(b.rows, side, at);
          var i :| 0 <= i < |b.rows| && b.rows[i].isOpen && b.rows[i].side == side && b.rows[i].bar == at;
          assert c.rows[i] == b.rows[i];
        }
      }
    }
  }

  lemma ClosingLeaves(b: Book, bar: nat, score: real, p: Params)
    requires Sound(b, p)
    ensures var closed := CloseAll(b, ToClose(b.open, score, p), bar, score);
            && Sound(closed, p) && OnlyCloses(b, closed)
            && forall lot :: lot in closed.open <==> lot in b.open && !Opposes(lot, score, p)
  {
    hide Sound, Opposes, CloseAll, ToClose;
    SoundParts(b, p);
    ToCloseMembers(b.open, score, p);
    var gone := ToClose(b.open, score, p);
    CloseAllSound(b, gone, bar, score, p);
    forall lot | lot in b.open ensures NoneNamed(gone, lot.id) <==> lot !in gone {
      if k :| 0 <= k < |gone| && gone[k].id == lot.id {
        assert gone[k] in gone && gone[k] in b.open;
        SameIdSameLot(b.open, gone[k], lot);
      }
    }
  }

  lemma SameIdSameLot(lots: seq<Lot>, a: Lot, b: Lot)
    requires UniqueIds(lots) && a in lots && b in lots && a.id == b.id
    ensures a == b
  {
  }

  lemma {:induction false} AlwaysRemembers(scores: seq<real>, p: Params)
    requires Sensible(p)
    ensures Remembers(After(scores, p))
  {
    hide Sound, MayOpen, CloseAll, ToClose, OpenOne, Remembers, OnlyCloses;
    if scores == [] {
      EmptyRemembers();
    } else {
      var before, score, bar := scores[..|scores| - 1], scores[|scores| - 1], |scores| - 1;
      AlwaysRemembers(before, p);
      AlwaysSound(before, p);
      var b := After(before, p);
      ClosingLeaves(b, bar, score, p);
      var closed := CloseAll(b, ToClose(b.open, score, p), bar, score);
      ClosesKeepMemory(b, closed);
      OpenKeepsMemory(closed, bar, score, p);
    }
  }

  lemma EmptyRemembers()
    ensures Remembers(EMPTY)
  {
  }

  /** The score asks for this side, long above and short below zero, at least at the open threshold. */
  predicate Asks(score: real, side: Side, p: Params) {
    if side.Long? then score > 0.0 && score >= p.openThreshold else score <= 0.0 && score <= -p.openThreshold
  }

  /** Every open on this side so far is at least the cooldown ago. */
  predicate Rested(rows: seq<Event>, side: Side, bar: nat, p: Params) {
    forall i :: 0 <= i < |rows| && rows[i].isOpen && rows[i].side == side ==> bar - rows[i].bar >= p.cooldown
  }

  lemma CooledDownExactly(b: Book, side: Side, bar: nat, p: Params)
    requires Remembers(b) && Spaced(b, p, bar)
    ensures CooledDown(b, side, bar, p) <==> Rested(b.rows, side, bar, p)
  {
    match LastOpen(b, side)
    case None =>
    case Some(at) => assert OpenedAt(b.rows, side, at);
  }

  lemma AsksExactly(score: real, side: Side, p: Params)
    ensures Asks(score, side, p) <==> Abs(score) >= p.openThreshold && SideOf(score) == side
  {
  }

  /** What is left of the book once the score has closed what it opposes. */
  function Kept(b: Book, bar: nat, score: real, p: Params): Book {
    CloseAll(b, ToClose(b.open, score, p), bar, score)
  }

  /**
    What a bar does to the book, in full: it closes exactly the longs under a score
    at or below minus the close threshold and the shorts over one at or above it,
    and opens a lot on a side exactly when the score asks for that side, the side
    has rested, and the cap has room over the lots still open.
  */
  ghost predicate DoesExactly(b: Book, c: Book, bar: nat, score: real, p: Params, side: Side) {
    var kept := Kept(b, bar, score, p);
    && (forall lot :: lot in kept.open <==>
          lot in b.open && !(if lot.side.Long? then score <= -p.closeThreshold else score >= p.closeThreshold))
    && (c.open == kept.open + [Lot(b.counter + 1, side, Notional(score, p))] <==>
          && Asks(score, side, p) && Rested(b.rows, side, bar, p)
          && Gross(kept.open) + Notional(score, p) <= p.cap + CAP_TOLERANCE)
    && (c.open == kept.open || c.open == kept.open + [Lot(b.counter + 1, SideOf(score), Notional(score, p))])
  }

  /** Every bar of every stream does just that. */
  lemma BarDoesExactly(scores: seq<real>, p: Params, side: Side)
    requires Sensible(p) && scores != []
    ensures var n := |scores| - 1;
            DoesExactly(After(scores[..n], p), After(scores, p), n, scores[n], p, side)
  {
    hide Sound, Remembers, Spaced, BarStep, DoesExactly, Sensible;
    var n := |scores| - 1;
    AlwaysSound(scores[..n], p);
    AlwaysSpaced(scores[..n], p);
    AlwaysRemembers(scores[..n], p);
    BookDoesExactly(After(scores[..n], p), n, scores[n], p, side);
  }

  lemma BookDoesExactly(b: Book, bar: nat, score: real, p: Params, side: Side)
    requires Sound(b, p) && Remembers(b) && Spaced(b, p, bar)
    ensures DoesExactly(b, BarStep(b, bar, score, p), bar, score, p, side)
  {
    hide Sound, Notional, Remembers, Spaced, Asks, Rested, SideOf, BarStep, Kept, Gross;
    KeptExactly(b, bar, score, p);
    OpensExactly(b, bar, score, p, side);
  }

  lemma KeptExactly(b: Book, bar: nat, score: real, p: Params)
    requires Sound(b, p)
    ensures forall lot :: lot in Kept(b, bar, score, p).open <==>
              lot in b.open && !(if lot.side.Long? then score <= -p.closeThreshold else score >= p.closeThreshold)
  {
    hide Sound, CloseAll, ToClose, Opposes;
    ClosingLeaves(b, bar, score, p);
    OpposesExactly(b.open, score, p);
  }

  lemma OpensExactly(b: Book, bar: nat, score: real, p: Params, side: Side)
    requires Sound(b, p) && Remembers(b) && Spaced(b, p, bar)
    ensures var kept, c := Kept(b, bar, score, p), BarStep(b, bar, score, p);
            && (c.open == kept.open + [Lot(b.counter + 1, side, Notional(score, p))] <==>
                  && Asks(score, side, p) && Rested(b.rows, side, bar, p)
                  && Gross(kept.open) + Notional(score, p) <= p.cap + CAP_TOLERANCE)
            && (c.open == kept.open || c.open == kept.open + [Lot(b.counter + 1, SideOf(score), Notional(score, p))])
  {
    hide Sound, Notional, CloseAll, ToClose, Remembers, Spaced, OnlyCloses, Asks, Rested, CooledDown, SideOf, Abs,
         Gross;
    ClosingLeaves(b, bar, score, p);
    var kept := Kept(b, bar, score, p);
    ClosesKeepMemory(b, kept);
    ClosesKeepSpacing(b, kept, p, bar);
    SoundParts(kept, p);
    CooledDownExactly(kept, side, bar, p);
    RestedThroughCloses(b, kept, side, bar, p);
    AsksExactly(score, side, p);
    MoreLotsDiffer(kept.open, Lot(b.counter + 1, side, Notional(score, p)),
                   Lot(b.counter + 1, SideOf(score), Notional(score, p)));
  }

  lemma MoreLotsDiffer(lots: seq<Lot>, a: Lot, b: Lot)
    ensures lots + [a] != lots
    ensures lots + [a] == lots + [b] ==> a == b
  {
    assert (lots + [a])[|lots|] == a && (lots + [b])[|lots|] == b;
  }

  lemma OpposesExactly(lots: seq<Lot>, score: real, p: Params)
    ensures forall lot :: lot in lots ==>
              (Opposes(lot, score, p) <==>
                 if lot.side.Long? then score <= -p.closeThreshold else score >= p.closeThreshold)
  {
  }

  lemma RestedThroughCloses(b: Book, c: Book, side: Side, bar: nat, p: Params)
    requires OnlyCloses(b, c)
    ensures c.counter == b.counter
    ensures Rested(c.rows, side, bar, p) <==> Rested(b.rows, side, bar, p)
  {
    forall i | 0 <= i < |b.rows| ensures c.rows[i] == b.rows[i] {
    }
  }
}
