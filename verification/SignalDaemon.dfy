/**
  Competing signal daemons on one database: a cheap gate, a gap in which data is
  refreshed and scored, then one transaction that repeats the gate and writes.
  The executor may change the tables at any time in between.
*/
module SignalDaemon {
  import opened Common
  import ScoreBook

  datatype IntentStatus = Pending | Accepted | Executed | FailedStatus | Rejected

  datatype Intent = Intent(id: string, symbol: string, side: Side, isOpen: bool, target: real, maxOrder: real,
                           source: string, reason: string, status: IntentStatus)

  datatype OrderRow = OrderRow(symbol: string, owned: bool, status: string)

  /** A position row as read back: the side may be no side, the profit no number, the opening time no time. */
  datatype PositionRow = PositionRow(side: Option<Side>, pnl: Option<real>, openedAt: Option<int>)

  /** `state` is the key-value table shared with the executor; `snapshotAt` is the newest equity snapshot. */
  datatype Tables = Tables(intents: seq<Intent>, state: map<string, string>, orders: seq<OrderRow>,
                           positions: map<string, PositionRow>, snapshotAt: Option<int>)

  datatype Config = Config(cap: real, entryThreshold: real, exitThreshold: real, minFraction: real, maxFraction: real,
                           maxHoldingBars: int, profitHold: real, lossHold: real)

  /** One run of a daemon: the closed bar it is about, as text for the key and as seconds. */
  datatype Job = Job(source: string, symbol: string, timeframe: string, closedTs: string, closedAt: int,
                     barSecs: nat, maxAge: int, cfg: Config)

  datatype Decision = Decision(isOpen: bool, side: Side, target: real, reason: string)

  const FINISHED := {"filled", "cancelled", "canceled", "rejected", "failed",
                     "externally_cancelled", "externally_closed"}

  function ProcessedKey(job: Job): string {
    "signal_processed:" + job.source + ":" + job.symbol + ":" + job.timeframe + ":" + job.closedTs
  }

  function OverrideKey(symbol: string): string {
    "manual_override:" + symbol
  }

  predicate OverrideActive(t: Tables, symbol: string) {
    OverrideKey(symbol) in t.state && t.state[OverrideKey(symbol)] == "active"
  }

  predicate Unresolved(i: Intent, symbol: string) {
    i.symbol == symbol && (i.status.Pending? || i.status.Accepted?)
  }

  predicate HasUnresolvedIntent(t: Tables, symbol: string) {
    exists k :: 0 <= k < |t.intents| && Unresolved(t.intents[k], symbol)
  }

  predicate Unfinished(row: OrderRow, symbol: string) {
    row.symbol == symbol && row.owned && row.status !in FINISHED
  }

  predicate HasUnfinishedOrder(t: Tables, symbol: string) {
    exists k :: 0 <= k < |t.orders| && Unfinished(t.orders[k], symbol)
  }

  predicate StaleState(t: Tables, job: Job, clock: int) {
    t.snapshotAt.None? || clock - t.snapshotAt.value > job.maxAge
  }

  /** The first reason to skip, in the order they are checked. */
  function GateSkip(t: Tables, job: Job, clock: int): Option<string> {
    if ProcessedKey(job) in t.state then Some("already_processed")
    else if StaleState(t, job, clock) then Some("skipped_stale_state")
    else if OverrideActive(t, job.symbol) then Some("skipped_manual_override")
    else if HasUnresolvedIntent(t, job.symbol) then Some("skipped_pending_intent")
    else if HasUnfinishedOrder(t, job.symbol) then Some("skipped_pending_order")
    else None
  }

  /** Whole bars since the position opened, never negative. */
  function HoldingBars(openedAt: int, job: Job): int {
    if job.closedAt <= openedAt || job.barSecs == 0 then 0 else (job.closedAt - openedAt) / job.barSecs
  }

  function SizeParams(c: Config): ScoreBook.Params {
    ScoreBook.Params(c.cap, c.entryThreshold, c.exitThreshold, 0, c.minFraction, c.maxFraction)
  }

  function DecideIntent(score: real, position: Option<(Side, real)>, holdingBars: int, c: Config): Option<Decision> {
    match position
    case Some((side, pnl)) =>
      if side.Long? && score <= -c.exitThreshold then Some(Decision(false, Long, 0.0, "close_opposite"))
      else if side.Short? && score >= c.exitThreshold then Some(Decision(false, Short, 0.0, "close_opposite"))
      else if holdingBars >= c.maxHoldingBars
              && ScoreBook.Abs(score) < (if pnl >= 0.0 then c.profitHold else c.lossHold) then
        Some(Decision(false, side, 0.0, if pnl >= 0.0 then "holding_expiry_profit" else "holding_expiry_loss"))
      else None
    case None =>
      if ScoreBook.Abs(score) >= c.entryThreshold then
        var side := if score > 0.0 then Long else Short;
        Some(Decision(true, side, ScoreBook.Notional(score, SizeParams(c)), "open_threshold"))
      else None
  }

  /** The position and its age as the daemon reads them; None when either cannot be trusted. */
  function ReadPosition(t: Tables, job: Job): Option<(Option<(Side, real)>, int)> {
    if job.symbol !in t.positions then Some((None, 0))
    else
      var row := t.positions[job.symbol];
      if row.side.None? || row.pnl.None? || row.openedAt.None? then None
      else Some((Some((row.side.value, row.pnl.value)), HoldingBars(row.openedAt.value, job)))
  }

  function NewIntent(job: Job, d: Decision, id: string): Intent {
    var maxOrder := if d.isOpen then d.target else 0.0;
    Intent(id, job.symbol, d.side, d.isOpen, d.target, maxOrder, job.source, d.reason, Pending)
  }

  function Outcome(d: Decision): string {
    if d.isOpen then "open_intent_written" else "close_intent_written"
  }

  predicate IdTaken(t: Tables, id: string) {
    exists k :: 0 <= k < |t.intents| && t.intents[k].id == id
  }

  /** The write transaction: gate again, decide, then intent and marker, or only a marker, or nothing. */
  function Write(t: Tables, job: Job, score: real, actualTs: string, clock: int, id: string): Tables {
    if actualTs != job.closedTs || GateSkip(t, job, clock).Some? then t
    else match ReadPosition(t, job)
      case None => t
      case Some((position, bars)) =>
        match DecideIntent(score, position, bars, job.cfg)
        case None => t.(state := t.state[ProcessedKey(job) := "no_signal"])
        case Some(d) =>
          if IdTaken(t, id) then t
          else t.(intents := t.intents + [NewIntent(job, d, id)], state := t.state[ProcessedKey(job) := Outcome(d)])
  }

  class Database {
    var intents: seq<Intent>
    var state: map<string, string>
    var orders: seq<OrderRow>
    var positions: map<string, PositionRow>
    var snapshotAt: Option<int>

    function Snapshot(): Tables reads this {
      Tables(intents, state, orders, positions, snapshotAt)
    }

    method FindUnresolved(symbol: string) returns (found: bool)
      ensures found == HasUnresolvedIntent(Snapshot(), symbol)
    {
      found := false;
      for k := 0 to |intents|
        invariant !found && forall j :: 0 <= j < k ==> !Unresolved(intents[j], symbol)
      {
        if Unresolved(intents[k], symbol) { return true; }
      }
    }

    /** Insert the intent and mark the bar; a taken id fails and leaves the caller to roll back. */
    method ProcessDecision(job: Job, d: Decision, id: string) returns (r: Result<string>)
      modifies this`intents, this`state
      ensures r.Ok? <==> !IdTaken(old(Snapshot()), id)
      ensures r.Ok? ==> r.value == Outcome(d) && intents == old(intents) + [NewIntent(job, d, id)]
                        && state == old(state)[ProcessedKey(job) := Outcome(d)]
      ensures r.Err? ==> intents == old(intents) && state == old(state)
    {
      for k := 0 to |intents|
        invariant forall j :: 0 <= j < k ==> intents[j].id != id
      {
        if intents[k].id == id { return Err("intent_id not unique"); }
      }
      intents := intents + [NewIntent(job, d, id)];
      state := state[ProcessedKey(job) := Outcome(d)];
      return Ok(Outcome(d));
    }

    /** From the score on: the transaction that owns idempotency; an error is an exception, rolled back. */
    method FinishRun(job: Job, score: real, actualTs: string, clock: int, id: string) returns (r: Result<string>)
      modifies this`intents, this`state
      ensures Snapshot() == Write(old(Snapshot()), job, score, actualTs, clock, id)
      ensures r.Ok? && r.value in {"no_signal", "open_intent_written", "close_intent_written"} <==>
                ProcessedKey(job) !in old(state) && ProcessedKey(job) in state
    {
      hide ProcessedKey;
      if actualTs != job.closedTs { return Ok("skipped_stale_data"); }
      var unresolved := FindUnresolved(job.symbol);
      assert unresolved == HasUnresolvedIntent(Snapshot(), job.symbol);
      var skip := GateSkip(Snapshot(), job, clock);
      if skip.Some? { return Ok(skip.value); }
      var position, bars: int := None, 0;
      if job.symbol in positions {
        var row := positions[job.symbol];
        if row.side.None? || row.pnl.None? { return Ok("skipped_ambiguous_position"); }
        if row.openedAt.None? { return Ok("skipped_ambiguous_position"); }
        position, bars := Some((row.side.value, row.pnl.value)), HoldingBars(row.openedAt.value, job);
      }
      var decision := DecideIntent(score, position, bars, job.cfg);
      if decision.None? {
        state := state[ProcessedKey(job) := "no_signal"];
        return Ok("no_signal");
      }
      var written := ProcessDecision(job, decision.value, id);
      match written {
        case Ok(value) => return Ok(value);
        case Err(error) => return Err(error);
      }
    }
  }

  // ----- any number of daemons, and the executor

  datatype World = World(tables: Tables, running: map<nat, Job>)

  datatype Op = Precheck(daemon: nat, job: Job, clock: int)
              | Finish(daemon: nat, score: real, actualTs: string, clock: int, id: string)
              | Crash(daemon: nat)
              | Executor(next: Tables)

  function Step(w: World, op: Op): World {
    match op
    case Precheck(daemon, job, clock) =>
      if GateSkip(w.tables, job, clock).Some? then w else w.(running := w.running[daemon := job])
    case Finish(daemon, score, actualTs, clock, id) =>
      if daemon !in w.running then w
      else World(Write(w.tables, w.running[daemon], score, actualTs, clock, id), w.running - {daemon})
    case Crash(daemon) => w.(running := w.running - {daemon})
    case Executor(next) => w.(tables := next)
  }

  function Run(w: World, ops: seq<Op>): World {
    if ops == [] then w else Step(Run(w, ops[..|ops| - 1]), ops[|ops| - 1])
  }

  /** The executor never removes a processed marker; all else it may change at will. */
  predicate KeepsMarkers(w: World, ops: seq<Op>) {
    forall k :: 0 <= k < |ops| && ops[k].Executor? ==>
      forall key | key in Run(w, ops[..k]).tables.state && "signal_processed:" <= key :: key in ops[k].next.state
  }

  /** At step k a daemon inserts an intent for this key. */
  predicate Inserts(w: World, ops: seq<Op>, k: nat, key: string)
    requires k < |ops|
  {
    var before := Run(w, ops[..k]);
    && ops[k].Finish? && ops[k].daemon in before.running && ProcessedKey(before.running[ops[k].daemon]) == key
    && Step(before, ops[k]).tables.intents != before.tables.intents
  }

  lemma WriteMarks(t: Tables, job: Job, score: real, actualTs: string, clock: int, id: string)
    ensures var u := Write(t, job, score, actualTs, clock, id);
            && (forall key :: key in t.state ==> key in u.state)
            && (u.intents != t.intents ==> ProcessedKey(job) !in t.state && ProcessedKey(job) in u.state)
            && "signal_processed:" <= ProcessedKey(job)
  {
    hide GateSkip, DecideIntent, ReadPosition;
    var p := "signal_processed:";
    assert ProcessedKey(job) == p + (job.source + ":" + job.symbol + ":" + job.timeframe + ":" + job.closedTs);
    if GateSkip(t, job, clock).None? {
      PassedGate(t, job, clock);
    }
  }

  lemma PassedGate(t: Tables, job: Job, clock: int)
    requires GateSkip(t, job, clock).None?
    ensures ProcessedKey(job) !in t.state && !OverrideActive(t, job.symbol)
    ensures !HasUnresolvedIntent(t, job.symbol) && !HasUnfinishedOrder(t, job.symbol) && !StaleState(t, job, clock)
  {
    hide ProcessedKey;
  }

  lemma {:induction false} MarkerStays(w: World, ops: seq<Op>, key: string, from: nat, k: nat)
    requires from <= k <= |ops| && KeepsMarkers(w, ops) && "signal_processed:" <= key
    requires key in Run(w, ops[..from]).tables.state
    ensures key in Run(w, ops[..k]).tables.state
  {
    hide Write, GateSkip;
    if from < k {
      MarkerStays(w, ops, key, from, k - 1);
      assert ops[..k][..k - 1] == ops[..k - 1];
      var before, op := Run(w, ops[..k - 1]), ops[k - 1];
      if op.Finish? && op.daemon in before.running {
        WriteMarks(before.tables, before.running[op.daemon], op.score, op.actualTs, op.clock, op.id);
      }
    }
  }

  /** However many daemons race over a bar, and whatever the executor does meanwhile, at most one inserts its intent. */
  lemma AtMostOneIntentPerKey(w: World, ops: seq<Op>, key: string, i: nat, j: nat)
    requires i < |ops| && j < |ops| && KeepsMarkers(w, ops)
    requires Inserts(w, ops, i, key) && Inserts(w, ops, j, key)
    ensures i == j
  {
    hide Run, KeepsMarkers, Write;
    InsertMarks(w, ops, i, key);
    InsertMarks(w, ops, j, key);
    if i < j {
      MarkerStays(w, ops, key, i + 1, j);
    } else if j < i {
      MarkerStays(w, ops, key, j + 1, i);
    }
  }

  lemma InsertMarks(w: World, ops: seq<Op>, k: nat, key: string)
    requires k < |ops| && Inserts(w, ops, k, key)
    ensures key !in Run(w, ops[..k]).tables.state && key in Run(w, ops[..k + 1]).tables.state
    ensures "signal_processed:" <= key
  {
    hide Write;
    assert ops[..k + 1][..k] == ops[..k];
    var before, op := Run(w, ops[..k]), ops[k];
    WriteMarks(before.tables, before.running[op.daemon], op.score, op.actualTs, op.clock, op.id);
  }

  /**
    A daemon's transaction writes intent and marker together, or a no-signal
    marker alone, or nothing at all.
  */
  lemma IntentAndMarkerTogether(t: Tables, job: Job, score: real, actualTs: string, clock: int, id: string)
    ensures var u := Write(t, job, score, actualTs, clock, id);
            || u == t
            || (u == t.(state := t.state[ProcessedKey(job) := "no_signal"]) && ProcessedKey(job) !in t.state)
            || exists d :: u == t.(intents := t.intents + [NewIntent(job, d, id)],
                                   state := t.state[ProcessedKey(job) := Outcome(d)])
                           && ProcessedKey(job) !in t.state && !IdTaken(t, id)
  {
    hide ProcessedKey, DecideIntent, ReadPosition;
    if GateSkip(t, job, clock).None? {
      PassedGate(t, job, clock);
    }
  }

  /** An intent is written only on fresh state with no override, no unresolved intent and no unfinished order. */
  lemma InsertsOnlyWhenClear(t: Tables, job: Job, score: real, actualTs: string, clock: int, id: string)
    requires Write(t, job, score, actualTs, clock, id).intents != t.intents
    ensures actualTs == job.closedTs && !StaleState(t, job, clock) && !OverrideActive(t, job.symbol)
    ensures !HasUnresolvedIntent(t, job.symbol) && !HasUnfinishedOrder(t, job.symbol)
  {
    hide GateSkip, DecideIntent, ReadPosition, ProcessedKey;
    PassedGate(t, job, clock);
  }

  /**
    An open needs a flat position and a score past the threshold on its side, and is
    sized within the configured share of the cap. A close names the side held, and
    either the score opposes that side or it was held its full time with a weak score.
  */
  lemma IntentsFitThePosition(t: Tables, job: Job, score: real, actualTs: string, clock: int, id: string)
    requires ScoreBook.Sensible(SizeParams(job.cfg))
    requires Write(t, job, score, actualTs, clock, id).intents != t.intents
    ensures var intent, c := Write(t, job, score, actualTs, clock, id).intents[|t.intents|], job.cfg;
            if intent.isOpen then
              && job.symbol !in t.positions
              && ScoreBook.Abs(score) >= c.entryThreshold && (intent.side.Long? <==> score > 0.0)
              && c.cap * c.minFraction <= intent.target <= c.cap * c.maxFraction
              && intent.maxOrder == intent.target
            else
              && job.symbol in t.positions && t.positions[job.symbol].side == Some(intent.side)
              && intent.target == 0.0 == intent.maxOrder
              && (|| (if intent.side.Long? then score <= -c.exitThreshold else score >= c.exitThreshold)
                  || HeldTooLong(t.positions[job.symbol], job, score))
  {
    hide GateSkip, ProcessedKey, ScoreBook.Notional, HoldingBars;
    ScoreBook.NotionalInRange(score, SizeParams(job.cfg));
  }

  /** Nothing stands in the way: the data is the bar asked for, unprocessed, on fresh and idle state. */
  predicate Clear(t: Tables, job: Job, actualTs: string, clock: int) {
    && actualTs == job.closedTs && ProcessedKey(job) !in t.state
    && t.snapshotAt.Some? && clock - t.snapshotAt.value <= job.maxAge
    && !OverrideActive(t, job.symbol)
    && (forall k :: 0 <= k < |t.intents| && t.intents[k].symbol == job.symbol ==>
          t.intents[k].status !in {Pending, Accepted})
    && (forall k :: 0 <= k < |t.orders| && t.orders[k].symbol == job.symbol && t.orders[k].owned ==>
          t.orders[k].status in FINISHED)
  }

  predicate Readable(t: Tables, symbol: string) {
    symbol in t.positions ==>
      t.positions[symbol].side.Some? && t.positions[symbol].pnl.Some? && t.positions[symbol].openedAt.Some?
  }

  /** Nothing is held, and the score is strong enough either way. */
  predicate WantsOpen(t: Tables, job: Job, score: real) {
    job.symbol !in t.positions && (score >= job.cfg.entryThreshold || -score >= job.cfg.entryThreshold)
  }

  /** The score has turned against the side held, or it was held its time and the score is weak. */
  predicate WantsClose(t: Tables, job: Job, score: real) {
    job.symbol in t.positions &&
    var row := t.positions[job.symbol];
    || (row.side == Some(Long) && score <= -job.cfg.exitThreshold)
    || (row.side == Some(Short) && score >= job.cfg.exitThreshold)
    || HeldTooLong(row, job, score)
  }

  /**
    What one write does, in full: with nothing in the way it inserts an open exactly
    when one is wanted and a close exactly when one is wanted, and otherwise marks
    the bar as no signal; with anything in the way, an unreadable position or a
    taken intent id included, it changes nothing.
  */
  lemma WritesExactly(t: Tables, job: Job, score: real, actualTs: string, clock: int, id: string)
    ensures var u := Write(t, job, score, actualTs, clock, id);
            var clear := Clear(t, job, actualTs, clock) && Readable(t, job.symbol);
            var wants := WantsOpen(t, job, score) || WantsClose(t, job, score);
            && (u.intents != t.intents <==> clear && wants && !IdTaken(t, id))
            && (u.intents != t.intents ==>
                  && |u.intents| == |t.intents| + 1 && u.intents[..|t.intents|] == t.intents
                  && var intent := u.intents[|t.intents|];
                     && intent.id == id && intent.symbol == job.symbol && intent.source == job.source
                     && Unresolved(intent, job.symbol) && (intent.isOpen <==> WantsOpen(t, job, score))
                     && u.state == t.state[ProcessedKey(job) := if intent.isOpen then "open_intent_written"
                                                                else "close_intent_written"])
            && (clear && !wants ==> u == t.(state := t.state[ProcessedKey(job) := "no_signal"]))
            && (!clear || (wants && IdTaken(t, id)) ==> u == t)
  {
    hide ProcessedKey, ScoreBook.Notional, HoldingBars, OverrideActive, IdTaken, DecideIntent, GateSkip, Clear;
    ClearExactly(t, job, actualTs, clock);
    if Readable(t, job.symbol) {
      DecidesExactly(t, job, score);
    }
  }

  lemma ClearExactly(t: Tables, job: Job, actualTs: string, clock: int)
    ensures Clear(t, job, actualTs, clock) <==> actualTs == job.closedTs && GateSkip(t, job, clock).None?
  {
    hide ProcessedKey;
  }

  lemma DecidesExactly(t: Tables, job: Job, score: real)
    requires Readable(t, job.symbol)
    ensures ReadPosition(t, job).Some?
    ensures var read := ReadPosition(t, job).value;
            var decision := DecideIntent(score, read.0, read.1, job.cfg);
            && (decision.Some? <==> WantsOpen(t, job, score) || WantsClose(t, job, score))
            && (decision.Some? ==> (decision.value.isOpen <==> WantsOpen(t, job, score)))
  {
    hide HoldingBars, ScoreBook.Notional;
  }

  /** A skip names a reason that holds. */
  lemma SkipsForTheReasonGiven(t: Tables, job: Job, clock: int)
    requires GateSkip(t, job, clock).Some?
    ensures match GateSkip(t, job, clock).value
            case "already_processed" => ProcessedKey(job) in t.state
            case "skipped_stale_state" => t.snapshotAt.None? || clock > t.snapshotAt.value + job.maxAge
            case "skipped_manual_override" => OverrideActive(t, job.symbol)
            case "skipped_pending_intent" => HasUnresolvedIntent(t, job.symbol)
            case "skipped_pending_order" => HasUnfinishedOrder(t, job.symbol)
            case _ => false
  {
    hide ProcessedKey;
  }

  /** Holding time is the whole bars that fit between opening and close. */
  lemma HoldingBarsFit(openedAt: int, job: Job)
    requires job.barSecs > 0
    ensures var bars := HoldingBars(openedAt, job);
            if openedAt < job.closedAt then
              bars >= 0 && bars * job.barSecs <= job.closedAt - openedAt < (bars + 1) * job.barSecs
            else bars == 0
  {
  }

  predicate HeldTooLong(row: PositionRow, job: Job, score: real) {
    && row.pnl.Some? && row.openedAt.Some?
    && HoldingBars(row.openedAt.value, job) >= job.cfg.maxHoldingBars
    && ScoreBook.Abs(score) < if row.pnl.value >= 0.0 then job.cfg.profitHold else job.cfg.lossHold
  }

  // ----- at most one unresolved intent per symbol

  function UnresolvedCount(intents: seq<Intent>, symbol: string): nat {
    if intents == [] then 0
    else UnresolvedCount(intents[..|intents| - 1], symbol) + if Unresolved(intents[|intents| - 1], symbol) then 1 else 0
  }

  /** The executor only resolves intents: it never adds to a symbol's unresolved ones. */
  predicate OnlyResolves(w: World, ops: seq<Op>, symbol: string) {
    forall k :: 0 <= k < |ops| && ops[k].Executor? ==>
      UnresolvedCount(ops[k].next.intents, symbol) <= UnresolvedCount(Run(w, ops[..k]).tables.intents, symbol)
  }

  lemma {:induction false} NoneUnresolved(intents: seq<Intent>, symbol: string)
    requires forall k :: 0 <= k < |intents| ==> !Unresolved(intents[k], symbol)
    ensures UnresolvedCount(intents, symbol) == 0
  {
    if intents != [] {
      NoneUnresolved(intents[..|intents| - 1], symbol);
    }
  }

  lemma WriteAddsToNone(t: Tables, job: Job, score: real, actualTs: string, clock: int, id: string, symbol: string)
    requires UnresolvedCount(t.intents, symbol) <= 1
    ensures UnresolvedCount(Write(t, job, score, actualTs, clock, id).intents, symbol) <= 1
  {
    hide GateSkip, DecideIntent, ReadPosition, ProcessedKey, IdTaken;
    var u := Write(t, job, score, actualTs, clock, id);
    if u.intents != t.intents {
      InsertsOnlyWhenClear(t, job, score, actualTs, clock, id);
      assert u.intents[..|u.intents| - 1] == t.intents;
      if symbol == job.symbol {
        NoneUnresolved(t.intents, symbol);
      }
    }
  }

  /** With an executor that only resolves, no symbol ever has two unresolved intents, over any run of any daemons. */
  lemma {:induction false} NeverTwoUnresolved(w: World, ops: seq<Op>, symbol: string, k: nat)
    requires k <= |ops| && OnlyResolves(w, ops, symbol) && UnresolvedCount(w.tables.intents, symbol) <= 1
    ensures UnresolvedCount(Run(w, ops[..k]).tables.intents, symbol) <= 1
  {
    hide Write, GateSkip, UnresolvedCount;
    if k > 0 {
      NeverTwoUnresolved(w, ops, symbol, k - 1);
      assert ops[..k][..k - 1] == ops[..k - 1];
      var before, op := Run(w, ops[..k - 1]), ops[k - 1];
      if op.Finish? && op.daemon in before.running {
        WriteAddsToNone(before.tables, before.running[op.daemon], op.score, op.actualTs, op.clock, op.id, symbol);
      }
    }
  }
}
