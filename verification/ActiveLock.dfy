/**
  The active-executor lock: four rows of the state table, taken over when the
  heartbeat is stale. Each method is one transaction; a history is any interleaving
  of any number of instances.
*/
module ActiveLock {
  import opened Common

  const I64_MAX := 0x7fff_ffff_ffff_ffff
  const I64_MIN := -0x8000_0000_0000_0000

  type Millis = x: int | I64_MIN <= x <= I64_MAX

  /** The heartbeat row is text and may not parse. */
  datatype Beat = Corrupt | At(ms: Millis)

  datatype Who = Who(mode: string, instance: string)

  datatype Table = Table(mode: Option<string>, instance: Option<string>,
                         startedAt: Option<Millis>, heartbeat: Option<Beat>)

  const UNLOCKED := Table(None, None, None, None)

  datatype Op = Acquire(who: Who, now: Millis, timeout: Millis)
              | Heartbeat(who: Who, now: Millis)
              | Release(who: Who)

  function SaturatingSub(a: Millis, b: Millis): Millis {
    if a - b > I64_MAX then I64_MAX else if a - b < I64_MIN then I64_MIN else a - b
  }

  predicate HeldBy(t: Table, who: Who) {
    t.mode == Some(who.mode) && t.instance == Some(who.instance)
  }

  predicate Stale(t: Table, now: Millis, timeout: Millis) {
    t.heartbeat.Some? && t.heartbeat.value.At? && SaturatingSub(now, t.heartbeat.value.ms) > timeout
  }

  predicate AllPresent(t: Table) {
    t.mode.Some? && t.instance.Some? && t.startedAt.Some? && t.heartbeat.Some?
  }

  predicate Succeeds(t: Table, op: Op) {
    match op
    case Acquire(_, now, timeout) => t == UNLOCKED || (AllPresent(t) && Stale(t, now, timeout))
    case Heartbeat(who, _) => HeldBy(t, who) && t.heartbeat.Some?
    case Release(who) => HeldBy(t, who)
  }

  function Apply(t: Table, op: Op): Table {
    if !Succeeds(t, op) then t
    else match op
      case Acquire(who, now, _) => Table(Some(who.mode), Some(who.instance), Some(now), Some(At(now)))
      case Heartbeat(_, now) => t.(heartbeat := Some(At(now)))
      case Release(_) => UNLOCKED
  }

  function Run(t: Table, ops: seq<Op>): Table {
    if ops == [] then t else Apply(Run(t, ops[..|ops| - 1]), ops[|ops| - 1])
  }

  /** The rows themselves, changed by the three transactions. */
  class StateTable {
    var mode: Option<string>
    var instance: Option<string>
    var startedAt: Option<Millis>
    var heartbeat: Option<Beat>

    function Rows(): Table reads this {
      Table(mode, instance, startedAt, heartbeat)
    }

    method TryAcquire(who: Who, now: Millis, timeout: Millis) returns (r: Result<()>)
      modifies this
      ensures Rows() == Apply(old(Rows()), Acquire(who, now, timeout))
      ensures r.Ok? <==> Succeeds(old(Rows()), Acquire(who, now, timeout))
    {
      match (mode, instance, startedAt, heartbeat) {
        case (None, None, None, None) =>
        case (Some(oldMode), Some(oldInstance), Some(_), Some(beat)) =>
          match beat {
            case Corrupt => return Err("active executor lock corrupt heartbeat");
            case At(oldMs) =>
              if SaturatingSub(now, oldMs) <= timeout {
                return Err("active executor lock held by " + oldMode + "/" + oldInstance);
              }
          }
        case _ => return Err("active executor lock state incomplete");
      }
      mode, instance := Some(who.mode), Some(who.instance);
      startedAt, heartbeat := Some(now), Some(At(now));
      return Ok(());
    }

    method Beats(who: Who, now: Millis) returns (ok: bool)
      modifies this`heartbeat
      ensures Rows() == Apply(old(Rows()), Heartbeat(who, now))
      ensures ok == Succeeds(old(Rows()), Heartbeat(who, now))
    {
      ok := heartbeat.Some? && mode == Some(who.mode) && instance == Some(who.instance);
      if ok {
        heartbeat := Some(At(now));
      }
    }

    method GiveUp(who: Who) returns (ok: bool)
      modifies this
      ensures Rows() == Apply(old(Rows()), Release(who))
      ensures ok == Succeeds(old(Rows()), Release(who))
    {
      ok := mode == Some(who.mode) && instance == Some(who.instance);
      if ok {
        mode, instance, startedAt, heartbeat := None, None, None, None;
      }
    }

    /** Whatever other instances do to the rows meanwhile. */
    method OthersAct(others: seq<Op>)
      modifies this
      ensures Rows() == Run(old(Rows()), others)
    {
      var i := 0;
      while i < |others|
        invariant 0 <= i <= |others| && Rows() == Run(old(Rows()), others[..i])
      {
        assert others[..i + 1][..i] == others[..i];
        var t := Apply(Rows(), others[i]);
        mode, instance, startedAt, heartbeat := t.mode, t.instance, t.startedAt, t.heartbeat;
        i := i + 1;
      }
      assert others[..i] == others;
    }
  }

  /** One executor process: its ticks, and how often it ran the queues. */
  class Daemon {
    const who: Who
    const rows: StateTable
    var queueRuns: nat
    var stopped: bool

    constructor (who: Who, rows: StateTable)
      ensures this.who == who && this.rows == rows && queueRuns == 0 && !stopped
    {
      this.who, this.rows, queueRuns, stopped := who, rows, 0, false;
    }

    /**
      Heartbeat first: without the lock the process stops and nothing runs. With it,
      the queues run once, even if others take the lock over while reconciliation
      goes on in between; only the next heartbeat notices.
    */
    method Tick(now: Millis, others: seq<Op>) returns (r: Result<()>)
      requires !stopped
      modifies this, rows
      ensures r.Ok? <==> HeldBy(old(rows.Rows()), who) && old(rows.heartbeat).Some?
      ensures queueRuns == old(queueRuns) + (if r.Ok? then 1 else 0) && (stopped <==> r.Err?)
      ensures rows.Rows()
           == if r.Ok? then Run(Apply(old(rows.Rows()), Heartbeat(who, now)), others) else old(rows.Rows())
    {
      var held := rows.Beats(who, now);
      if !held {
        stopped := true;
        return Err("active executor lock lost");
      }
      rows.OthersAct(others);
      queueRuns := queueRuns + 1;
      return Ok(());
    }
  }

  // ----- the four rows

  predicate Whole(t: Table) {
    t == UNLOCKED || (AllPresent(t) && t.heartbeat.value.At?)
  }

  /** The four rows are all present, with a readable heartbeat, or all absent, after any history. */
  lemma {:induction false} AlwaysWhole(t: Table, ops: seq<Op>)
    requires Whole(t)
    ensures Whole(Run(t, ops))
  {
    if ops != [] {
      AlwaysWhole(t, ops[..|ops| - 1]);
    }
  }

  /** Whoever got the lock may beat it, and give it up again; then anybody may take it, and beat it in turn. */
  lemma LockChangesHands(t: Table, op: Op, next: Who, a: Millis, b: Millis, timeout: Millis)
    requires op.Acquire? && Succeeds(t, op)
    ensures var held := Apply(t, op);
            && HeldBy(held, op.who) && Succeeds(held, Heartbeat(op.who, a)) && Succeeds(held, Release(op.who))
            && held.startedAt == Some(op.now) == Apply(held, Heartbeat(op.who, a)).startedAt
            && (next != op.who ==> !Succeeds(held, Heartbeat(next, a)) && !Succeeds(held, Release(next)))
    ensures var freed := Apply(Apply(t, op), Release(op.who));
            && Succeeds(freed, Acquire(next, b, timeout))
            && HeldBy(Apply(freed, Acquire(next, b, timeout)), next)
            && Succeeds(Apply(freed, Acquire(next, b, timeout)), Heartbeat(next, b))
  {
  }

  // ----- a deposed owner

  predicate NeverAcquires(ops: seq<Op>, who: Who, from: nat, upto: nat)
    requires from <= upto <= |ops|
  {
    forall j :: from <= j < upto && ops[j].Acquire? ==> ops[j].who != who
  }

  /**
    Once an instance does not hold the lock, and it does not acquire again, none of
    its heartbeats and releases ever succeeds or changes a row.
  */
  lemma {:induction false} DeposedStaysDeposed(t: Table, ops: seq<Op>, who: Who, from: nat, k: nat)
    requires from <= k <= |ops|
    requires !HeldBy(Run(t, ops[..from]), who) && NeverAcquires(ops, who, from, k)
    ensures !HeldBy(Run(t, ops[..k]), who)
    ensures k < |ops| && !ops[k].Acquire? && ops[k].who == who ==>
              !Succeeds(Run(t, ops[..k]), ops[k]) && Run(t, ops[..k + 1]) == Run(t, ops[..k])
  {
    if from < k {
      DeposedStaysDeposed(t, ops, who, from, k - 1);
      assert ops[..k][..k - 1] == ops[..k - 1];
    }
    assert k < |ops| ==> ops[..k + 1][..k] == ops[..k];
  }

  /** A heartbeat the owner of the lock sent successfully: the tick after it runs the queues. */
  predicate TickAt(t: Table, ops: seq<Op>, k: nat, who: Who) {
    k < |ops| && ops[k].Heartbeat? && ops[k].who == who && Succeeds(Run(t, ops[..k]), ops[k])
  }

  /** Ticks of different instances never alternate: once another one ticked, the old one's heartbeats fail. */
  lemma TicksDoNotAlternate(t: Table, ops: seq<Op>, a: Who, b: Who, i: nat, j: nat, k: nat)
    requires i < j < k && TickAt(t, ops, i, a) && TickAt(t, ops, j, b) && a != b
    requires k < |ops| && NeverAcquires(ops, a, i, k)
    ensures !TickAt(t, ops, k, a)
  {
    hide Run;
    assert !HeldBy(Run(t, ops[..j]), a);
    DeposedStaysDeposed(t, ops, a, j, k);
  }

  /** Between two ticks of one session nobody else held the lock at any moment. */
  lemma SoleOwnerBetweenTicks(t: Table, ops: seq<Op>, who: Who, i: nat, k: nat)
    requires i < k && TickAt(t, ops, i, who) && TickAt(t, ops, k, who) && NeverAcquires(ops, who, i, k)
    ensures forall j :: i <= j <= k ==> HeldBy(Run(t, ops[..j]), who)
  {
    hide Run, HeldBy;
    forall j | i <= j <= k ensures HeldBy(Run(t, ops[..j]), who) {
      if !HeldBy(Run(t, ops[..j]), who) {
        DeposedStaysDeposed(t, ops, who, j, k);
      }
    }
  }

  // ----- ticks and the queue runs they lead to

  /** A tick begins with its heartbeat; its queue run comes later, after anything others do in between. */
  datatype Event = Rows(op: Op) | BeginTick(who: Who, now: Millis) | RunQueues(who: Who)

  /** The rows, and the instances between a successful heartbeat and their queue run. */
  datatype World = World(table: Table, underway: set<Who>)

  predicate RunsNow(w: World, e: Event) {
    e.RunQueues? && e.who in w.underway
  }

  function Step(w: World, e: Event): World {
    match e
    case Rows(op) => w.(table := Apply(w.table, op))
    case BeginTick(who, now) =>
      var beat := Heartbeat(who, now);
      World(Apply(w.table, beat), if Succeeds(w.table, beat) then w.underway + {who} else w.underway - {who})
    case RunQueues(who) => w.(underway := w.underway - {who})
  }

  function After(w: World, events: seq<Event>, n: nat): World
    requires n <= |events|
  {
    if n == 0 then w else Step(After(w, events, n - 1), events[n - 1])
  }

  predicate AcquiresNever(events: seq<Event>, who: Who, from: nat, upto: nat)
    requires from <= upto <= |events|
  {
    forall j :: from <= j < upto && events[j].Rows? && events[j].op.Acquire? ==> events[j].op.who != who
  }

  /** At step k the instance runs the queues. */
  predicate RunsAt(w: World, events: seq<Event>, k: nat, who: Who) {
    k < |events| && events[k] == RunQueues(who) && RunsNow(After(w, events, k), events[k])
  }

  /** A tick of the instance that found the lock held at h is the one whose queues are still to run at k. */
  predicate TickOf(w: World, events: seq<Event>, h: nat, k: nat, who: Who)
    requires k <= |events|
  {
    && h < k && events[h].BeginTick? && events[h].who == who
    && HeldBy(After(w, events, h).table, who)
    && forall j :: h < j < k ==> events[j] != RunQueues(who)
  }

  /** Every queue run belongs to a tick of its own, whose heartbeat found the lock held. */
  lemma {:induction false} EveryRunHasItsTick(w: World, events: seq<Event>, k: nat, who: Who)
    requires k <= |events| && who in After(w, events, k).underway && who !in w.underway
    ensures exists h :: 0 <= h < k && TickOf(w, events, h, k, who)
  {
    hide Apply;
    if k > 0 {
      var before, e := After(w, events, k - 1), events[k - 1];
      if e.BeginTick? && e.who == who {
        assert TickOf(w, events, k - 1, k, who);
      } else {
        EveryRunHasItsTick(w, events, k - 1, who);
        var h :| 0 <= h < k - 1 && TickOf(w, events, h, k - 1, who);
        assert TickOf(w, events, h, k, who);
      }
    }
  }

  /** Without the lock, and not acquiring it, an instance starts no tick that leads to a queue run. */
  lemma {:induction false} NoTickWithoutTheLock(w: World, events: seq<Event>, who: Who, from: nat, k: nat)
    requires from <= k <= |events| && AcquiresNever(events, who, from, k)
    requires !HeldBy(After(w, events, from).table, who)
    ensures !HeldBy(After(w, events, k).table, who)
    ensures who !in After(w, events, from).underway ==> who !in After(w, events, k).underway
  {
    if from < k {
      NoTickWithoutTheLock(w, events, who, from, k - 1);
    }
  }

  /**
    Once an instance has lost the lock, only the tick it was in the middle of still
    runs the queues: a run after the loss belongs to a tick that began before it,
    and there is no second one.
  */
  lemma LoserRunsAtMostOnceMore(w: World, events: seq<Event>, who: Who, lost: nat, j: nat, k: nat)
    requires w.underway == {} && lost <= j <= k && lost <= |events|
    requires !HeldBy(After(w, events, lost).table, who) && AcquiresNever(events, who, lost, |events|)
    requires RunsAt(w, events, j, who) && RunsAt(w, events, k, who)
    ensures j == k
    ensures who in After(w, events, lost).underway
    ensures exists h :: 0 <= h < lost && TickOf(w, events, h, j, who)
  {
    hide HeldBy, Apply;
    NoTickWithoutTheLock(w, events, who, lost, j);
    if j < k {
      NoTickWithoutTheLock(w, events, who, lost, j + 1);
      NoTickWithoutTheLock(w, events, who, j + 1, k);
    }
    EveryRunHasItsTick(w, events, j, who);
    var h :| 0 <= h < j && TickOf(w, events, h, j, who);
    if h >= lost {
      NoTickWithoutTheLock(w, events, who, lost, h);
    }
  }

  // ----- an owner that beats in time

  /** Time does not run backwards over the transactions. */
  predicate SharedClock(ops: seq<Op>) {
    forall i, j :: 0 <= i < j < |ops| && !ops[i].Release? && !ops[j].Release? ==> ops[i].now <= ops[j].now
  }

  predicate BeatOf(op: Op, who: Who) {
    !op.Release? && op.who == who
  }

  /** Every attempt to acquire in the range comes at most the stale timeout after an earlier beat of the owner. */
  predicate BeatsInTime(ops: seq<Op>, who: Who, from: nat, upto: nat)
    requires from < upto <= |ops|
  {
    forall j :: from < j < upto && ops[j].Acquire? ==>
      exists h :: from <= h < j && BeatOf(ops[h], who) && ops[j].now - ops[h].now <= ops[j].timeout
  }

  predicate KeepsIt(ops: seq<Op>, who: Who, from: nat, upto: nat)
    requires from < upto <= |ops|
  {
    forall j :: from < j < upto ==> ops[j] != Release(who) && (ops[j].Acquire? ==> ops[j].who != who)
  }

  /** What the beating owner's row shows: its own latest beat, no older than any it has sent. */
  predicate HeldFresh(t: Table, ops: seq<Op>, who: Who, from: nat, k: nat)
    requires from < k <= |ops|
  {
    && HeldBy(t, who) && AllPresent(t) && t.heartbeat.value.At?
    && forall h :: from <= h < k && BeatOf(ops[h], who) ==> ops[h].now <= t.heartbeat.value.ms
  }

  lemma HeldFreshStep(t: Table, ops: seq<Op>, who: Who, from: nat, k: nat)
    requires from < k < |ops| && HeldFresh(t, ops, who, from, k)
    requires SharedClock(ops) && BeatsInTime(ops, who, from, k + 1) && KeepsIt(ops, who, from, k + 1)
    ensures HeldFresh(Apply(t, ops[k]), ops, who, from, k + 1)
    ensures ops[k].Acquire? ==> !Succeeds(t, ops[k])
  {
    var op := ops[k];
    if op.Acquire? {
      var h :| from <= h < k && BeatOf(ops[h], who) && op.now - ops[h].now <= op.timeout;
      assert ops[h].now <= t.heartbeat.value.ms;
    }
  }

  lemma FreshAtFirst(t: Table, ops: seq<Op>, who: Who, from: nat)
    requires from < |ops| && Whole(t) && BeatOf(ops[from], who) && Succeeds(t, ops[from])
    ensures HeldFresh(Apply(t, ops[from]), ops, who, from, from + 1)
  {
  }

  lemma FreshIsHeld(t: Table, ops: seq<Op>, who: Who, from: nat, k: nat)
    requires from < k <= |ops| && HeldFresh(t, ops, who, from, k)
    ensures HeldBy(t, who)
  {
  }

  lemma ShorterRange(ops: seq<Op>, who: Who, from: nat, k: nat)
    requires from + 1 < k <= |ops| && BeatsInTime(ops, who, from, k) && KeepsIt(ops, who, from, k)
    ensures BeatsInTime(ops, who, from, k - 1) && KeepsIt(ops, who, from, k - 1)
  {
  }

  /**
    From a successful acquire or heartbeat on, an owner whose gaps between beats
    never exceed the timeout is never displaced, whoever else tries.
  */
  lemma {:induction false} NeverDisplaced(t: Table, ops: seq<Op>, who: Who, from: nat, k: nat)
    requires Whole(t) && from < k <= |ops| && BeatOf(ops[from], who) && Succeeds(Run(t, ops[..from]), ops[from])
    requires SharedClock(ops) && BeatsInTime(ops, who, from, k) && KeepsIt(ops, who, from, k)
    ensures HeldBy(Run(t, ops[..k]), who)
    ensures HeldFresh(Run(t, ops[..k]), ops, who, from, k)
    ensures forall j :: from < j < k && ops[j].Acquire? ==> !Succeeds(Run(t, ops[..j]), ops[j])
  {
    hide SharedClock, BeatsInTime, KeepsIt, HeldFresh, Whole, Apply, Succeeds;
    assert ops[..k][..k - 1] == ops[..k - 1];
    if from == k - 1 {
      AlwaysWhole(t, ops[..from]);
      FreshAtFirst(Run(t, ops[..from]), ops, who, from);
    } else {
      ShorterRange(ops, who, from, k);
      NeverDisplaced(t, ops, who, from, k - 1);
      HeldFreshStep(Run(t, ops[..k - 1]), ops, who, from, k - 1);
    }
    FreshIsHeld(Run(t, ops[..k]), ops, who, from, k);
  }

  /** And only then: a takeover of a readable lock is granted exactly when the last beat is older than the timeout. */
  lemma DisplacedExactlyWhenStale(t: Table, who: Who, now: Millis, timeout: Millis)
    requires Whole(t) && t != UNLOCKED && timeout < I64_MAX
    ensures HeldBy(Apply(t, Acquire(who, now, timeout)), who) && Succeeds(t, Acquire(who, now, timeout))
            <==> now - t.heartbeat.value.ms > timeout
  {
    var gap := now - t.heartbeat.value.ms;
    assert SaturatingSub(now, t.heartbeat.value.ms) > timeout <==> gap > timeout;
  }
}
