/**
  Close-all by confirmation: a start stores a hashed code for its user, and a
  confirm within sixty seconds queues one command for the executor the start saw.
  A history interleaves any users with any changes to the executor's lock rows.
*/
module CloseAll {
  import opened Common
  import ActiveLock

  const CONFIRM_MS := 60_000
  const HEARTBEAT_MS := 30_000

  datatype Target = Target(mode: string, instance: string)

  datatype Command = Command(command: string, requestedBy: string, target: Target)

  /** The row stored per user, as the parsed value; `Unreadable` is text that is none of these. */
  datatype Confirm = Pending(requestedBy: string, codeHash: string, expiresMs: int, target: Target)
                   | Accepting(requestedBy: string)
                   | Used(requestedBy: string)
                   | Cancelled(requestedBy: string)
                   | Unreadable

  datatype Db = Db(confirms: map<string, Confirm>, queue: seq<Command>, lock: ActiveLock.Table)

  datatype Reply = Generated | Queued | CancelledReply | Expired | Rejected(reason: string) | Failed | NoReply

  /** Clocks are read separately: the caller's, and one for each look at the executor's heartbeat. */
  datatype Op = StartOp(user: string, code: string, now: int, seen: Option<Target>)
              | ConfirmOp(user: string, code: string, now: int, look: ActiveLock.Millis, lookAgain: ActiveLock.Millis)
              | CancelOp(user: string, code: string, now: int)
              | LockChanges(lock: ActiveLock.Table)

  /** Who is running, if the lock rows are complete, sensible and beaten within thirty seconds. */
  function ActiveTarget(t: ActiveLock.Table, now: ActiveLock.Millis): Option<Target> {
    if !ActiveLock.AllPresent(t) || t.instance.value == "" || t.mode.value !in {"demo", "live"} then None
    else match t.heartbeat.value
      case Corrupt => None
      case At(ms) =>
        if ActiveLock.SaturatingSub(now, ms) > HEARTBEAT_MS then None
        else Some(Target(t.mode.value, t.instance.value))
  }

  /**
    The executor counts as active exactly while nobody could take its lock over:
    the same thirty seconds decide both, and the target named is the holder.
  */
  lemma ActiveExactlyWhileLockHolds(t: ActiveLock.Table, who: ActiveLock.Who, now: ActiveLock.Millis)
    requires ActiveLock.Whole(t)
    requires t != ActiveLock.UNLOCKED ==> t.mode.value in {"demo", "live"} && t.instance.value != ""
    ensures ActiveTarget(t, now).Some? <==> !ActiveLock.Succeeds(t, ActiveLock.Acquire(who, now, HEARTBEAT_MS))
    ensures ActiveTarget(t, now).Some? ==>
              ActiveLock.HeldBy(t, ActiveLock.Who(ActiveTarget(t, now).value.mode, ActiveTarget(t, now).value.instance))
  {
  }

  /** The checks confirming and cancelling share: the reason to refuse, if any. */
  function Refusal(hash: string -> string, db: Db, user: string, code: string, now: int): Option<Reply> {
    if user !in db.confirms then Some(Rejected("missing"))
    else match db.confirms[user]
      case Unreadable => Some(Rejected("invalid_state"))
      case Accepting(owner) => Some(Rejected(if owner != user then "wrong_user" else "invalid_state"))
      case Used(owner) => Some(Rejected(if owner != user then "wrong_user" else "used"))
      case Cancelled(owner) => Some(Rejected(if owner != user then "wrong_user" else "cancelled"))
      case Pending(owner, codeHash, expiresMs, _) =>
        if owner != user then Some(Rejected("wrong_user"))
        else if now >= expiresMs then Some(Expired)
        else if codeHash != hash(code) then Some(Rejected("bad_code"))
        else None
  }

  function ReplyTo(hash: string -> string, db: Db, op: Op): Reply {
    match op
    case StartOp(_, _, _, seen) => if seen.None? then Failed else Generated
    case ConfirmOp(user, code, now, look, lookAgain) =>
      (match Refusal(hash, db, user, code, now)
       case Some(reply) => reply
       case None =>
         if ActiveTarget(db.lock, look) != Some(db.confirms[user].target) then Rejected("stale")
         else if ActiveTarget(db.lock, lookAgain).None? then Failed
         else Queued)
    case CancelOp(user, code, now) =>
      (match Refusal(hash, db, user, code, now)
       case Some(reply) => reply
       case None => CancelledReply)
    case LockChanges(_) => NoReply
  }

  function Step(hash: string -> string, db: Db, op: Op): Db {
    match op
    case StartOp(user, code, now, seen) =>
      if seen.None? then db
      else db.(confirms := db.confirms[user := Pending(user, hash(code), now + CONFIRM_MS, seen.value)])
    case ConfirmOp(user, code, now, look, lookAgain) =>
      if !ReplyTo(hash, db, op).Queued? then db
      else Db(db.confirms[user := Used(user)],
              db.queue + [Command("close_all", user, ActiveTarget(db.lock, lookAgain).value)], db.lock)
    case CancelOp(user, code, now) =>
      if !ReplyTo(hash, db, op).CancelledReply? then db
      else db.(confirms := db.confirms[user := Cancelled(user)])
    case LockChanges(lock) => db.(lock := lock)
  }

  /** The tables; each method is one savepoint, rolled back as a whole when it fails. */
  class Tables {
    var confirms: map<string, Confirm>
    var queue: seq<Command>
    var lock: ActiveLock.Table

    function State(): Db reads this {
      Db(confirms, queue, lock)
    }

    /** The executor was looked up before the savepoint that stores the confirmation. */
    method Start(ghost hash: string -> string, user: string, code: string, codeHash: string, now: int,
                 seen: Option<Target>)
      returns (reply: Reply)
      requires codeHash == hash(code)
      modifies this`confirms
      ensures reply == ReplyTo(hash, old(State()), StartOp(user, code, now, seen))
      ensures State() == Step(hash, old(State()), StartOp(user, code, now, seen))
    {
      match seen {
        case None => return Failed;
        case Some(target) =>
          confirms := confirms[user := Pending(user, codeHash, now + CONFIRM_MS, target)];
          return Generated;
      }
    }

    method Check(ghost hash: string -> string, user: string, code: string, codeHash: string, now: int)
      returns (refusal: Option<Reply>)
      requires codeHash == hash(code)
      ensures refusal == Refusal(hash, State(), user, code, now)
    {
      if user !in confirms { return Some(Rejected("missing")); }
      var row := confirms[user];
      if row.Unreadable? { return Some(Rejected("invalid_state")); }
      if row.requestedBy != user { return Some(Rejected("wrong_user")); }
      match row {
        case Pending(_, expected, expiresMs, _) =>
          if now >= expiresMs { return Some(Expired); }
          if expected != codeHash { return Some(Rejected("bad_code")); }
          return None;
        case Used(_) => return Some(Rejected("used"));
        case Cancelled(_) => return Some(Rejected("cancelled"));
        case Accepting(_) => return Some(Rejected("invalid_state"));
      }
    }

    /** Look up the executor again and queue for it; without one nothing is queued. */
    method QueueControlCommand(command: string, user: string, now: ActiveLock.Millis) returns (r: Result<()>)
      modifies this`queue
      ensures r.Ok? <==> ActiveTarget(lock, now).Some?
      ensures queue == if r.Ok? then old(queue) + [Command(command, user, ActiveTarget(lock, now).value)]
                       else old(queue)
    {
      var target := ActiveTarget(lock, now);
      if target.None? { return Err("no active executor"); }
      queue := queue + [Command(command, user, target.value)];
      return Ok(());
    }

    method ConfirmCloseAll(ghost hash: string -> string, user: string, code: string, codeHash: string, now: int,
                           look: ActiveLock.Millis, lookAgain: ActiveLock.Millis)
      returns (reply: Reply)
      requires codeHash == hash(code)
      modifies this
      ensures reply == ReplyTo(hash, old(State()), ConfirmOp(user, code, now, look, lookAgain))
      ensures State() == Step(hash, old(State()), ConfirmOp(user, code, now, look, lookAgain))
    {
      var refusal := Check(hash, user, code, codeHash, now);
      if refusal.Some? { return refusal.value; }
      var raw := confirms[user];
      var target := ActiveTarget(lock, look);
      if target.None? || raw.target != target.value { return Rejected("stale"); }
      var savepoint := confirms;
      confirms := confirms[user := Accepting(user)];
      var queued := QueueControlCommand("close_all", user, lookAgain);
      if queued.Err? {
        confirms := savepoint;
        return Failed;
      }
      confirms := confirms[user := Used(user)];
      assert confirms == savepoint[user := Used(user)];
      return Queued;
    }

    method CancelCloseAll(ghost hash: string -> string, user: string, code: string, codeHash: string, now: int)
      returns (reply: Reply)
      requires codeHash == hash(code)
      modifies this`confirms
      ensures reply == ReplyTo(hash, old(State()), CancelOp(user, code, now))
      ensures State() == Step(hash, old(State()), CancelOp(user, code, now))
    {
      var refusal := Check(hash, user, code, codeHash, now);
      if refusal.Some? { return refusal.value; }
      confirms := confirms[user := Cancelled(user)];
      return CancelledReply;
    }
  }

  // ----- histories

  const EMPTY := Db(map[], [], ActiveLock.UNLOCKED)

  function Run(hash: string -> string, ops: seq<Op>): Db {
    if ops == [] then EMPTY else Step(hash, Run(hash, ops[..|ops| - 1]), ops[|ops| - 1])
  }

  ghost predicate Injective(hash: string -> string) {
    forall a, b :: hash(a) == hash(b) ==> a == b
  }

  predicate Queues(hash: string -> string, ops: seq<Op>, j: nat)
    requires j < |ops|
  {
    ops[j].ConfirmOp? && ReplyTo(hash, Run(hash, ops[..j]), ops[j]).Queued?
  }

  /** At k the user's confirmation is replaced, cancelled or used. */
  predicate Settles(hash: string -> string, ops: seq<Op>, k: nat, user: string)
    requires k < |ops|
  {
    !ops[k].LockChanges? && ops[k].user == user &&
    match ops[k]
    case StartOp(_, _, _, seen) => seen.Some?
    case ConfirmOp(_, _, _, _, _) => ReplyTo(hash, Run(hash, ops[..k]), ops[k]).Queued?
    case CancelOp(_, _, _) => ReplyTo(hash, Run(hash, ops[..k]), ops[k]).CancelledReply?
    case LockChanges(_) => false
  }

  predicate UntouchedSince(hash: string -> string, ops: seq<Op>, i: nat, j: nat, user: string)
    requires j <= |ops|
  {
    forall k :: i < k < j ==> !Settles(hash, ops, k, user)
  }

  /** The start at i is the one in force for this user after the first j steps. */
  predicate InForce(hash: string -> string, ops: seq<Op>, i: nat, j: nat, user: string)
    requires j <= |ops|
  {
    i < j && ops[i].StartOp? && ops[i].user == user && ops[i].seen.Some? && UntouchedSince(hash, ops, i, j, user)
  }

  function Promise(hash: string -> string, op: Op): Confirm
    requires op.StartOp? && op.seen.Some?
  {
    Pending(op.user, hash(op.code), op.now + CONFIRM_MS, op.seen.value)
  }

  /** A pending row is exactly what the start in force stored. */
  lemma {:induction false} StartInForceIsPending(hash: string -> string, ops: seq<Op>, i: nat, j: nat, user: string)
    requires j <= |ops| && InForce(hash, ops, i, j, user)
    ensures user in Run(hash, ops[..j]).confirms && Run(hash, ops[..j]).confirms[user] == Promise(hash, ops[i])
  {
    hide ReplyTo;
    assert ops[..j][..j - 1] == ops[..j - 1];
    if i < j - 1 {
      StartInForceIsPending(hash, ops, i, j - 1, user);
      assert !Settles(hash, ops, j - 1, user);
    }
  }

  lemma {:induction false} PendingHasAStart(hash: string -> string, ops: seq<Op>, j: nat, user: string)
    requires j <= |ops| && user in Run(hash, ops[..j]).confirms && Run(hash, ops[..j]).confirms[user].Pending?
    ensures exists i :: 0 <= i < j && InForce(hash, ops, i, j, user)
  {
    hide ReplyTo;
    if j > 0 {
      assert ops[..j][..j - 1] == ops[..j - 1];
      if Settles(hash, ops, j - 1, user) {
        assert InForce(hash, ops, j - 1, j, user);
      } else {
        PendingHasAStart(hash, ops, j - 1, user);
        var i :| 0 <= i < j - 1 && InForce(hash, ops, i, j - 1, user);
        assert InForce(hash, ops, i, j, user);
      }
    }
  }

  /** What a confirm needs: the code of the start in force, in time, and the same executor active at both looks. */
  predicate Answers(hash: string -> string, ops: seq<Op>, i: nat, j: nat)
    requires j < |ops|
  {
    && ops[j].ConfirmOp? && InForce(hash, ops, i, j, ops[j].user)
    && ops[j].code == ops[i].code && ops[j].now < ops[i].now + CONFIRM_MS
    && ActiveTarget(Run(hash, ops[..j]).lock, ops[j].look) == ops[i].seen
    && ActiveTarget(Run(hash, ops[..j]).lock, ops[j].lookAgain) == ops[i].seen
  }

  lemma SameTargetWheneverSeen(t: ActiveLock.Table, a: ActiveLock.Millis, b: ActiveLock.Millis)
    requires ActiveTarget(t, a).Some? && ActiveTarget(t, b).Some?
    ensures ActiveTarget(t, a) == ActiveTarget(t, b)
  {
  }

  /**
    A confirm queues a command exactly when it answers the start in force: right
    code, not expired, not cancelled, used or superseded, and the executor active
    now is the one seen then. The command is addressed to that executor.
  */
  lemma QueuesExactlyWhenAnswering(hash: string -> string, ops: seq<Op>, j: nat)
    requires Injective(hash) && j < |ops|
    ensures Queues(hash, ops, j) <==> exists i :: 0 <= i < j && Answers(hash, ops, i, j)
    ensures forall i :: 0 <= i < j && Answers(hash, ops, i, j) ==>
              Run(hash, ops[..j + 1]).queue
              == Run(hash, ops[..j]).queue + [Command("close_all", ops[j].user, ops[i].seen.value)]
  {
    hide ActiveTarget;
    assert ops[..j + 1][..j] == ops[..j];
    var db := Run(hash, ops[..j]);
    if Queues(hash, ops, j) {
      var user := ops[j].user;
      PendingHasAStart(hash, ops, j, user);
      var i :| 0 <= i < j && InForce(hash, ops, i, j, user);
      StartInForceIsPending(hash, ops, i, j, user);
      SameTargetWheneverSeen(db.lock, ops[j].look, ops[j].lookAgain);
      assert Answers(hash, ops, i, j);
    }
    forall i | 0 <= i < j && Answers(hash, ops, i, j) ensures Queues(hash, ops, j) {
      StartInForceIsPending(hash, ops, i, j, ops[j].user);
    }
  }

  /** A confirm or cancel of this user comes while the start at i is in force. */
  predicate Meets(hash: string -> string, ops: seq<Op>, i: nat, j: nat)
    requires j < |ops|
  {
    (ops[j].ConfirmOp? || ops[j].CancelOp?) && InForce(hash, ops, i, j, ops[j].user)
  }

  predicate NoneInForce(hash: string -> string, ops: seq<Op>, n: nat, user: string)
    requires n <= |ops|
  {
    forall i: nat | i < n :: !InForce(hash, ops, i, n, user)
  }

  predicate InTime(ops: seq<Op>, i: nat, j: nat)
    requires i < |ops| && j < |ops| && ops[i].StartOp? && (ops[j].ConfirmOp? || ops[j].CancelOp?)
  {
    ops[j].now < ops[i].now + CONFIRM_MS
  }

  /**
    A confirm or cancel finds its start's sixty seconds over, or gives the wrong
    code, exactly when the user is told so; and a cancel takes effect exactly when
    it gives the code of the start in force in time, whoever runs the executor.
  */
  lemma AnsweredExactly(hash: string -> string, ops: seq<Op>, i: nat, j: nat)
    requires Injective(hash) && j < |ops| && Meets(hash, ops, i, j)
    ensures var reply := ReplyTo(hash, Run(hash, ops[..j]), ops[j]);
            && (reply == Expired <==> !InTime(ops, i, j))
            && (reply == Rejected("bad_code") <==> InTime(ops, i, j) && ops[j].code != ops[i].code)
            && (ops[j].CancelOp? ==>
                  (reply == CancelledReply <==> InTime(ops, i, j) && ops[j].code == ops[i].code))
  {
    hide ActiveTarget, Run;
    StartInForceIsPending(hash, ops, i, j, ops[j].user);
  }

  /** A cancel takes effect exactly when it answers a start in force, and leaves nothing to confirm. */
  lemma CancelsExactlyWhenAnswering(hash: string -> string, ops: seq<Op>, j: nat)
    requires Injective(hash) && j < |ops| && ops[j].CancelOp?
    ensures ReplyTo(hash, Run(hash, ops[..j]), ops[j]).CancelledReply? <==>
              exists i :: 0 <= i < j && Meets(hash, ops, i, j) && InTime(ops, i, j) && ops[j].code == ops[i].code
    ensures ReplyTo(hash, Run(hash, ops[..j]), ops[j]).CancelledReply? ==>
              NoneInForce(hash, ops, j + 1, ops[j].user)
  {
    hide ActiveTarget, InTime;
    var reply := ReplyTo(hash, Run(hash, ops[..j]), ops[j]);
    if reply.CancelledReply? {
      PendingHasAStart(hash, ops, j, ops[j].user);
      var i :| 0 <= i < j && InForce(hash, ops, i, j, ops[j].user);
      AnsweredExactly(hash, ops, i, j);
      assert Settles(hash, ops, j, ops[j].user);
    }
    forall i | 0 <= i < j && Meets(hash, ops, i, j) && InTime(ops, i, j) && ops[j].code == ops[i].code
      ensures reply.CancelledReply?
    {
      AnsweredExactly(hash, ops, i, j);
    }
  }

  /** Nothing else ever adds to the queue. */
  lemma OnlyConfirmsQueue(hash: string -> string, ops: seq<Op>, j: nat)
    requires j < |ops| && !Queues(hash, ops, j)
    ensures Run(hash, ops[..j + 1]).queue == Run(hash, ops[..j]).queue
  {
    assert ops[..j + 1][..j] == ops[..j];
  }

  /** One generated confirmation queues at most one command. */
  lemma AtMostOneCommandPerStart(hash: string -> string, ops: seq<Op>, i: nat, j: nat, k: nat)
    requires Injective(hash) && i < j < |ops| && i < k < |ops|
    requires Answers(hash, ops, i, j) && Answers(hash, ops, i, k)
    ensures j == k
  {
    hide Run, ActiveTarget, Answers, Settles;
    AnswerSettlesTheStart(hash, ops, i, j);
    AnswerSettlesTheStart(hash, ops, i, k);
  }

  lemma AnswerSettlesTheStart(hash: string -> string, ops: seq<Op>, i: nat, j: nat)
    requires Injective(hash) && i < j < |ops| && Answers(hash, ops, i, j)
    ensures InForce(hash, ops, i, j, ops[i].user) && Settles(hash, ops, j, ops[i].user)
  {
    hide Run, ActiveTarget, Injective;
    QueuesExactlyWhenAnswering(hash, ops, j);
  }
}
