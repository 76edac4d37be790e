/**
  The per-intent state machine: maker, confirmed cancel, maker again, then taker.
  `IntentExecution` is the object the driver mutates; `Machine` is its value,
  on which whole runs are reasoned about.
*/
module Execution {
  datatype Command = PlaceMaker(attempt: nat) | CancelCurrent | PlaceTaker | MarkIntentExecuted | Wait

  datatype Machine = Machine(makerAttempts: nat, hasLiveOrder: bool, needsCancelConfirmation: bool,
                             filled: bool, takerSent: bool)

  const START := Machine(0, false, false, false, false)

  function NextCommand(m: Machine, makers: nat): Command {
    if m.filled then MarkIntentExecuted
    else if m.needsCancelConfirmation then CancelCurrent
    else if m.hasLiveOrder then Wait
    else if m.makerAttempts < makers then PlaceMaker(m.makerAttempts + 1)
    else if !m.takerSent then PlaceTaker
    else Wait
  }

  function Placed(m: Machine): Machine {
    m.(hasLiveOrder := true, needsCancelConfirmation := false)
  }

  function TakerSent(m: Machine): Machine {
    m.(takerSent := true, hasLiveOrder := true)
  }

  function TimedOut(m: Machine): Machine {
    m.(needsCancelConfirmation := true)
  }

  function Cancelled(m: Machine): Machine {
    m.(hasLiveOrder := false, needsCancelConfirmation := false, makerAttempts := m.makerAttempts + 1)
  }

  function Filled(m: Machine): Machine {
    m.(filled := true, hasLiveOrder := false, needsCancelConfirmation := false)
  }

  class IntentExecution {
    var makerAttempts: nat
    var hasLiveOrder: bool
    var needsCancelConfirmation: bool
    var filled: bool
    var takerSent: bool

    function View(): Machine
      reads this
    {
      Machine(makerAttempts, hasLiveOrder, needsCancelConfirmation, filled, takerSent)
    }

    constructor ()
      ensures View() == START
    {
      makerAttempts, hasLiveOrder, needsCancelConfirmation, filled, takerSent := 0, false, false, false, false;
    }

    method OnOrderPlaced()
      modifies this
      ensures View() == Placed(old(View()))
    {
      hasLiveOrder, needsCancelConfirmation := true, false;
    }

    method OnTakerSent()
      modifies this
      ensures View() == TakerSent(old(View()))
    {
      takerSent, hasLiveOrder := true, true;
    }

    method OnOrderTimeout()
      modifies this
      ensures View() == TimedOut(old(View()))
    {
      needsCancelConfirmation := true;
    }

    method OnOrderCancelled()
      modifies this
      ensures View() == Cancelled(old(View()))
    {
      hasLiveOrder, needsCancelConfirmation := false, false;
      makerAttempts := makerAttempts + 1;
    }

    method OnOrderFilled()
      modifies this
      ensures View() == Filled(old(View()))
    {
      filled, hasLiveOrder, needsCancelConfirmation := true, false, false;
    }
  }

  // ----- runs of the driver

  /** What carrying out the commanded step can turn the machine into, when the driver goes on. */
  predicate Step(makers: nat, m: Machine, m': Machine) {
    match NextCommand(m, makers)
    case PlaceMaker(_) => m' == Filled(m) || m' == Filled(Placed(m)) || m' == TimedOut(Placed(m))
    case CancelCurrent => m' == Filled(m) || m' == Cancelled(m)
    case PlaceTaker => m' == Filled(m) || m' == Filled(TakerSent(m))
    case MarkIntentExecuted => false
    case Wait => false
  }

  /** The machines at which one execution issued its commands, oldest first. */
  ghost predicate Run(makers: nat, run: seq<Machine>) {
    && run != [] && run[0] == START
    && forall i :: 0 <= i < |run| - 1 ==> Step(makers, run[i], run[i + 1])
  }

  /** How many commands bring a fresh machine to this one, at most. */
  function Progress(m: Machine): nat {
    2 * m.makerAttempts + (if m.needsCancelConfirmation then 1 else 0)
  }

  ghost predicate Reachable(makers: nat, m: Machine) {
    && m.makerAttempts <= makers
    && (m.needsCancelConfirmation ==> m.makerAttempts < makers)
    && (!m.filled ==> m.hasLiveOrder == m.needsCancelConfirmation && !m.takerSent)
    && (m.filled ==> !m.hasLiveOrder && !m.needsCancelConfirmation)
  }

  lemma {:induction false} RunInvariant(makers: nat, run: seq<Machine>)
    requires Run(makers, run)
    ensures var m := run[|run| - 1];
            && Reachable(makers, m)
            && (if m.filled then |run| - 1 <= 2 * makers + 1 else |run| - 1 == Progress(m))
  {
    if |run| > 1 {
      var before := run[..|run| - 1];
      RunInvariant(makers, before);
      assert Step(makers, run[|run| - 2], run[|run| - 1]);
    }
  }

  /** The driver never idles, and never cancels without an order to cancel. */
  lemma NeverWaitsNeverCancelsNothing(makers: nat, run: seq<Machine>, i: nat)
    requires Run(makers, run) && i < |run|
    ensures NextCommand(run[i], makers) != Wait
    ensures NextCommand(run[i], makers) == CancelCurrent ==> run[i].hasLiveOrder
  {
    RunInvariant(makers, run[..i + 1]);
  }

  /** Every maker attempt from 1 to `makers` timed out and was cancelled, in order. */
  lemma {:induction false} MakersExhausted(makers: nat, k: nat) returns (run: seq<Machine>)
    requires k <= makers
    ensures Run(makers, run) && |run| == 2 * k + 1
    ensures run[2 * k] == START.(makerAttempts := k)
  {
    if k == 0 {
      run := [START];
    } else {
      var before := MakersExhausted(makers, k - 1);
      var idle := before[|before| - 1];
      run := before + [TimedOut(Placed(idle)), Cancelled(TimedOut(Placed(idle)))];
    }
  }

  lemma LongestRun(makers: nat) returns (run: seq<Machine>)
    ensures Run(makers, run) && |run| == 2 * makers + 2
  {
    var before := MakersExhausted(makers, makers);
    run := before + [Filled(TakerSent(before[|before| - 1]))];
  }

  /**
    A cap on issued commands never cuts an execution short exactly when it allows
    two per maker attempt, one taker and one closing command.
  */
  lemma CapNeverHitIff(makers: nat, cap: nat)
    ensures (forall run :: Run(makers, run) ==> |run| <= cap) <==> 2 * makers + 2 <= cap
  {
    if 2 * makers + 2 <= cap {
      forall run | Run(makers, run) ensures |run| <= cap {
        RunInvariant(makers, run);
      }
    } else {
      var run := LongestRun(makers);
      assert Run(makers, run);
    }
  }

  /** A machine that has used up or is on attempt `k` was asked for every attempt up to it. */
  lemma {:induction false} AttemptsWereAsked(makers: nat, run: seq<Machine>, k: nat)
    requires Run(makers, run) && 1 <= k
    requires var m := run[|run| - 1]; k <= m.makerAttempts || (m.needsCancelConfirmation && k == m.makerAttempts + 1)
    ensures exists j :: 0 <= j < |run| - 1 && NextCommand(run[j], makers) == PlaceMaker(k)
  {
    var n := |run| - 1;
    if n > 0 {
      var before := run[..n];
      assert Step(makers, run[n - 1], run[n]) && before[|before| - 1] == run[n - 1];
      RunInvariant(makers, before);
      if NextCommand(run[n - 1], makers) != PlaceMaker(k) {
        AttemptsWereAsked(makers, before, k);
        var j :| 0 <= j < |before| - 1 && NextCommand(before[j], makers) == PlaceMaker(k);
        assert run[j] == before[j];
      }
    }
  }

  /** The taker is a last resort: every maker attempt was asked for before it. */
  lemma TakerAfterEveryMaker(makers: nat, run: seq<Machine>, i: nat, k: nat)
    requires Run(makers, run) && i < |run| && NextCommand(run[i], makers) == PlaceTaker && 1 <= k <= makers
    ensures exists j :: 0 <= j < i && NextCommand(run[j], makers) == PlaceMaker(k)
  {
    var upTo := run[..i + 1];
    AttemptsWereAsked(makers, upTo, k);
    var j :| 0 <= j < i && NextCommand(upTo[j], makers) == PlaceMaker(k);
    assert run[j] == upTo[j];
  }

  /** A run asks for each maker attempt at most once and in order, and for the taker at most once. */
  lemma PlacementsAreDistinct(makers: nat, run: seq<Machine>, i: nat, j: nat)
    requires Run(makers, run) && i < j < |run|
    ensures var a, b := NextCommand(run[i], makers), NextCommand(run[j], makers);
            && (a.PlaceMaker? && b.PlaceMaker? ==> a.attempt < b.attempt <= makers)
            && !(a.PlaceTaker? && (b.PlaceTaker? || b.PlaceMaker?))
  {
    RunInvariant(makers, run[..i + 1]);
    RunInvariant(makers, run[..j + 1]);
  }
}
