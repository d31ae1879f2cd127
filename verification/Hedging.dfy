/**
 Hedged calls (governance/hedging/middleware.go): one loop launches up to a maximum of concurrent attempts
 and waits for their results, a timer or the end of the context.
 */
module Hedging {
  import opened Wrappers

  datatype Result = Success | Retryable(error: nat) | Fatal(error: nat)

  datatype Outcome = Answered | FatalError(error: nat) | AllFailed(errors: seq<nat>) | ContextEnded

  /** The variables of the loop; `outcome` is set when it returns. */
  datatype Loop = Loop(launched: nat, active: nat, failures: seq<nat>, timer: bool, outcome: Option<Outcome>)

  function Launched(l: Loop): Loop {
    l.(launched := l.launched + 1, active := l.active + 1)
  }

  function Begin(): Loop {
    Loop(1, 1, [], true, None)
  }

  function Completed(l: Loop, max: nat, r: Result): Loop
    requires l.active > 0
  {
    var l1 := l.(active := l.active - 1);
    match r
    case Success => l1.(outcome := Some(Answered))
    case Fatal(error) => l1.(outcome := Some(FatalError(error)))
    case Retryable(error) =>
      var l2 := l1.(failures := l1.failures + [error]);
      var l3 := if l2.active == 0 && l2.launched < max then Launched(l2) else l2;
      if l3.active == 0 && l3.launched == max then l3.(outcome := Some(AllFailed(l3.failures))) else l3
  }

  function Fired(l: Loop, max: nat): Loop {
    var l1 := if l.launched < max then Launched(l) else l;
    l1.(timer := l1.launched < max)
  }

  // ---------------------------------------------------------------------------
  // The loop and its attempts
  // ---------------------------------------------------------------------------

  /**
   `finished[i]` tells whether attempt `i` has sent its result, `sent` are all results in the order of their
   sending, and the loop has received the first `received` of them.
   */
  datatype World = World(loop: Loop, finished: seq<bool>, sent: seq<Result>, received: nat)

  datatype Event = Finish(attempt: nat, result: Result) | Receive | Tick | EndContext

  function Start(): World {
    World(Begin(), [false], [], 0)
  }

  /** New attempts join the ones already launched. */
  function WithLoop(w: World, l: Loop): World {
    var more := if l.launched > |w.finished| then l.launched - |w.finished| else 0;
    w.(loop := l, finished := w.finished + seq(more, i => false))
  }

  predicate CanReceive(w: World) {
    w.loop.outcome.None? && w.received < |w.sent| && w.loop.active > 0
  }

  /** Results may still arrive after the loop has returned; everything else stops then. */
  function Step(max: nat, w: World, e: Event): World {
    match e
    case Finish(i, result) =>
      if i >= |w.finished| || w.finished[i] then w
      else w.(finished := w.finished[i := true], sent := w.sent + [result])
    case Receive =>
      if !CanReceive(w) then w
      else WithLoop(w.(received := w.received + 1), Completed(w.loop, max, w.sent[w.received]))
    case Tick =>
      if w.loop.outcome.Some? || !w.loop.timer then w else WithLoop(w, Fired(w.loop, max))
    case EndContext =>
      if w.loop.outcome.Some? then w else w.(loop := w.loop.(outcome := Some(ContextEnded)))
  }

  function Run(max: nat, es: seq<Event>): World {
    if es == [] then Start() else Step(max, Run(max, es[..|es| - 1]), es[|es| - 1])
  }

  ghost function Count(flags: seq<bool>): nat {
    if flags == [] then 0 else (if flags[0] then 1 else 0) + Count(flags[1..])
  }

  lemma {:induction false} CountSet(flags: seq<bool>, i: nat)
    requires i < |flags| && !flags[i]
    ensures Count(flags[i := true]) == Count(flags) + 1 && Count(flags) < |flags|
    decreases |flags|
  {
    CountBound(flags[1..]);
    if i == 0 {
      assert flags[i := true][1..] == flags[1..];
    } else {
      assert flags[i := true][1..] == flags[1..][i - 1 := true];
      CountSet(flags[1..], i - 1);
    }
  }

  lemma {:induction false} CountBound(flags: seq<bool>)
    ensures Count(flags) <= |flags|
    ensures Count(flags) == |flags| <==> forall i | 0 <= i < |flags| :: flags[i]
    decreases |flags|
  {
    if flags != [] {
      var rest := flags[1..];
      CountBound(rest);
      assert forall i | 0 <= i < |rest| :: rest[i] == flags[i + 1];
      forall i | 1 <= i < |flags| ensures flags[i] == rest[i - 1] {
      }
    }
  }

  lemma {:induction false} CountAppend(flags: seq<bool>, n: nat)
    ensures Count(flags + seq(n, i => false)) == Count(flags)
    decreases |flags| + n
  {
    var more := seq(n, i => false);
    if flags != [] {
      assert (flags + more)[1..] == flags[1..] + more;
      CountAppend(flags[1..], n);
    } else if n > 0 {
      assert (flags + more)[1..] == flags + seq(n - 1, i => false);
      CountAppend(flags, n - 1);
    }
  }

  ghost function Errors(results: seq<Result>): seq<nat>
    requires forall i | 0 <= i < |results| :: results[i].Retryable?
  {
    seq(|results|, i requires 0 <= i < |results| => results[i].error)
  }

  /** All received results were retryable failures, and the loop has kept every one. */
  ghost predicate FailedSoFar(w: World)
    requires w.received <= |w.sent|
  {
    && (forall i | 0 <= i < w.received :: w.sent[i].Retryable?)
    && w.loop.failures == Errors(w.sent[..w.received])
  }

  ghost predicate Good(max: nat, w: World) {
    && 1 <= w.loop.launched <= max
    && |w.finished| == w.loop.launched
    && |w.sent| == Count(w.finished) && w.received <= |w.sent|
    && w.loop.active == w.loop.launched - w.received
    && (w.loop.outcome.None? ==> w.loop.active > 0 && FailedSoFar(w))
    && (w.loop.outcome.Some? && w.loop.outcome.value.AllFailed? ==>
      w.loop.launched == max && w.received == max && FailedSoFar(w) &&
      w.loop.outcome.value.errors == w.loop.failures)
  }

  lemma FinishIsGood(max: nat, w: World, i: nat, result: Result)
    requires Good(max, w) && i < |w.finished| && !w.finished[i]
    ensures Good(max, Step(max, w, Finish(i, result)))
  {
    CountSet(w.finished, i);
    assert (w.sent + [result])[..w.received] == w.sent[..w.received];
  }

  /** One more retryable failure received. */
  lemma OneMoreFailure(w: World)
    requires w.received < |w.sent| && FailedSoFar(w) && w.sent[w.received].Retryable?
    ensures forall i | 0 <= i < w.received + 1 :: w.sent[i].Retryable?
    ensures Errors(w.sent[..w.received + 1]) == w.loop.failures + [w.sent[w.received].error]
  {
  }

  lemma ReceiveIsGood(max: nat, w: World)
    requires Good(max, w) && CanReceive(w)
    ensures Good(max, Step(max, w, Receive))
  {
    CountAppend(w.finished, 0);
    CountAppend(w.finished, 1);
    CountBound(w.finished);
    if w.sent[w.received].Retryable? {
      OneMoreFailure(w);
    }
  }

  lemma StepIsGood(max: nat, w: World, e: Event)
    requires Good(max, w)
    ensures Good(max, Step(max, w, e))
  {
    match e
    case Finish(i, result) => if i < |w.finished| && !w.finished[i] { FinishIsGood(max, w, i, result); }
    case Receive => if CanReceive(w) { ReceiveIsGood(max, w); }
    case Tick =>
      CountAppend(w.finished, 0);
      CountAppend(w.finished, 1);
    case EndContext =>
  }

  lemma {:induction false} EveryRunIsGood(max: nat, es: seq<Event>)
    requires max >= 1
    ensures Good(max, Run(max, es))
  {
    if es != [] {
      EveryRunIsGood(max, es[..|es| - 1]);
      StepIsGood(max, Run(max, es[..|es| - 1]), es[|es| - 1]);
    }
  }

  // ---------------------------------------------------------------------------
  // Named consequences
  // ---------------------------------------------------------------------------

  /** Never more attempts than allowed, and the loop only waits while some attempt is still out. */
  lemma {:induction false} AttemptsAreBounded(max: nat, es: seq<Event>)
    requires max >= 1
    ensures var w := Run(max, es);
            && w.loop.launched <= max
            && (w.loop.outcome.None? ==> w.loop.active > 0)
  {
    EveryRunIsGood(max, es);
  }

  /** An attempt about to send finds room in a buffer of `max` results, even after the loop has returned. */
  lemma {:induction false} SendsNeverBlock(max: nat, es: seq<Event>, i: nat)
    requires max >= 1 && i < |Run(max, es).finished| && !Run(max, es).finished[i]
    ensures |Run(max, es).sent| - Run(max, es).received < max
  {
    EveryRunIsGood(max, es);
    CountSet(Run(max, es).finished, i);
  }

  /** A waiting loop has a result to receive or an attempt that has yet to send one. */
  lemma {:induction false} NeverStuck(max: nat, es: seq<Event>)
    requires max >= 1 && Run(max, es).loop.outcome.None?
    ensures var w := Run(max, es);
            w.received < |w.sent| || exists i | 0 <= i < |w.finished| :: !w.finished[i]
  {
    EveryRunIsGood(max, es);
    CountBound(Run(max, es).finished);
  }

  /** The joined error means that every allowed attempt was made and failed retryably, and it holds all their errors. */
  lemma {:induction false} JoinedErrorIsComplete(max: nat, es: seq<Event>)
    requires max >= 1
    requires var o := Run(max, es).loop.outcome; o.Some? && o.value.AllFailed?
    ensures var w := Run(max, es);
            && w.loop.launched == max && |w.sent| == max && |w.finished| == max
            && (forall i | 0 <= i < max :: w.finished[i] && w.sent[i].Retryable?)
            && w.loop.outcome.value.errors == Errors(w.sent)
  {
    EveryRunIsGood(max, es);
    var w := Run(max, es);
    CountBound(w.finished);
    assert w.sent[..w.received] == w.sent;
  }

  /** The outcome, by the results received: the last one decides, and all earlier ones were retryable failures. */
  ghost predicate Decided(max: nat, w: World) {
    && w.received <= |w.sent|
    && (forall i | 0 <= i < w.received - 1 :: w.sent[i].Retryable?)
    && (w.loop.outcome == Some(Answered) <==> w.received > 0 && w.sent[w.received - 1] == Success)
    && (forall error :: w.loop.outcome == Some(FatalError(error)) <==>
                          w.received > 0 && w.sent[w.received - 1] == Fatal(error))
    && (w.loop.outcome.Some? && w.loop.outcome.value.AllFailed? <==>
      w.received == max && (w.received > 0 ==> w.sent[w.received - 1].Retryable?))
    && (w.loop.outcome.None? && w.loop.launched < max ==> w.loop.timer)
  }

  lemma StepIsDecided(max: nat, w: World, e: Event)
    requires max >= 1 && Good(max, w) && Decided(max, w)
    ensures Decided(max, Step(max, w, e))
  {
    CountBound(w.finished);
  }

  /** In every run: a success received answers the call, a fatal error ends it, and all failing ends it as joined. */
  lemma {:induction false} LastResultDecides(max: nat, es: seq<Event>)
    requires max >= 1
    ensures Decided(max, Run(max, es))
  {
    if es != [] {
      var init := es[..|es| - 1];
      EveryRunIsGood(max, init);
      LastResultDecides(max, init);
      StepIsDecided(max, Run(max, init), es[|es| - 1]);
    }
  }

  /** While the call waits and attempts are left, a tick of the timer launches one; otherwise it launches none. */
  lemma {:induction false} TimerLaunches(max: nat, es: seq<Event>)
    requires max >= 1
    ensures var l, l' := Run(max, es).loop, Step(max, Run(max, es), Tick).loop;
            && l'.launched == l.launched + (if l.outcome.None? && l.launched < max then 1 else 0)
            && l'.outcome == l.outcome
            && (l.outcome.None? && l.timer ==> (l'.timer <==> l'.launched < max))
  {
    LastResultDecides(max, es);
  }

  /** A retryable failure launches the next attempt at once exactly if no other attempt is out and some are left. */
  lemma {:induction false} FailureLaunches(max: nat, es: seq<Event>)
    requires max >= 1 && CanReceive(Run(max, es)) && Run(max, es).sent[Run(max, es).received].Retryable?
    ensures var w, w' := Run(max, es), Step(max, Run(max, es), Receive);
            && w'.received == w.received + 1
            && w'.loop.launched ==
               w.loop.launched + (if w.loop.launched == w.received + 1 && w.loop.launched < max then 1 else 0)
            && (w'.loop.outcome.None? <==> w.received + 1 < max)
  {
    EveryRunIsGood(max, es);
  }

  // ---------------------------------------------------------------------------
  // The loop itself
  // ---------------------------------------------------------------------------

  datatype Signal = Done | Result(result: Result) | Timer

  /** One turn of the select, unless the loop is over; a signal of a timer that is not set never comes. */
  function Turn(l: Loop, max: nat, s: Signal): Loop {
    if l.outcome.Some? || l.active == 0 then l
    else
      match s
      case Done => l.(outcome := Some(ContextEnded))
      case Result(r) => Completed(l, max, r)
      case Timer => if l.timer then Fired(l, max) else l
  }

  function Turns(l: Loop, max: nat, signals: seq<Signal>): Loop
    decreases |signals|
  {
    if signals == [] then l else Turns(Turn(l, max, signals[0]), max, signals[1..])
  }

  lemma {:induction false} TurnsAppend(l: Loop, max: nat, signals: seq<Signal>, s: Signal)
    ensures Turns(l, max, signals + [s]) == Turn(Turns(l, max, signals), max, s)
    decreases |signals|
  {
    if signals == [] {
      assert [s][1..] == [];
    } else {
      assert (signals + [s])[1..] == signals[1..] + [s];
      TurnsAppend(Turn(l, max, signals[0]), max, signals[1..], s);
    }
  }

  lemma {:induction false} OverIsOver(l: Loop, max: nat, signals: seq<Signal>)
    requires l.outcome.Some?
    ensures Turns(l, max, signals) == l
    decreases |signals|
  {
    if signals != [] {
      OverIsOver(l, max, signals[1..]);
    }
  }

  /** What the loop hears of an event: the next result, the timer, or the end of the context. */
  function Heard(w: World, e: Event): seq<Signal> {
    match e
    case Finish(_, _) => []
    case Receive => if CanReceive(w) then [Result(w.sent[w.received])] else []
    case Tick => if w.loop.outcome.Some? || !w.loop.timer then [] else [Timer]
    case EndContext => if w.loop.outcome.Some? then [] else [Done]
  }

  function AllHeard(max: nat, es: seq<Event>): seq<Signal> {
    if es == [] then [] else AllHeard(max, es[..|es| - 1]) + Heard(Run(max, es[..|es| - 1]), es[|es| - 1])
  }

  /** One event moves the loop as the signal it is heard as does, if it is heard. */
  lemma HeardMoves(max: nat, w: World, e: Event)
    requires w.loop.outcome.None? ==> w.loop.active > 0
    ensures Heard(w, e) == [] ==> Step(max, w, e).loop == w.loop
    ensures Heard(w, e) != [] ==>
      Heard(w, e) == [Heard(w, e)[0]] && Step(max, w, e).loop == Turn(w.loop, max, Heard(w, e)[0])
  {
  }

  /** The loop of any run is where the signals it heard take it, so `Invoke` returns what the run says. */
  lemma {:induction false} RunFollowsSignals(max: nat, es: seq<Event>)
    requires max >= 1
    ensures Run(max, es).loop == Turns(Begin(), max, AllHeard(max, es))
  {
    if es != [] {
      var init, e := es[..|es| - 1], es[|es| - 1];
      var w := Run(max, init);
      RunFollowsSignals(max, init);
      EveryRunIsGood(max, init);
      HeardMoves(max, w, e);
      if Heard(w, e) == [] {
        assert AllHeard(max, es) == AllHeard(max, init);
      } else {
        TurnsAppend(Begin(), max, AllHeard(max, init), Heard(w, e)[0]);
      }
    }
  }

  /** Runs until the call returns or the signals end; it never leaves the loop by running out of attempts. */
  method Invoke(max: nat, signals: seq<Signal>) returns (outcome: Option<Outcome>, launched: nat)
    requires max >= 1
    ensures outcome == Turns(Begin(), max, signals).outcome && launched == Turns(Begin(), max, signals).launched
    ensures launched <= max
    ensures outcome.None? ==> Turns(Begin(), max, signals).active > 0
  {
    launched := 1;
    var active, timer := 1, true;
    var failures: seq<nat> := [];
    outcome := None;
    var k := 0;
    while active > 0 && outcome.None? && k < |signals|
      invariant k <= |signals| && launched <= max && (outcome.None? ==> active > 0)
      invariant Turns(Begin(), max, signals) ==
        Turns(Loop(launched, active, failures, timer, outcome), max, signals[k..])
      decreases |signals| - k
    {
      assert signals[k..][0] == signals[k] && signals[k..][1..] == signals[k + 1..];
      match signals[k] {
        case Done =>
          outcome := Some(ContextEnded);
        case Result(completed) =>
          active := active - 1;
          match completed {
            case Success => outcome := Some(Answered);
            case Fatal(error) => outcome := Some(FatalError(error));
            case Retryable(error) =>
              failures := failures + [error];
              if active == 0 && launched < max {
                launched, active := launched + 1, active + 1;
              }
              if active == 0 && launched == max {
                outcome := Some(AllFailed(failures));
              }
          }
        case Timer =>
          if timer {
            if launched < max {
              launched, active := launched + 1, active + 1;
            }
            timer := launched < max;
          }
      }
      k := k + 1;
    }
    if outcome.Some? {
      OverIsOver(Loop(launched, active, failures, timer, outcome), max, signals[k..]);
    }
  }
}
