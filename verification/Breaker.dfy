/**
 The circuit breaker (governance/breaker/breaker.go): a generation-stamped state machine whose
 permits may complete late. Times are integers; every event brings its own reading of the clock.
 */
module Breaker {
  import opened Wrappers

  datatype State = Closed | Open | HalfOpen

  datatype Policy = Policy(
    enabled: bool, failureRatio: real, window: int, minRequests: int, openTimeout: int, halfOpenProbes: int)

  predicate ValidPolicy(p: Policy) {
    && 0.0 < p.failureRatio <= 1.0 && p.window > 0 && p.minRequests > 0
    && p.openTimeout > 0 && p.halfOpenProbes > 0
  }

  /** The fields of a breaker; `windowStart` is None for the zero time. */
  datatype Circuit = Circuit(
    state: State, windowStart: Option<int>, requests: nat, failures: nat, openUntil: int,
    probesInFlight: int, probeSuccesses: int, generation: nat)

  function NewCircuit(): Circuit {
    Circuit(Closed, None, 0, 0, 0, 0, 0, 0)
  }

  // ---------------------------------------------------------------------------
  // The critical sections
  // ---------------------------------------------------------------------------

  predicate Rolls(c: Circuit, now: int, window: int) {
    c.windowStart.None? || now - c.windowStart.value >= window || now < c.windowStart.value
  }

  function RollWindow(c: Circuit, now: int, window: int): Circuit {
    if Rolls(c, now, window) then c.(windowStart := Some(now), requests := 0, failures := 0) else c
  }

  function Trip(c: Circuit, now: int, duration: int): Circuit {
    c.(state := Open, openUntil := now + duration, probesInFlight := 0, probeSuccesses := 0,
       generation := c.generation + 1)
  }

  function Recover(c: Circuit, now: int): Circuit {
    c.(state := Closed, windowStart := Some(now), requests := 0, failures := 0, openUntil := 0,
       probesInFlight := 0, probeSuccesses := 0, generation := c.generation + 1)
  }

  datatype Verdict = Unguarded | InvalidPolicy | Rejected | Allowed(state: State, generation: nat)

  /** Timed transitions first: a closed window rolls, an elapsed open period turns half-open. */
  function Advance(c: Circuit, p: Policy, now: int): Circuit {
    match c.state
    case Closed => RollWindow(c, now, p.window)
    case Open =>
      if now < c.openUntil then c else c.(state := HalfOpen, probesInFlight := 0, probeSuccesses := 0)
    case HalfOpen => c
  }

  function Allow(c: Circuit, p: Policy, now: int): (Circuit, Verdict) {
    if !p.enabled then (c, Unguarded)
    else if !ValidPolicy(p) then (c, InvalidPolicy)
    else
      var c1 := Advance(c, p, now);
      if c1.state.Open? then (c1, Rejected)
      else if c1.state.HalfOpen? && c1.probesInFlight >= p.halfOpenProbes then (c1, Rejected)
      else if c1.state.HalfOpen? then
        (c1.(probesInFlight := c1.probesInFlight + 1), Allowed(HalfOpen, c1.generation))
      else (c1, Allowed(Closed, c1.generation))
  }

  /** The failures that trip a breaker after `requests` completions. */
  function Tolerance(p: Policy, requests: int): real {
    p.failureRatio * requests as real
  }

  predicate Trips(c: Circuit, p: Policy) {
    c.requests >= p.minRequests && c.failures as real >= Tolerance(p, c.requests)
  }

  function Complete(c: Circuit, p: Policy, state: State, generation: nat, failed: bool, now: int): Circuit {
    if generation != c.generation || state != c.state then c
    else
      match c.state
      case Closed =>
        var c1 := RollWindow(c, now, p.window);
        var c2 := c1.(requests := c1.requests + 1, failures := c1.failures + if failed then 1 else 0);
        if Trips(c2, p) then Trip(c2, now, p.openTimeout) else c2
      case HalfOpen =>
        var c1 := if c.probesInFlight > 0 then c.(probesInFlight := c.probesInFlight - 1) else c;
        if failed then Trip(c1, now, p.openTimeout)
        else
          var c2 := c1.(probeSuccesses := c1.probeSuccesses + 1);
          if c2.probeSuccesses >= p.halfOpenProbes then Recover(c2, now) else c2
      case Open => c
  }

  // ---------------------------------------------------------------------------
  // Permits in flight
  // ---------------------------------------------------------------------------

  datatype Outcome = Pending | Passed | Failed

  /** A permit handed out; `doneAt` is when it completed, if it has. */
  datatype Issued = Issued(policy: Policy, state: State, generation: nat, outcome: Outcome, doneAt: int)

  function Finished(permit: Issued, failed: bool, now: int): Issued {
    permit.(outcome := if failed then Failed else Passed, doneAt := now)
  }

  /** `window` are the permits completed in the current window of a closed breaker. */
  datatype World = World(circuit: Circuit, permits: map<nat, Issued>, next: nat, window: set<nat>)

  datatype Event = Ask(policy: Policy, now: int) | Done(permit: nat, failed: bool, now: int)

  function Start(): World {
    World(NewCircuit(), map[], 0, {})
  }

  /** A new window begins empty. */
  function Kept(c: Circuit, window: set<nat>, now: int, length: int): set<nat> {
    if Rolls(c, now, length) then {} else window
  }

  function AskWindow(w: World, p: Policy, now: int): set<nat> {
    if w.circuit.state.Closed? && p.enabled && ValidPolicy(p) then Kept(w.circuit, w.window, now, p.window)
    else w.window
  }

  /** A completion joins the window it falls in; a recovered breaker begins with none. */
  function DoneWindow(w: World, id: nat, c': Circuit, now: int): set<nat>
    requires id in w.permits
  {
    var permit := w.permits[id];
    if permit.generation != w.circuit.generation || permit.state != w.circuit.state then w.window
    else if w.circuit.state.Closed? then Kept(w.circuit, w.window, now, permit.policy.window) + {id}
    else if c'.state.Closed? then {}
    else w.window
  }

  /** One Allow, or the first Done of a permit; a repeated or unknown Done changes nothing. */
  function Step(w: World, e: Event): World {
    match e
    case Ask(p, now) =>
      var (c, verdict) := Allow(w.circuit, p, now);
      var w1 := w.(circuit := c, window := AskWindow(w, p, now));
      if verdict.Allowed? then
        w1.(permits := w.permits[w.next := Issued(p, verdict.state, verdict.generation, Pending, 0)],
            next := w.next + 1)
      else w1
    case Done(id, failed, now) =>
      if id !in w.permits || !w.permits[id].outcome.Pending? then w
      else
        var permit := w.permits[id];
        var c := Complete(w.circuit, permit.policy, permit.state, permit.generation, failed, now);
        w.(circuit := c, window := DoneWindow(w, id, c, now),
           permits := w.permits[id := Finished(permit, failed, now)])
  }

  function Run(es: seq<Event>): World {
    if es == [] then Start() else Step(Run(es[..|es| - 1]), es[|es| - 1])
  }

  // ---------------------------------------------------------------------------
  // What every critical section keeps
  // ---------------------------------------------------------------------------

  /** The permits of one generation with one outcome. */
  ghost function Named(permits: map<nat, Issued>, generation: nat, outcome: Outcome): set<nat> {
    set id | id in permits && permits[id].generation == generation && permits[id].outcome == outcome
  }

  /** No permit is from the future, and a generation's permits all carry the state it runs in. */
  ghost predicate Stamped(w: World) {
    && (forall id | id in w.permits :: id < w.next)
    && (forall id | id in w.permits :: w.permits[id].generation <= w.circuit.generation)
    && (forall id | id in w.permits && w.permits[id].generation == w.circuit.generation ::
      w.permits[id].state == w.circuit.state && !w.circuit.state.Open?)
    && (forall a, b | a in w.permits && b in w.permits && w.permits[a].generation == w.permits[b].generation ::
      w.permits[a].state == w.permits[b].state)
    && (forall id | id in w.permits :: ValidPolicy(w.permits[id].policy))
  }

  /** The probe counters against the number of pending, passed and failed permits of the generation. */
  predicate Counts(c: Circuit, pending: nat, passed: nat, failed: nat) {
    match c.state
    case Closed => c.probesInFlight == 0 && c.probeSuccesses == 0
    case Open => c.probesInFlight == 0 && c.probeSuccesses == 0 && pending == passed == failed == 0
    case HalfOpen => c.probesInFlight == pending && c.probeSuccesses == passed && failed == 0
  }

  ghost function Size(permits: map<nat, Issued>, generation: nat, outcome: Outcome): nat {
    |Named(permits, generation, outcome)|
  }

  ghost predicate Counted(w: World) {
    var g := w.circuit.generation;
    Counts(w.circuit, Size(w.permits, g, Pending), Size(w.permits, g, Passed), Size(w.permits, g, Failed))
  }

  /** The failed ones among some permits. */
  ghost function FailedOf(permits: map<nat, Issued>, ids: set<nat>): set<nat> {
    set id | id in ids && id in permits && permits[id].outcome.Failed?
  }

  /** Closed, the window holds completed permits of the generation, and the counters are their numbers. */
  ghost predicate Windowed(w: World) {
    w.circuit.state.Closed? ==>
      && (forall id | id in w.window ::
        id in w.permits && w.permits[id].generation == w.circuit.generation && !w.permits[id].outcome.Pending?)
      && w.circuit.requests == |w.window|
      && w.circuit.failures == |FailedOf(w.permits, w.window)|
  }

  ghost predicate Good(w: World) {
    Stamped(w) && Counted(w) && Windowed(w)
  }

  lemma AllowCounts(c: Circuit, p: Policy, now: int, pending: nat, passed: nat, failed: nat)
    requires Counts(c, pending, passed, failed)
    ensures var (c', verdict) := Allow(c, p, now);
            && c'.generation == c.generation
            && Counts(c', pending + (if verdict.Allowed? then 1 else 0), passed, failed)
            && (verdict.Allowed? ==> ValidPolicy(p) && verdict == Allowed(c'.state, c.generation)
                                     && (c'.state == c.state || (c.state.Open? && c'.state.HalfOpen?)))
            && (c.state.Open? || c'.state == c.state) && (c'.state.Open? ==> c.state.Open?)
  {
  }

  lemma CompleteCounts(c: Circuit, p: Policy, failed: bool, now: int, pending: nat, passed: nat, failures: nat)
    requires Counts(c, pending, passed, failures) && pending > 0 && !c.state.Open?
    ensures var c' := Complete(c, p, c.state, c.generation, failed, now);
            if c'.generation == c.generation then
              && c'.state == c.state
              && Counts(c', pending - 1,
                        if failed then passed else passed + 1, if failed then failures + 1 else failures)
            else c'.generation == c.generation + 1 && Counts(c', 0, 0, 0)
  {
  }

  lemma NewPermit(permits: map<nat, Issued>, id: nat, issued: Issued)
    requires id !in permits && issued.outcome.Pending?
    ensures var permits', g := permits[id := issued], issued.generation;
            && Size(permits', g, Pending) == Size(permits, g, Pending) + 1
            && Size(permits', g, Passed) == Size(permits, g, Passed)
            && Size(permits', g, Failed) == Size(permits, g, Failed)
  {
    var permits', g := permits[id := issued], issued.generation;
    assert Named(permits', g, Pending) == Named(permits, g, Pending) + {id};
    assert Named(permits', g, Passed) == Named(permits, g, Passed);
    assert Named(permits', g, Failed) == Named(permits, g, Failed);
  }

  lemma PermitDone(permits: map<nat, Issued>, id: nat, failed: bool, now: int)
    requires id in permits && permits[id].outcome.Pending?
    ensures var permits' := permits[id := Finished(permits[id], failed, now)];
            var g := permits[id].generation;
            && Size(permits, g, Pending) > 0
            && Size(permits', g, Pending) == Size(permits, g, Pending) - 1
            && Size(permits', g, Passed) == Size(permits, g, Passed) + (if failed then 0 else 1)
            && Size(permits', g, Failed) == Size(permits, g, Failed) + (if failed then 1 else 0)
    ensures var permits' := permits[id := Finished(permits[id], failed, now)];
            forall g, o {:trigger Size(permits', g, o)} | g != permits[id].generation ::
              Size(permits', g, o) == Size(permits, g, o)
  {
    var outcome := if failed then Failed else Passed;
    var permits', g := permits[id := Finished(permits[id], failed, now)], permits[id].generation;
    assert id in Named(permits, g, Pending);
    assert Named(permits', g, Pending) == Named(permits, g, Pending) - {id};
    assert Named(permits', g, outcome) == Named(permits, g, outcome) + {id};
    var other := if failed then Passed else Failed;
    assert Named(permits', g, other) == Named(permits, g, other);
    forall g', o | g' != g ensures Size(permits', g', o) == Size(permits, g', o) {
      assert Named(permits', g', o) == Named(permits, g', o);
    }
  }

  /** A generation that has not begun has no permits. */
  lemma FutureIsEmpty(permits: map<nat, Issued>, g: nat)
    requires forall id | id in permits :: permits[id].generation < g
    ensures Size(permits, g, Pending) == Size(permits, g, Passed) == Size(permits, g, Failed) == 0
  {
    assert Named(permits, g, Pending) == {} && Named(permits, g, Passed) == {} && Named(permits, g, Failed) == {};
  }

  lemma AskIsWindowed(w: World, p: Policy, now: int)
    requires Good(w)
    ensures Windowed(Step(w, Ask(p, now)))
  {
    var w' := Step(w, Ask(p, now));
    if w'.circuit.state.Closed? {
      assert FailedOf(w'.permits, w'.window) == FailedOf(w.permits, w'.window);
      assert FailedOf(w.permits, {}) == {};
    }
  }

  lemma AskIsGood(w: World, p: Policy, now: int)
    requires Good(w)
    ensures Good(Step(w, Ask(p, now)))
  {
    var g := w.circuit.generation;
    var (c, verdict) := Allow(w.circuit, p, now);
    AllowCounts(w.circuit, p, now,
                Size(w.permits, g, Pending), Size(w.permits, g, Passed), Size(w.permits, g, Failed));
    if verdict.Allowed? {
      NewPermit(w.permits, w.next, Issued(p, verdict.state, verdict.generation, Pending, 0));
    }
    AskIsWindowed(w, p, now);
  }

  lemma DoneIsCounted(w: World, id: nat, failed: bool, now: int)
    requires Good(w) && id in w.permits && w.permits[id].outcome.Pending?
    ensures var c, c' := w.circuit, Step(w, Done(id, failed, now)).circuit;
            && Counted(Step(w, Done(id, failed, now)))
            && (w.permits[id].generation != c.generation ==> c' == c)
            && (c'.generation == c.generation ==> c'.state == c.state)
            && c.generation <= c'.generation <= c.generation + 1
  {
    var g, permits' := w.circuit.generation, Step(w, Done(id, failed, now)).permits;
    PermitDone(w.permits, id, failed, now);
    if w.permits[id].generation == g {
      CompleteCounts(w.circuit, w.permits[id].policy, failed, now,
                     Size(w.permits, g, Pending), Size(w.permits, g, Passed), Size(w.permits, g, Failed));
      FutureIsEmpty(permits', g + 1);
    }
  }

  lemma OneMoreCompleted(permits: map<nat, Issued>, ids: set<nat>, id: nat, done: Issued)
    requires id !in ids
    ensures |ids + {id}| == |ids| + 1
    ensures |FailedOf(permits[id := done], ids + {id})| ==
            |FailedOf(permits, ids)| + if done.outcome.Failed? then 1 else 0
  {
    var more := if done.outcome.Failed? then {id} else {};
    assert FailedOf(permits[id := done], ids + {id}) == FailedOf(permits, ids) + more;
    assert id !in FailedOf(permits, ids);
  }

  /** A completion in the closed state adds its permit to the window and to the counters. */
  lemma CompletionJoinsWindow(w: World, id: nat, failed: bool, now: int)
    requires Good(w) && w.circuit.state.Closed? && id in w.permits && w.permits[id].outcome.Pending?
    requires w.permits[id].generation == w.circuit.generation
    ensures var c, p, w' := w.circuit, w.permits[id].policy, Step(w, Done(id, failed, now));
            var c1 := RollWindow(c, now, p.window);
            && c1.requests + 1 == |w'.window|
            && c1.failures + (if failed then 1 else 0) == |FailedOf(w'.permits, w'.window)|
            && (forall x | x in w'.window ::
              x in w'.permits && w'.permits[x].generation == c.generation && !w'.permits[x].outcome.Pending?)
  {
    var permit := w.permits[id];
    assert permit.state == w.circuit.state;
    OneMoreCompleted(w.permits, Kept(w.circuit, w.window, now, permit.policy.window), id,
                     Finished(permit, failed, now));
    assert FailedOf(w.permits, {}) == {};
  }

  lemma DoneIsWindowed(w: World, id: nat, failed: bool, now: int)
    requires Good(w) && id in w.permits && w.permits[id].outcome.Pending?
    ensures Windowed(Step(w, Done(id, failed, now)))
  {
    var w' := Step(w, Done(id, failed, now));
    if w.permits[id].generation != w.circuit.generation {
      assert w.circuit.state.Closed? ==> FailedOf(w'.permits, w.window) == FailedOf(w.permits, w.window);
    } else if w.circuit.state.Closed? {
      CompletionJoinsWindow(w, id, failed, now);
    } else {
      assert FailedOf(w'.permits, {}) == {};
    }
  }

  lemma DoneIsGood(w: World, id: nat, failed: bool, now: int)
    requires Good(w)
    ensures Good(Step(w, Done(id, failed, now)))
  {
    if id in w.permits && w.permits[id].outcome.Pending? {
      DoneIsCounted(w, id, failed, now);
      DoneIsWindowed(w, id, failed, now);
    }
  }

  lemma {:induction false} EveryRunIsGood(es: seq<Event>)
    ensures Good(Run(es))
  {
    if es != [] {
      EveryRunIsGood(es[..|es| - 1]);
      match es[|es| - 1]
      case Ask(p, now) => AskIsGood(Run(es[..|es| - 1]), p, now);
      case Done(id, failed, now) => DoneIsGood(Run(es[..|es| - 1]), id, failed, now);
    }
  }

  // ---------------------------------------------------------------------------
  // The promises of a breaker
  // ---------------------------------------------------------------------------

  /** All permits issued within one generation carry the same state. */
  lemma GenerationsDoNotMix(es: seq<Event>, a: nat, b: nat)
    requires a in Run(es).permits && b in Run(es).permits
    requires Run(es).permits[a].generation == Run(es).permits[b].generation
    ensures Run(es).permits[a].state == Run(es).permits[b].state
  {
    EveryRunIsGood(es);
  }

  /** A permit of an earlier generation completes without any effect on the breaker. */
  lemma {:induction false} LatePermitsChangeNothing(es: seq<Event>, id: nat, failed: bool, now: int)
    requires id in Run(es).permits && Run(es).permits[id].generation != Run(es).circuit.generation
    ensures Run(es).permits[id].generation < Run(es).circuit.generation
    ensures Step(Run(es), Done(id, failed, now)).circuit == Run(es).circuit
  {
    EveryRunIsGood(es);
  }

  /** In half-open state the in-flight count is the number of uncompleted permits of the generation. */
  lemma ProbesAreCounted(es: seq<Event>)
    requires Run(es).circuit.state.HalfOpen?
    ensures var w := Run(es);
            w.circuit.probesInFlight == |Named(w.permits, w.circuit.generation, Pending)|
    ensures forall id | id in Named(Run(es).permits, Run(es).circuit.generation, Pending) ::
      Run(es).permits[id].state.HalfOpen?
  {
    EveryRunIsGood(es);
  }

  ghost predicate OnePolicy(es: seq<Event>, p: Policy) {
    forall i | 0 <= i < |es| && es[i].Ask? :: es[i].policy == p
  }

  ghost predicate BelowLimit(w: World, p: Policy) {
    && (forall id | id in w.permits :: w.permits[id].policy == p)
    && (w.circuit.state.HalfOpen? ==>
      w.circuit.probesInFlight <= p.halfOpenProbes && w.circuit.probeSuccesses < p.halfOpenProbes)
  }

  lemma StepStaysBelowLimit(w: World, e: Event, p: Policy)
    requires BelowLimit(w, p) && ValidPolicy(p) && (e.Ask? ==> e.policy == p)
    ensures BelowLimit(Step(w, e), p)
  {
  }

  lemma {:induction false} ProbesStayBelowLimit(es: seq<Event>, p: Policy)
    requires OnePolicy(es, p) && ValidPolicy(p)
    ensures BelowLimit(Run(es), p)
  {
    if es != [] {
      ProbesStayBelowLimit(es[..|es| - 1], p);
      StepStaysBelowLimit(Run(es[..|es| - 1]), es[|es| - 1], p);
    }
  }

  /**
   Under one policy, a generation that is still half-open has admitted at most 2 * HalfOpenProbes - 1
   probes in all, whatever their order of completion.
   */
  lemma ProbeBound(es: seq<Event>, p: Policy)
    requires OnePolicy(es, p) && ValidPolicy(p) && Run(es).circuit.state.HalfOpen?
    ensures var w, g := Run(es), Run(es).circuit.generation;
            |Named(w.permits, g, Pending)| + |Named(w.permits, g, Passed)| + |Named(w.permits, g, Failed)|
              <= 2 * p.halfOpenProbes - 1
  {
    ProbesStayBelowLimit(es, p);
    EveryRunIsGood(es);
  }

  /**
   A half-open breaker closes only when at least HalfOpenProbes permits of its generation have
   completed without failure and none has failed.
   */
  lemma RecoveryNeedsProbes(es: seq<Event>, e: Event)
    requires Run(es).circuit.state.HalfOpen? && Step(Run(es), e).circuit.state.Closed?
    ensures e.Done? && e.permit in Run(es).permits && !e.failed
    ensures var g, permits := Run(es).circuit.generation, Step(Run(es), e).permits;
            && |Named(permits, g, Passed)| >= Run(es).permits[e.permit].policy.halfOpenProbes
            && |Named(permits, g, Failed)| == 0
  {
    EveryRunIsGood(es);
    var w := Run(es);
    assert e.Done? && e.permit in w.permits && w.permits[e.permit].outcome.Pending?;
    PermitDone(w.permits, e.permit, e.failed, e.now);
  }

  /** Enough completions in these permits, and at least the configured share of them failed. */
  ghost predicate Evidence(p: Policy, permits: map<nat, Issued>, ids: set<nat>) {
    |ids| >= p.minRequests && |FailedOf(permits, ids)| as real >= Tolerance(p, |ids|)
  }

  /** In the closed state the counters are the numbers of completed and of failed permits of the current window. */
  lemma WindowIsCounted(es: seq<Event>)
    requires Run(es).circuit.state.Closed?
    ensures var w := Run(es);
            w.circuit.requests == |w.window| && w.circuit.failures == |FailedOf(w.permits, w.window)|
  {
    EveryRunIsGood(es);
  }

  /**
   A closed breaker opens if and only if a pending permit of its own generation completes and, with it, the
   permits completed in the current window are at least MinRequests with the configured share of them failed.
   */
  lemma {:induction false} TripsExactlyOnEvidence(es: seq<Event>, e: Event)
    requires Run(es).circuit.state.Closed?
    ensures var w, w' := Run(es), Step(Run(es), e);
            w'.circuit.state.Open? <==>
              && e.Done? && e.permit in w.permits && w.permits[e.permit].outcome.Pending?
              && w.permits[e.permit].generation == w.circuit.generation
              && Evidence(w.permits[e.permit].policy, w'.permits, w'.window)
  {
    EveryRunIsGood(es);
    var w := Run(es);
    if e.Done? && e.permit in w.permits && w.permits[e.permit].outcome.Pending?
       && w.permits[e.permit].generation == w.circuit.generation {
      CompletionJoinsWindow(w, e.permit, e.failed, e.now);
    }
  }

  predicate Within(start: Option<int>, now: int, length: int) {
    start.Some? && start.value <= now < start.value + length
  }

  /** Every counted completion falls in the current window, of its own permit's length. */
  ghost predicate Timed(w: World) {
    w.circuit.state.Closed? ==>
      forall id | id in w.window ::
        id in w.permits && Within(w.circuit.windowStart, w.permits[id].doneAt, w.permits[id].policy.window)
  }

  lemma StepIsTimed(w: World, e: Event)
    requires Good(w) && Timed(w)
    ensures Timed(Step(w, e))
  {
  }

  /** Everything counted in a closed breaker's window completed within that window. */
  lemma {:induction false} WindowIsTimed(es: seq<Event>)
    ensures Timed(Run(es))
  {
    if es != [] {
      EveryRunIsGood(es[..|es| - 1]);
      WindowIsTimed(es[..|es| - 1]);
      StepIsTimed(Run(es[..|es| - 1]), es[|es| - 1]);
    }
  }

  /** A guarded call gives up the current window only when its time is outside it, and then begins one. */
  lemma AskKeepsWindow(es: seq<Event>, p: Policy, now: int)
    requires Run(es).circuit.state.Closed? && p.enabled && ValidPolicy(p)
    ensures var w, w' := Run(es), Step(Run(es), Ask(p, now));
            var within := Within(w.circuit.windowStart, now, p.window);
            && w'.circuit.windowStart == (if within then w.circuit.windowStart else Some(now))
            && w'.window == if within then w.window else {}
  {
  }

  /** So does a counted completion, which then joins the window. */
  lemma DoneKeepsWindow(es: seq<Event>, id: nat, failed: bool, now: int)
    requires var w := Run(es);
             && w.circuit.state.Closed? && id in w.permits && w.permits[id].outcome.Pending?
             && w.permits[id].generation == w.circuit.generation
    ensures var w, w' := Run(es), Step(Run(es), Done(id, failed, now));
            var within := Within(w.circuit.windowStart, now, w.permits[id].policy.window);
            && w'.circuit.windowStart == (if within then w.circuit.windowStart else Some(now))
            && w'.window == (if within then w.window else {}) + {id}
  {
    EveryRunIsGood(es);
  }

  /** No guarded call at or after this time. */
  predicate Early(e: Event, until: int) {
    e.Ask? && e.policy.enabled && ValidPolicy(e.policy) ==> e.now < until
  }

  lemma OpenIgnores(w: World, e: Event)
    requires Good(w) && w.circuit.state.Open? && Early(e, w.circuit.openUntil)
    ensures Step(w, e).circuit == w.circuit
  {
  }

  lemma RunNext(es: seq<Event>, e: Event)
    ensures Run(es + [e]) == Step(Run(es), e)
  {
    assert (es + [e])[..|es|] == es;
  }

  /** An open breaker stays as it is through any events before its timeout. */
  lemma {:induction false} StaysOpen(es: seq<Event>, more: seq<Event>)
    requires Run(es).circuit.state.Open?
    requires forall i | 0 <= i < |more| :: Early(more[i], Run(es).circuit.openUntil)
    ensures Run(es + more).circuit == Run(es).circuit
    decreases |more|
  {
    if more == [] {
      assert es + more == es;
    } else {
      var n := |more| - 1;
      StaysOpen(es, more[..n]);
      EveryRunIsGood(es + more[..n]);
      OpenIgnores(Run(es + more[..n]), more[n]);
      RunNext(es + more[..n], more[n]);
      assert es + more == es + more[..n] + [more[n]];
    }
  }

  /** The event that opens a breaker is a completion, under a new generation, for its permit's own timeout. */
  lemma OpeningIsTimed(es: seq<Event>, e: Event)
    requires !Run(es).circuit.state.Open? && Step(Run(es), e).circuit.state.Open?
    ensures e.Done? && e.permit in Run(es).permits
    ensures var c := Step(Run(es), e).circuit;
            && c.openUntil == e.now + Run(es).permits[e.permit].policy.openTimeout
            && c.generation == Run(es).circuit.generation + 1
  {
    EveryRunIsGood(es);
  }

  /**
   From the completion that opened it, a breaker turns every guarded call away until that permit's OpenTimeout
   has passed, whatever completes meanwhile, and the first guarded call from then on is admitted as a probe.
   */
  lemma RejectsUntilTimeout(es: seq<Event>, e: Event, more: seq<Event>, p: Policy, now: int)
    requires !Run(es).circuit.state.Open? && Run(es + [e]).circuit.state.Open?
    requires e.Done? && e.permit in Run(es).permits
    requires forall i | 0 <= i < |more| :: Early(more[i], e.now + Run(es).permits[e.permit].policy.openTimeout)
    requires p.enabled && ValidPolicy(p)
    ensures Run(es + [e] + more).circuit.state.Open?
    ensures Allow(Run(es + [e] + more).circuit, p, now).1
         == if now < e.now + Run(es).permits[e.permit].policy.openTimeout then Rejected
            else Allowed(HalfOpen, Run(es).circuit.generation + 1)
  {
    RunNext(es, e);
    OpeningIsTimed(es, e);
    StaysOpen(es + [e], more);
  }

  /** A closed breaker admits every guarded call; a half-open one exactly while fewer than its probes are out. */
  lemma AnswerIsExact(es: seq<Event>, p: Policy, now: int)
    requires p.enabled && ValidPolicy(p)
    ensures var w, verdict := Run(es), Allow(Run(es).circuit, p, now).1;
            && (w.circuit.state.Closed? ==> verdict == Allowed(Closed, w.circuit.generation))
            && (w.circuit.state.HalfOpen? ==>
              verdict == if |Named(w.permits, w.circuit.generation, Pending)| < p.halfOpenProbes
                         then Allowed(HalfOpen, w.circuit.generation) else Rejected)
  {
    EveryRunIsGood(es);
  }

  /** A policy is refused for these reasons only, and neither a refusal nor a disabled policy touches the breaker. */
  lemma RefusalIsExact(c: Circuit, p: Policy, now: int)
    ensures var (c', verdict) := Allow(c, p, now);
            && (verdict == Unguarded <==> !p.enabled)
            && (verdict == InvalidPolicy <==>
              && p.enabled
              && (|| p.failureRatio <= 0.0 || p.failureRatio > 1.0 || p.window <= 0 || p.minRequests <= 0
                  || p.openTimeout <= 0 || p.halfOpenProbes <= 0))
            && (verdict == Unguarded || verdict == InvalidPolicy ==> c' == c)
  {
  }

  /**
   What ends a half-open generation: a failed probe opens the breaker again, and a passed one closes it exactly
   when, with it, HalfOpenProbes of its permits have passed. Nothing else ends it.
   */
  lemma HalfOpenEndsExactly(es: seq<Event>, e: Event)
    requires Run(es).circuit.state.HalfOpen?
    ensures var w, w' := Run(es), Step(Run(es), e);
            var probe := e.Done? && e.permit in w.permits && w.permits[e.permit].outcome.Pending?
                         && w.permits[e.permit].generation == w.circuit.generation;
            && (w'.circuit.state.Open? <==> probe && e.failed)
            && (w'.circuit.state.Closed? <==>
              && probe && !e.failed
              && |Named(w'.permits, w.circuit.generation, Passed)| >= w.permits[e.permit].policy.halfOpenProbes)
            && (w'.circuit.generation == w.circuit.generation <==> w'.circuit.state.HalfOpen?)
  {
    EveryRunIsGood(es);
    var w := Run(es);
    if e.Done? && e.permit in w.permits && w.permits[e.permit].outcome.Pending? {
      PermitDone(w.permits, e.permit, e.failed, e.now);
    }
  }

  lemma ScaleUp(a: real, b: real, factor: real)
    requires a <= b && factor >= 0.0
    ensures factor * a <= factor * b
  {
  }

  /** The ratio test as the code writes it, with a division. */
  lemma RatioTest(failures: nat, requests: nat, ratio: real)
    requires requests > 0
    ensures failures as real / requests as real >= ratio <==> failures as real >= ratio * requests as real
  {
    var f, n := failures as real, requests as real;
    var q := f / n;
    assert f == q * n;
    if q >= ratio {
      ScaleUp(ratio, q, n);
    } else {
      assert (ratio - q) * n > 0.0;
    }
  }

  // ---------------------------------------------------------------------------
  // The breaker object
  // ---------------------------------------------------------------------------

  class Breaker {
    var state: State
    var windowStart: Option<int>
    var requests: nat
    var failures: nat
    var openUntil: int
    var probesInFlight: int
    var probeSuccesses: int
    var generation: nat

    function View(): Circuit
      reads this
    {
      Circuit(state, windowStart, requests, failures, openUntil, probesInFlight, probeSuccesses, generation)
    }

    constructor ()
      ensures View() == NewCircuit()
    {
      state, windowStart, requests, failures := Closed, None, 0, 0;
      openUntil, probesInFlight, probeSuccesses, generation := 0, 0, 0, 0;
    }

    method Roll(now: int, window: int)
      modifies this
      ensures View() == RollWindow(old(View()), now, window)
    {
      if windowStart.None? || now - windowStart.value >= window || now < windowStart.value {
        windowStart, requests, failures := Some(now), 0, 0;
      }
    }

    method OpenUntil(now: int, duration: int)
      modifies this
      ensures View() == Trip(old(View()), now, duration)
    {
      state, openUntil := Open, now + duration;
      probesInFlight, probeSuccesses := 0, 0;
      generation := generation + 1;
    }

    method Close(now: int)
      modifies this
      ensures View() == Recover(old(View()), now)
    {
      state, windowStart, requests, failures, openUntil := Closed, Some(now), 0, 0, 0;
      probesInFlight, probeSuccesses := 0, 0;
      generation := generation + 1;
    }

    method Admit(config: Policy, now: int) returns (verdict: Verdict)
      modifies this
      ensures (View(), verdict) == Allow(old(View()), config, now)
    {
      if !config.enabled {
        return Unguarded;
      }
      if !ValidPolicy(config) {
        return InvalidPolicy;
      }
      match state {
        case Closed => Roll(now, config.window);
        case Open =>
          if now < openUntil {
            return Rejected;
          }
          state, probesInFlight, probeSuccesses := HalfOpen, 0, 0;
        case HalfOpen =>
      }
      if state.HalfOpen? {
        if probesInFlight >= config.halfOpenProbes {
          return Rejected;
        }
        probesInFlight := probesInFlight + 1;
      }
      return Allowed(state, generation);
    }

    method Finish(config: Policy, permitted: State, stamp: nat, failed: bool, now: int)
      modifies this
      ensures View() == Complete(old(View()), config, permitted, stamp, failed, now)
    {
      if stamp != generation || permitted != state {
        return;
      }
      match state {
        case Closed =>
          Roll(now, config.window);
          requests := requests + 1;
          if failed {
            failures := failures + 1;
          }
          RatioTest(failures, requests, config.failureRatio);
          if requests >= config.minRequests && failures as real / requests as real >= config.failureRatio {
            OpenUntil(now, config.openTimeout);
          }
        case HalfOpen =>
          if probesInFlight > 0 {
            probesInFlight := probesInFlight - 1;
          }
          if failed {
            OpenUntil(now, config.openTimeout);
            return;
          }
          probeSuccesses := probeSuccesses + 1;
          if probeSuccesses >= config.halfOpenProbes {
            Close(now);
          }
        case Open =>
      }
    }
  }
}
