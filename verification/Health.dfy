/**
 The health registry (health/registry.go): checks run without the lock, and their reports are cached only if
 nothing they depend on has changed meanwhile.
 */
module Health {
  import opened Wrappers
  import Sets
  import Text

  datatype Phase = New | Starting | Ready | Draining | Stopped | Failed

  datatype Kind = Startup | Liveness | Readiness | Dependency

  datatype Status = Pass | Fail | Unknown

  const MAX_CONTRIBUTORS: nat := 256

  function Rank(p: Phase): nat {
    match p
    case New => 0
    case Starting => 1
    case Ready => 2
    case Draining => 3
    case Stopped => 4
    case Failed => 5
  }

  /** What a report of one kind depends on; checkers are known by number. */
  datatype Basis = Basis(phase: Phase, startupComplete: bool, checkers: map<string, nat>)

  /** A report, with the basis it was computed from. */
  datatype Report = Report(kind: Kind, app: Option<Status>, checks: map<string, Status>, status: Status, basis: Basis)

  datatype Cached = Cached(report: Report, expiresAt: int, generation: nat)

  datatype State = State(
    phase: Phase,
    startupComplete: bool,
    contributors: map<Kind, map<string, nat>>,
    generation: nat,
    cache: map<Kind, Cached>)

  // ---------------------------------------------------------------------------
  // Reports
  // ---------------------------------------------------------------------------

  function PhaseResult(kind: Kind, phase: Phase, startupComplete: bool): Status {
    match kind
    case Startup => if startupComplete then Pass else Fail
    case Liveness => if phase == Starting || phase == Ready || phase == Draining then Pass else Fail
    case Readiness => if phase == Ready then Pass else Fail
    case Dependency => Unknown
  }

  function AppResult(kind: Kind, b: Basis): Option<Status> {
    if kind == Dependency then None else Some(PhaseResult(kind, b.phase, b.startupComplete))
  }

  predicate Reports(app: Option<Status>, checks: map<string, Status>, status: Status) {
    app == Some(status) || exists name | name in checks :: checks[name] == status
  }

  /** One failure fails the whole; otherwise one unknown makes it unknown. */
  function Overall(app: Option<Status>, checks: map<string, Status>): Status {
    if Reports(app, checks, Fail) then Fail else if Reports(app, checks, Unknown) then Unknown else Pass
  }

  /** One call of a checker: whether its context ended before or during it, and what it did; None is no valid status. */
  datatype Probe = Probe(endedBefore: bool, panics: bool, endedDuring: bool, status: Option<Status>)

  /** Only a call that returns a valid status in time is believed. */
  function Settled(p: Probe): Status {
    if p.endedBefore || p.panics || p.endedDuring || p.status.None? then Fail else p.status.value
  }

  method RunChecker(p: Probe) returns (status: Status)
    ensures status == Settled(p)
    ensures status == Pass <==> !p.endedBefore && !p.panics && !p.endedDuring && p.status == Some(Pass)
    ensures status == Unknown <==> !p.endedBefore && !p.panics && !p.endedDuring && p.status == Some(Unknown)
  {
    if p.endedBefore {
      return Fail;
    }
    if p.panics {
      return Fail;
    }
    var result := p.status;
    if p.endedDuring {
      result := Some(Fail);
    }
    if result.None? {
      result := Some(Fail);
    }
    return result.value;
  }

  function Evaluate(kind: Kind, b: Basis, outcome: string -> Probe): Report {
    var checks := map name | name in b.checkers :: Settled(outcome(name));
    Report(kind, AppResult(kind, b), checks, Overall(AppResult(kind, b), checks), b)
  }

  /** The report could have been computed from its basis by some outcome of the checkers. */
  ghost predicate Honest(r: Report) {
    && r.app == AppResult(r.kind, r.basis)
    && r.checks.Keys == r.basis.checkers.Keys
    && r.status == Overall(r.app, r.checks)
  }

  /** The loop over named results that yields the overall status. */
  method Aggregate(results: seq<(string, Status)>) returns (status: Status)
    ensures status == Fail <==> exists i | 0 <= i < |results| :: results[i].1 == Fail
    ensures status == Pass <==> forall i | 0 <= i < |results| :: results[i].1 == Pass
  {
    status := Pass;
    for i := 0 to |results|
      invariant status == Fail <==> exists j | 0 <= j < i :: results[j].1 == Fail
      invariant status == Pass <==> forall j | 0 <= j < i :: results[j].1 == Pass
    {
      match results[i].1 {
        case Fail => status := Fail;
        case Unknown => if status != Fail { status := Unknown; }
        case Pass =>
      }
    }
  }

  // ---------------------------------------------------------------------------
  // The critical sections
  // ---------------------------------------------------------------------------

  function CheckersOf(st: State, kind: Kind): map<string, nat> {
    if kind in st.contributors then st.contributors[kind] else map[]
  }

  function BasisOf(st: State, kind: Kind): Basis {
    Basis(st.phase, st.startupComplete, CheckersOf(st, kind))
  }

  function Invalidated(st: State): State {
    st.(generation := st.generation + 1, cache := map[])
  }

  predicate CanRegister(st: State, kind: Kind, name: string) {
    && Text.Trim(name) != "" && Text.Trim(name) !in CheckersOf(st, kind)
    && |CheckersOf(st, kind)| < MAX_CONTRIBUTORS
  }

  function Registered(st: State, kind: Kind, name: string, checker: nat): State {
    if !CanRegister(st, kind, name) then st
    else Invalidated(st.(contributors := st.contributors[kind := CheckersOf(st, kind)[Text.Trim(name) := checker]]))
  }

  function Unregistered(st: State, kind: Kind, name: string): State {
    Invalidated(
      if kind in st.contributors then
        st.(contributors := st.contributors[kind := st.contributors[kind] - {Text.Trim(name)}])
      else st)
  }

  function Advanced(st: State, next: Phase): State {
    if Rank(next) <= Rank(st.phase) then st
    else Invalidated(st.(phase := next, startupComplete := st.startupComplete || next == Ready))
  }

  predicate Hit(st: State, kind: Kind, now: int) {
    kind in st.cache && st.cache[kind].generation == st.generation && now < st.cache[kind].expiresAt
  }

  function Stored(st: State, report: Report, generation: nat, expiresAt: int): State {
    if st.generation != generation then st
    else st.(cache := st.cache[report.kind := Cached(report, expiresAt, generation)])
  }

  // ---------------------------------------------------------------------------
  // Any interleaving of checks and changes
  // ---------------------------------------------------------------------------

  /** A check between its snapshot, taken by the event at position `since`, and its end. */
  datatype Pending = Pending(kind: Kind, basis: Basis, generation: nat, since: nat)

  /** A report returned by a Check that took its snapshot at the event at position `since`. */
  datatype Answer = Answer(kind: Kind, report: Report, since: nat)

  datatype World = World(now: nat, registry: State, pending: map<nat, Pending>, answers: seq<Answer>)

  datatype Event =
    | Register(kind: Kind, name: string, checker: nat)
    | Unregister(kind: Kind, name: string)
    | Advance(next: Phase)
    | Begin(check: nat, kind: Kind, now: int)
    | End(check: nat, outcome: string -> Probe, cacheable: bool, expiresAt: int)

  function Start(): World {
    World(0, State(New, false, map[], 0, map[]), map[], [])
  }

  function Act(w: World, e: Event): World {
    var st := w.registry;
    match e
    case Register(kind, name, checker) => w.(registry := Registered(st, kind, name, checker))
    case Unregister(kind, name) => w.(registry := Unregistered(st, kind, name))
    case Advance(next) => w.(registry := Advanced(st, next))
    case Begin(check, kind, now) =>
      if check in w.pending then w
      else if Hit(st, kind, now) then w.(answers := w.answers + [Answer(kind, st.cache[kind].report, w.now)])
      else w.(pending := w.pending[check := Pending(kind, BasisOf(st, kind), st.generation, w.now)])
    case End(check, outcome, cacheable, expiresAt) =>
      if check !in w.pending then w
      else
        var p := w.pending[check];
        var report := Evaluate(p.kind, p.basis, outcome);
        w.(registry := if cacheable then Stored(st, report, p.generation, expiresAt) else st,
           pending := w.pending - {check},
           answers := w.answers + [Answer(p.kind, report, p.since)])
  }

  function Step(w: World, e: Event): World {
    Act(w, e).(now := w.now + 1)
  }

  /** A run: the states `ws` between the events `es`. */
  ghost predicate Trace(ws: seq<World>, es: seq<Event>) {
    && |ws| == |es| + 1
    && ws[0] == Start()
    && forall i | 0 <= i < |es| :: ws[i + 1] == Step(ws[i], es[i])
  }

  /** Every sequence of events has its run. */
  lemma {:induction false} EveryEventsRun(es: seq<Event>) returns (ws: seq<World>)
    ensures Trace(ws, es)
  {
    if es == [] {
      return [Start()];
    }
    var init := es[..|es| - 1];
    var before := EveryEventsRun(init);
    ws := before + [Step(before[|init|], es[|init|])];
    assert forall i | 0 <= i < |init| :: es[i] == init[i];
  }

  /** What is cached was computed from exactly what the registry holds now. */
  ghost predicate CacheIsCurrent(st: State) {
    forall kind | kind in st.cache ::
      && st.cache[kind].generation == st.generation
      && st.cache[kind].report.kind == kind && Honest(st.cache[kind].report)
      && st.cache[kind].report.basis == BasisOf(st, kind)
  }

  predicate PendingIsSound(st: State, p: Pending) {
    p.generation <= st.generation && (p.generation == st.generation ==> p.basis == BasisOf(st, p.kind))
  }

  ghost predicate Good(st: State, pending: map<nat, Pending>) {
    CacheIsCurrent(st) && forall id | id in pending :: PendingIsSound(st, pending[id])
  }

  lemma EvaluateIsHonest(kind: Kind, b: Basis, outcome: string -> Probe)
    ensures Honest(Evaluate(kind, b, outcome))
  {
  }

  /** A change of the registry leaves no report and no check in progress current. */
  lemma ChangeIsGood(st: State, st': State, pending: map<nat, Pending>)
    requires Good(st, pending) && (st' == st || (st'.generation == st.generation + 1 && st'.cache == map[]))
    ensures Good(st', pending)
  {
    forall id | id in pending ensures PendingIsSound(st', pending[id]) {
      assert PendingIsSound(st, pending[id]);
    }
  }

  lemma StoredIsCurrent(st: State, report: Report, generation: nat, expiresAt: int)
    requires CacheIsCurrent(st) && Honest(report)
    requires generation == st.generation ==> report.basis == BasisOf(st, report.kind)
    ensures CacheIsCurrent(Stored(st, report, generation, expiresAt))
    ensures forall kind :: BasisOf(Stored(st, report, generation, expiresAt), kind) == BasisOf(st, kind)
  {
  }

  lemma EndIsGood(w: World, e: Event)
    requires Good(w.registry, w.pending) && e.End? && e.check in w.pending
    ensures Good(Step(w, e).registry, Step(w, e).pending)
  {
    var p := w.pending[e.check];
    assert PendingIsSound(w.registry, p);
    var report := Evaluate(p.kind, p.basis, e.outcome);
    EvaluateIsHonest(p.kind, p.basis, e.outcome);
    StoredIsCurrent(w.registry, report, p.generation, e.expiresAt);
    var w' := Step(w, e);
    forall id | id in w'.pending ensures PendingIsSound(w'.registry, w'.pending[id]) {
      assert PendingIsSound(w.registry, w.pending[id]);
    }
  }

  lemma StepIsGood(w: World, e: Event)
    requires Good(w.registry, w.pending)
    ensures Good(Step(w, e).registry, Step(w, e).pending)
  {
    match e
    case Register(_, _, _) => ChangeIsGood(w.registry, Step(w, e).registry, w.pending);
    case Unregister(_, _) => ChangeIsGood(w.registry, Step(w, e).registry, w.pending);
    case Advance(_) => ChangeIsGood(w.registry, Step(w, e).registry, w.pending);
    case Begin(_, _, _) =>
    case End(check, _, _, _) =>
      if check in w.pending {
        EndIsGood(w, e);
      }
  }

  lemma {:induction false} EveryRunIsGood(ws: seq<World>, es: seq<Event>, i: nat)
    requires Trace(ws, es) && i <= |es|
    ensures Good(ws[i].registry, ws[i].pending) && ws[i].now == i
  {
    if i > 0 {
      EveryRunIsGood(ws, es, i - 1);
      StepIsGood(ws[i - 1], es[i - 1]);
      assert ws[i - 1 + 1] == Step(ws[i - 1], es[i - 1]);
    }
  }

  // ---------------------------------------------------------------------------
  // Every answer agrees with a direct evaluation
  // ---------------------------------------------------------------------------

  lemma PendingAfter(w: World, e: Event, id: nat)
    requires id in Step(w, e).pending
    ensures id in w.pending ==> Step(w, e).pending[id] == w.pending[id]
    ensures id !in w.pending ==>
      var p := Step(w, e).pending[id];
      p.since == w.now && p.basis == BasisOf(w.registry, p.kind) && p.generation == w.registry.generation
  {
  }

  lemma {:induction false} PendingRemembers(ws: seq<World>, es: seq<Event>, i: nat, id: nat)
    requires Trace(ws, es) && i <= |es| && id in ws[i].pending
    ensures var p := ws[i].pending[id];
            && p.since < i && p.basis == BasisOf(ws[p.since].registry, p.kind)
            && p.generation == ws[p.since].registry.generation
  {
    if i > 0 {
      assert ws[i - 1 + 1] == Step(ws[i - 1], es[i - 1]);
      PendingAfter(ws[i - 1], es[i - 1], id);
      EveryRunIsGood(ws, es, i - 1);
      if id in ws[i - 1].pending {
        PendingRemembers(ws, es, i - 1, id);
      }
    }
  }

  /** What a Check answers now: the cached report on a hit, or a report computed from its own snapshot. */
  lemma AnswersAfter(w: World, e: Event, n: nat)
    requires Good(w.registry, w.pending) && n < |Step(w, e).answers|
    ensures n < |w.answers| ==> Step(w, e).answers[n] == w.answers[n]
    ensures n >= |w.answers| ==>
      var a := Step(w, e).answers[n];
      && Honest(a.report) && a.report.kind == a.kind
      && ((a.since == w.now && a.report.basis == BasisOf(w.registry, a.kind))
        || exists id | id in w.pending ::
          a.kind == w.pending[id].kind && a.since == w.pending[id].since && a.report.basis == w.pending[id].basis)
  {
    if e.End? && e.check in w.pending {
      EvaluateIsHonest(w.pending[e.check].kind, w.pending[e.check].basis, e.outcome);
    }
  }

  /**
   Every report, cached or not, is the evaluation, for some outcome of the checkers, of exactly the phase and
   the contributors that the registry held when that Check took its snapshot.
   */
  lemma {:induction false} AnswersAgreeWithRegistry(ws: seq<World>, es: seq<Event>, i: nat, n: nat)
    requires Trace(ws, es) && i <= |es| && n < |ws[i].answers|
    ensures var a := ws[i].answers[n];
            && a.since < i && a.report.kind == a.kind && Honest(a.report)
            && a.report.basis == BasisOf(ws[a.since].registry, a.kind)
  {
    if i > 0 {
      var w, e := ws[i - 1], es[i - 1];
      assert ws[i - 1 + 1] == Step(w, e);
      EveryRunIsGood(ws, es, i - 1);
      AnswersAfter(w, e, n);
      var a := ws[i].answers[n];
      if n < |w.answers| {
        AnswersAgreeWithRegistry(ws, es, i - 1, n);
      } else if !(a.since == w.now && a.report.basis == BasisOf(w.registry, a.kind)) {
        var id :| id in w.pending && a.kind == w.pending[id].kind && a.since == w.pending[id].since &&
          a.report.basis == w.pending[id].basis;
        PendingRemembers(ws, es, i - 1, id);
      }
    }
  }

  lemma FailingAppFails(r: Report)
    requires Honest(r) && r.app == Some(Fail)
    ensures r.status == Fail
  {
  }

  /** A phase never goes back. */
  lemma {:induction false} PhasesOnlyAdvance(ws: seq<World>, es: seq<Event>, i: nat, j: nat)
    requires Trace(ws, es) && i <= j <= |es|
    ensures Rank(ws[i].registry.phase) <= Rank(ws[j].registry.phase)
    ensures ws[i].registry.startupComplete ==> ws[j].registry.startupComplete
  {
    if i < j {
      PhasesOnlyAdvance(ws, es, i, j - 1);
      assert ws[j - 1 + 1] == Step(ws[j - 1], es[j - 1]);
    }
  }

  /** No readiness Check that takes its snapshot after draining, stopping or failing has begun ever passes. */
  lemma NeverReadyAfterDraining(ws: seq<World>, es: seq<Event>, k: nat, i: nat, n: nat)
    requires Trace(ws, es) && k <= |es| && ws[k].registry.phase in {Draining, Stopped, Failed}
    requires i <= |es| && n < |ws[i].answers|
    requires ws[i].answers[n].kind == Readiness && k <= ws[i].answers[n].since
    ensures ws[i].answers[n].report.status == Fail
  {
    var a := ws[i].answers[n];
    AnswersAgreeWithRegistry(ws, es, i, n);
    PhasesOnlyAdvance(ws, es, k, a.since);
    FailingAppFails(a.report);
  }

  /** A passing startup check means that the registry had been ready by then. */
  lemma StartupPassesOnlyWhenComplete(ws: seq<World>, es: seq<Event>, i: nat, n: nat)
    requires Trace(ws, es) && i <= |es| && n < |ws[i].answers|
    requires ws[i].answers[n].kind == Startup && ws[i].answers[n].report.status == Pass
    ensures ws[i].answers[n].since < i && ws[ws[i].answers[n].since].registry.startupComplete
  {
    var a := ws[i].answers[n];
    AnswersAgreeWithRegistry(ws, es, i, n);
    if a.report.app == Some(Fail) {
      FailingAppFails(a.report);
    }
  }

  /** The phase in which an application may be alive, ready or started up; dependencies do not depend on it. */
  predicate Fit(kind: Kind, st: State) {
    match kind
    case Startup => st.startupComplete
    case Liveness => st.phase in {Starting, Ready, Draining}
    case Readiness => st.phase == Ready
    case Dependency => true
  }

  /**
   A Check passes if and only if the phase held at its snapshot was fit for its kind and every checker held then,
   each of which was called, settled on a pass; it fails if and only if the phase was unfit or a checker failed.
   */
  lemma PassesExactly(ws: seq<World>, es: seq<Event>, i: nat, n: nat)
    requires Trace(ws, es) && i <= |es| && n < |ws[i].answers|
    ensures ws[i].answers[n].since < i
    ensures var a := ws[i].answers[n];
            var st := ws[a.since].registry;
            && a.report.checks.Keys == CheckersOf(st, a.kind).Keys
            && (a.report.status == Pass <==>
              Fit(a.kind, st) && forall name | name in a.report.checks :: a.report.checks[name] == Pass)
            && (a.report.status == Fail <==>
              !Fit(a.kind, st) || exists name | name in a.report.checks :: a.report.checks[name] == Fail)
  {
    AnswersAgreeWithRegistry(ws, es, i, n);
  }

  /** Startup is complete exactly from when the application was first ready. */
  lemma {:induction false} CompleteOnceReady(ws: seq<World>, es: seq<Event>, i: nat)
    requires Trace(ws, es) && i <= |es|
    ensures ws[i].registry.startupComplete <==> exists k :: 0 <= k <= i && ws[k].registry.phase == Ready
  {
    if i > 0 {
      CompleteOnceReady(ws, es, i - 1);
      assert ws[i - 1 + 1] == Step(ws[i - 1], es[i - 1]);
      if ws[i].registry.startupComplete && !ws[i - 1].registry.startupComplete {
        assert ws[i].registry.phase == Ready;
      }
    }
  }

  /** The phase is the furthest one asked for so far. */
  lemma {:induction false} PhaseIsFurthest(ws: seq<World>, es: seq<Event>, i: nat)
    requires Trace(ws, es) && i <= |es|
    ensures ws[i].registry.phase == New || Advance(ws[i].registry.phase) in es[..i]
    ensures forall j | 0 <= j < i && es[j].Advance? :: Rank(es[j].next) <= Rank(ws[i].registry.phase)
  {
    if i > 0 {
      PhaseIsFurthest(ws, es, i - 1);
      assert ws[i - 1 + 1] == Step(ws[i - 1], es[i - 1]);
      assert es[..i] == es[..i - 1] + [es[i - 1]];
    }
  }

  /** What one change does to the checkers of any kind: a new name is added, a given one removed, the rest stays. */
  lemma CheckersChangeExactly(w: World, e: Event, kind: Kind)
    ensures var before, after := CheckersOf(w.registry, kind), CheckersOf(Step(w, e).registry, kind);
            if e.Register? && e.kind == kind then
              var name := Text.Trim(e.name);
              after == if name != "" && name !in before && |before| < 256 then before[name := e.checker] else before
            else if e.Unregister? && e.kind == kind then after == before - {Text.Trim(e.name)}
            else after == before
  {
  }

  /** Reports computed so far stay usable, or are given up, according to whether a change was made. */
  lemma ChangesInvalidate(w: World, e: Event)
    requires e.Register? || e.Unregister? || e.Advance?
    ensures var st, st' := w.registry, Step(w, e).registry;
            var changes := match e
                           case Register(kind, name, _) =>
                             var trimmed := Text.Trim(name);
                             trimmed != "" && trimmed !in CheckersOf(st, kind) && |CheckersOf(st, kind)| < 256
                           case Unregister(_, _) => true
                           case Advance(next) => Rank(next) > Rank(st.phase)
                           case _ => false;
            if changes then st'.generation == st.generation + 1 && st'.cache == map[] else st' == st
  {
  }

  /** A Check is answered at once exactly when an unexpired report of its kind is cached, and with that report. */
  lemma HitsAreExact(ws: seq<World>, es: seq<Event>, i: nat)
    requires Trace(ws, es) && i < |es| && es[i].Begin? && es[i].check !in ws[i].pending
    ensures var st, kind := ws[i].registry, es[i].kind;
            if kind in st.cache && es[i].now < st.cache[kind].expiresAt
            then ws[i + 1].answers == ws[i].answers + [Answer(kind, st.cache[kind].report, i)]
            else ws[i + 1].answers == ws[i].answers && es[i].check in ws[i + 1].pending
  {
    EveryRunIsGood(ws, es, i);
  }

  /** A finished Check is cached, until the time given, exactly if nothing changed since its snapshot. */
  lemma EndsAreExact(ws: seq<World>, es: seq<Event>, i: nat)
    requires Trace(ws, es) && i < |es| && es[i].End? && es[i].check in ws[i].pending
    ensures ws[i].pending[es[i].check].since < i && |ws[i + 1].answers| == |ws[i].answers| + 1
    ensures ws[i + 1].pending == ws[i].pending - {es[i].check}
    ensures var st, p := ws[i].registry, ws[i].pending[es[i].check];
            var report := ws[i + 1].answers[|ws[i].answers|].report;
            ws[i + 1].registry.cache
            == if es[i].cacheable && st.generation == ws[p.since].registry.generation
               then st.cache[p.kind := Cached(report, es[i].expiresAt, st.generation)] else st.cache
  {
    PendingRemembers(ws, es, i, es[i].check);
  }

  predicate Proper(name: string) {
    name != "" && Text.IsTrimmed(name)
  }

  ghost predicate NamesAreProper(st: State) {
    forall kind, name | kind in st.contributors && name in st.contributors[kind] :: Proper(name)
  }

  lemma StepKeepsNames(w: World, e: Event)
    requires NamesAreProper(w.registry)
    ensures NamesAreProper(Step(w, e).registry)
  {
    var st' := Step(w, e).registry;
    if e.Register? {
      Text.TrimTrims(e.name);
    }
    forall kind, name | kind in st'.contributors && name in st'.contributors[kind] ensures Proper(name) {
      if kind in w.registry.contributors && name in w.registry.contributors[kind] {
        assert Proper(name);
      } else {
        assert e.Register? && name == Text.Trim(e.name);
      }
    }
  }

  /** Every contributor is held under a name that is not blank and has no white space around it. */
  lemma {:induction false} EveryNameIsProper(ws: seq<World>, es: seq<Event>, i: nat)
    requires Trace(ws, es) && i <= |es|
    ensures NamesAreProper(ws[i].registry)
  {
    if i > 0 {
      EveryNameIsProper(ws, es, i - 1);
      StepKeepsNames(ws[i - 1], es[i - 1]);
      assert ws[i - 1 + 1] == Step(ws[i - 1], es[i - 1]);
    }
  }

  // ---------------------------------------------------------------------------
  // The registry object
  // ---------------------------------------------------------------------------

  class Registry {
    const cacheTTL: int
    var phase: Phase
    var startupComplete: bool
    var contributors: map<Kind, map<string, nat>>
    var generation: nat
    var cache: map<Kind, Cached>

    function View(): State
      reads this
    {
      State(phase, startupComplete, contributors, generation, cache)
    }

    constructor (cacheTTL: int)
      ensures this.cacheTTL == cacheTTL && View() == Start().registry
    {
      this.cacheTTL := cacheTTL;
      phase, startupComplete, contributors, generation, cache := New, false, map[], 0, map[];
    }

    method InvalidateLocked()
      modifies this`generation, this`cache
      ensures View() == Invalidated(old(View()))
    {
      generation := generation + 1;
      cache := map[];
    }

    method AddChecker(kind: Kind, name: string, checker: nat) returns (ok: bool)
      modifies this
      ensures View() == Registered(old(View()), kind, name, checker)
      ensures ok == CanRegister(old(View()), kind, name)
    {
      var normalized := Text.Trim(name);
      if normalized == "" {
        return false;
      }
      var checkers := if kind in contributors then contributors[kind] else map[];
      if normalized in checkers || |checkers| >= MAX_CONTRIBUTORS {
        return false;
      }
      contributors := contributors[kind := checkers[normalized := checker]];
      InvalidateLocked();
      return true;
    }

    method RemoveChecker(kind: Kind, name: string)
      modifies this
      ensures View() == Unregistered(old(View()), kind, name)
    {
      if kind in contributors {
        contributors := contributors[kind := contributors[kind] - {Text.Trim(name)}];
      }
      InvalidateLocked();
    }

    method AdvanceTo(next: Phase)
      modifies this
      ensures View() == Advanced(old(View()), next)
    {
      if Rank(next) <= Rank(phase) {
        return;
      }
      phase := next;
      if next == Ready {
        startupComplete := true;
      }
      InvalidateLocked();
    }

    method CheckSnapshot(kind: Kind, now: int) returns (cached: Option<Report>, basis: Basis, seen: nat)
      ensures cached == if Hit(View(), kind, now) then Some(cache[kind].report) else None
      ensures basis == BasisOf(View(), kind) && seen == generation
    {
      basis := Basis(phase, startupComplete, if kind in contributors then contributors[kind] else map[]);
      seen := generation;
      if kind in cache && cache[kind].generation == generation && now < cache[kind].expiresAt {
        return Some(cache[kind].report), basis, seen;
      }
      cached := None;
    }

    method StoreCached(report: Report, seen: nat, now: int)
      modifies this`cache
      ensures View() == Stored(old(View()), report, seen, now + cacheTTL)
    {
      if generation != seen {
        return;
      }
      cache := cache[report.kind := Cached(report, now + cacheTTL, seen)];
    }
  }

  /** One evaluation outside the lock: the checkers run in any order. */
  method RunChecks(kind: Kind, basis: Basis, outcome: string -> Probe) returns (report: Report)
    ensures report == Evaluate(kind, basis, outcome)
  {
    var results: seq<(string, Status)> := [];
    var app := if kind == Dependency then None else Some(PhaseResult(kind, basis.phase, basis.startupComplete));
    if app.Some? {
      results := [("app", app.value)];
    }
    var todo, checks := basis.checkers.Keys, map[];
    assert app.Some? ==> results[0].1 == app.value;
    while todo != {}
      invariant todo <= basis.checkers.Keys
      invariant forall name :: name in checks <==> name in basis.checkers && name !in todo
      invariant forall name | name in checks :: checks[name] == Settled(outcome(name))
      invariant forall status :: Reports(app, checks, status) <==> Listed(results, status)
      decreases |todo|
    {
      var name := Sets.Choose(todo);
      todo := todo - {name};
      var status := RunChecker(outcome(name));
      Grows(app, checks, results, name, status);
      checks := checks[name := status];
      results := results + [(name, status)];
    }
    var status := Aggregate(results);
    assert checks == map name | name in basis.checkers :: Settled(outcome(name));
    assert Listed(results, Fail) <==> Reports(app, checks, Fail);
    assert Listed(results, Unknown) <==> Reports(app, checks, Unknown);
    report := Report(kind, app, checks, status, basis);
  }

  ghost predicate Listed(results: seq<(string, Status)>, status: Status) {
    exists i | 0 <= i < |results| :: results[i].1 == status
  }

  lemma Grows(
      app: Option<Status>, checks: map<string, Status>, results: seq<(string, Status)>, name: string, status: Status)
    requires name !in checks && forall s :: Reports(app, checks, s) <==> Listed(results, s)
    ensures forall s :: Reports(app, checks[name := status], s) <==> Listed(results + [(name, status)], s)
  {
    var checks', results' := checks[name := status], results + [(name, status)];
    forall s ensures Reports(app, checks', s) <==> Listed(results', s) {
      assert Reports(app, checks, s) <==> Listed(results, s);
      assert results'[|results|].1 == status;
      if Listed(results, s) {
        var i :| 0 <= i < |results| && results[i].1 == s;
        assert results'[i].1 == s;
      }
      if Reports(app, checks, s) && app != Some(s) {
        var n :| n in checks && checks[n] == s;
        assert checks'[n] == s;
      }
      assert checks'[name] == status;
    }
  }
}
