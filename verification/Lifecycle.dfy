/**
 The life of an application (app/run.go, app/app.go): hooks and servers are started in order, startup may
 fail or be cancelled anywhere, and shutdown undoes what was started.
 */
module Lifecycle {
  import opened Wrappers
  import opened Components

  /** Which callbacks of a hook are set. */
  datatype Callbacks = Callbacks(beforeStart: bool, afterStart: bool, beforeStop: bool, afterStop: bool)

  /** A hook given as an option, or the one that starts and stops the component of this name. */
  datatype Hook = Given(callbacks: Callbacks) | OfComponent(name: string)

  function CallbacksOf(h: Hook): Callbacks {
    if h.Given? then h.callbacks else Callbacks(true, false, false, true)
  }

  datatype Kind = BeforeStart | StartServer | AfterStart | BeforeStop | StopServer | AfterStop

  /** One call of user code: a callback of a hook, or the start or stop of a server. */
  datatype Action = Action(kind: Kind, index: nat)

  predicate Has(hooks: seq<Hook>, kind: Kind, i: nat) {
    match kind
    case StartServer => true
    case StopServer => true
    case BeforeStart => i < |hooks| && CallbacksOf(hooks[i]).beforeStart
    case AfterStart => i < |hooks| && CallbacksOf(hooks[i]).afterStart
    case BeforeStop => i < |hooks| && CallbacksOf(hooks[i]).beforeStop
    case AfterStop => i < |hooks| && CallbacksOf(hooks[i]).afterStop
  }

  function Call(hooks: seq<Hook>, kind: Kind, i: nat): seq<Action> {
    if Has(hooks, kind, i) then [Action(kind, i)] else []
  }

  /** The calls of one kind for the first `n` hooks or servers, first to last. */
  function Up(hooks: seq<Hook>, kind: Kind, n: nat): seq<Action> {
    if n == 0 then [] else Up(hooks, kind, n - 1) + Call(hooks, kind, n - 1)
  }

  /** The same calls last to first. */
  function Down(hooks: seq<Hook>, kind: Kind, n: nat): seq<Action> {
    if n == 0 then [] else Call(hooks, kind, n - 1) + Down(hooks, kind, n - 1)
  }

  // ---------------------------------------------------------------------------
  // The shape of a run
  // ---------------------------------------------------------------------------

  /** How far startup got: hooks activated, servers started, AfterStart callbacks passed, and the call that failed. */
  datatype Reach = Reach(active: nat, started: nat, after: nat, failed: Option<Action>)

  function Startup(hooks: seq<Hook>, r: Reach): seq<Action> {
    Up(hooks, BeforeStart, r.active) + Up(hooks, StartServer, r.started) + Up(hooks, AfterStart, r.after) +
    if r.failed.Some? then [r.failed.value] else []
  }

  function Teardown(hooks: seq<Hook>, r: Reach): seq<Action> {
    Down(hooks, BeforeStop, r.active) + Down(hooks, StopServer, r.started) + Down(hooks, AfterStop, r.active)
  }

  /** The calls that can come next while starting. */
  predicate Next(hooks: seq<Hook>, servers: nat, r: Reach, a: Action) {
    || (a == Action(BeforeStart, r.active) && r.active < |hooks| && r.started == 0 && r.after == 0)
    || (a == Action(StartServer, r.started) && r.active == |hooks| && r.started < servers && r.after == 0)
    || (a == Action(AfterStart, r.after) && r.active == |hooks| && r.started == servers && r.after < |hooks|)
  }

  /** Servers start only after every hook is active, and AfterStart runs only after every server has started. */
  ghost predicate Reachable(hooks: seq<Hook>, servers: nat, fails: Action -> bool, r: Reach) {
    && r.active <= |hooks| && r.started <= servers && r.after <= |hooks|
    && (r.started > 0 ==> r.active == |hooks|)
    && (r.after > 0 ==> r.active == |hooks| && r.started == servers)
    && (forall a | a in Startup(hooks, r.(failed := None)) :: !fails(a))
    && (r.failed.Some? ==>
      && Next(hooks, servers, r, r.failed.value) && fails(r.failed.value)
      && Has(hooks, r.failed.value.kind, r.failed.value.index))
  }

  predicate Complete(hooks: seq<Hook>, servers: nat, r: Reach) {
    r == Reach(|hooks|, servers, |hooks|, None)
  }

  // ---------------------------------------------------------------------------
  // Order in sequences of calls
  // ---------------------------------------------------------------------------

  ghost predicate Precedes(log: seq<Action>, x: Action, y: Action) {
    forall p, q | 0 <= p < |log| && 0 <= q < |log| && log[p] == x && log[q] == y :: p < q
  }

  lemma InEither(left: seq<Action>, right: seq<Action>, a: Action)
    ensures a in left + right <==> a in left || a in right
  {
  }

  lemma InCall(hooks: seq<Hook>, kind: Kind, i: nat, a: Action)
    ensures a in Call(hooks, kind, i) <==> a == Action(kind, i) && Has(hooks, kind, i)
  {
  }

  lemma {:induction false} InUp(hooks: seq<Hook>, kind: Kind, n: nat, a: Action)
    ensures a in Up(hooks, kind, n) <==> a.kind == kind && a.index < n && Has(hooks, kind, a.index)
  {
    if n > 0 {
      var init, last := Up(hooks, kind, n - 1), Call(hooks, kind, n - 1);
      InUp(hooks, kind, n - 1, a);
      InCall(hooks, kind, n - 1, a);
      assert Up(hooks, kind, n) == init + last;
    }
  }

  lemma {:induction false} InDown(hooks: seq<Hook>, kind: Kind, n: nat, a: Action)
    ensures a in Down(hooks, kind, n) <==> a.kind == kind && a.index < n && Has(hooks, kind, a.index)
  {
    if n > 0 {
      var first, rest := Call(hooks, kind, n - 1), Down(hooks, kind, n - 1);
      InDown(hooks, kind, n - 1, a);
      InCall(hooks, kind, n - 1, a);
      assert Down(hooks, kind, n) == first + rest;
    }
  }

  lemma PrecedesAcross(left: seq<Action>, right: seq<Action>, x: Action, y: Action)
    requires x !in right && y !in left
    ensures Precedes(left + right, x, y)
  {
    var log := left + right;
    forall p, q | 0 <= p < |log| && 0 <= q < |log| && log[p] == x && log[q] == y ensures p < q {
    }
  }

  lemma PrecedesInLeft(left: seq<Action>, right: seq<Action>, x: Action, y: Action)
    requires Precedes(left, x, y) && x !in right && y !in right
    ensures Precedes(left + right, x, y)
  {
    var log := left + right;
    forall p, q | 0 <= p < |log| && 0 <= q < |log| && log[p] == x && log[q] == y ensures p < q {
      assert left[p] == x && left[q] == y;
    }
  }

  lemma PrecedesInRight(left: seq<Action>, right: seq<Action>, x: Action, y: Action)
    requires Precedes(right, x, y) && x !in left && y !in left
    ensures Precedes(left + right, x, y)
  {
    var log := left + right;
    forall p, q | 0 <= p < |log| && 0 <= q < |log| && log[p] == x && log[q] == y ensures p < q {
      assert right[p - |left|] == x && right[q - |left|] == y;
    }
  }

  /** First to last. */
  lemma {:induction false} UpAscends(hooks: seq<Hook>, kind: Kind, n: nat, i: nat, j: nat)
    requires i < j
    ensures Precedes(Up(hooks, kind, n), Action(kind, i), Action(kind, j))
  {
    if n > 0 {
      UpAscends(hooks, kind, n - 1, i, j);
      InUp(hooks, kind, n - 1, Action(kind, i));
      InUp(hooks, kind, n - 1, Action(kind, j));
      if n - 1 == j {
        PrecedesAcross(Up(hooks, kind, n - 1), Call(hooks, kind, n - 1), Action(kind, i), Action(kind, j));
      } else if n - 1 > j {
        PrecedesInLeft(Up(hooks, kind, n - 1), Call(hooks, kind, n - 1), Action(kind, i), Action(kind, j));
      } else {
        InUp(hooks, kind, n, Action(kind, j));
      }
    }
  }

  /** Last to first. */
  lemma {:induction false} DownDescends(hooks: seq<Hook>, kind: Kind, n: nat, i: nat, j: nat)
    requires i < j
    ensures Precedes(Down(hooks, kind, n), Action(kind, j), Action(kind, i))
  {
    if n > 0 {
      DownDescends(hooks, kind, n - 1, i, j);
      InDown(hooks, kind, n - 1, Action(kind, i));
      InDown(hooks, kind, n - 1, Action(kind, j));
      if n - 1 == j {
        PrecedesAcross(Call(hooks, kind, n - 1), Down(hooks, kind, n - 1), Action(kind, j), Action(kind, i));
      } else if n - 1 > j {
        PrecedesInRight(Call(hooks, kind, n - 1), Down(hooks, kind, n - 1), Action(kind, j), Action(kind, i));
      } else {
        InDown(hooks, kind, n, Action(kind, j));
      }
    }
  }

  // ---------------------------------------------------------------------------
  // Shutdown undoes startup
  // ---------------------------------------------------------------------------

  function Log(hooks: seq<Hook>, r: Reach): seq<Action> {
    Startup(hooks, r) + Teardown(hooks, r)
  }

  predicate IsStop(kind: Kind) {
    kind.BeforeStop? || kind.StopServer? || kind.AfterStop?
  }

  lemma InStartup(hooks: seq<Hook>, r: Reach, a: Action)
    ensures a in Startup(hooks, r) <==>
      || (Has(hooks, a.kind, a.index) &&
          match a.kind
          case BeforeStart => a.index < r.active
          case StartServer => a.index < r.started
          case AfterStart => a.index < r.after
          case _ => false)
      || r.failed == Some(a)
  {
    InUp(hooks, BeforeStart, r.active, a);
    InUp(hooks, StartServer, r.started, a);
    InUp(hooks, AfterStart, r.after, a);
  }

  lemma InShutdown(hooks: seq<Hook>, r: Reach, a: Action)
    ensures a in Teardown(hooks, r) <==>
      Has(hooks, a.kind, a.index) && IsStop(a.kind) && a.index < if a.kind.StopServer? then r.started else r.active
  {
    InDown(hooks, BeforeStop, r.active, a);
    InDown(hooks, StopServer, r.started, a);
    InDown(hooks, AfterStop, r.active, a);
  }

  /** A server is stopped if and only if its start succeeded. */
  lemma ServersUnwind(hooks: seq<Hook>, servers: nat, fails: Action -> bool, r: Reach, i: nat)
    requires Reachable(hooks, servers, fails, r)
    ensures Action(StopServer, i) in Log(hooks, r) <==>
      Action(StartServer, i) in Log(hooks, r) && !fails(Action(StartServer, i))
  {
    InStartup(hooks, r, Action(StartServer, i));
    InShutdown(hooks, r, Action(StartServer, i));
    InStartup(hooks, r, Action(StopServer, i));
    InShutdown(hooks, r, Action(StopServer, i));
    InStartup(hooks, r.(failed := None), Action(StartServer, i));
  }

  /** A hook is unwound if and only if it was activated: its BeforeStart succeeded, or was passed over as not set. */
  lemma HooksUnwind(hooks: seq<Hook>, servers: nat, fails: Action -> bool, r: Reach, kind: Kind, i: nat)
    requires Reachable(hooks, servers, fails, r)
    requires kind == BeforeStop || kind == AfterStop
    ensures Action(kind, i) in Log(hooks, r) <==> Has(hooks, kind, i) && i < r.active
    ensures Has(hooks, BeforeStart, i) ==>
      (i < r.active <==> Action(BeforeStart, i) in Log(hooks, r) && !fails(Action(BeforeStart, i)))
  {
    InStartup(hooks, r, Action(BeforeStart, i));
    InShutdown(hooks, r, Action(BeforeStart, i));
    InStartup(hooks, r, Action(kind, i));
    InShutdown(hooks, r, Action(kind, i));
    InStartup(hooks, r.(failed := None), Action(BeforeStart, i));
  }

  ghost predicate Once(log: seq<Action>) {
    forall p, q | 0 <= p < q < |log| :: log[p] != log[q]
  }

  lemma OnceAcross(left: seq<Action>, right: seq<Action>)
    requires Once(left) && Once(right) && forall a | a in left :: a !in right
    ensures Once(left + right)
  {
    var log := left + right;
    forall p, q | 0 <= p < q < |log| ensures log[p] != log[q] {
      if p < |left| <= q {
        assert left[p] in left;
        assert log[q] == right[q - |left|];
      }
    }
  }

  lemma {:induction false} UpOnce(hooks: seq<Hook>, kind: Kind, n: nat)
    ensures Once(Up(hooks, kind, n))
  {
    if n > 0 {
      UpOnce(hooks, kind, n - 1);
      InUp(hooks, kind, n - 1, Action(kind, n - 1));
      OnceAcross(Up(hooks, kind, n - 1), Call(hooks, kind, n - 1));
    }
  }

  lemma {:induction false} DownOnce(hooks: seq<Hook>, kind: Kind, n: nat)
    ensures Once(Down(hooks, kind, n))
  {
    if n > 0 {
      DownOnce(hooks, kind, n - 1);
      InDown(hooks, kind, n - 1, Action(kind, n - 1));
      OnceAcross(Call(hooks, kind, n - 1), Down(hooks, kind, n - 1));
    }
  }

  lemma StartupOnce(hooks: seq<Hook>, servers: nat, fails: Action -> bool, r: Reach)
    requires Reachable(hooks, servers, fails, r)
    ensures Once(Startup(hooks, r))
  {
    var before, start, afters :=
      Up(hooks, BeforeStart, r.active), Up(hooks, StartServer, r.started), Up(hooks, AfterStart, r.after);
    UpOnce(hooks, BeforeStart, r.active);
    UpOnce(hooks, StartServer, r.started);
    UpOnce(hooks, AfterStart, r.after);
    forall a ensures (a in before ==> a !in start) && (a in before + start ==> a !in afters) {
      InUp(hooks, BeforeStart, r.active, a);
      InUp(hooks, StartServer, r.started, a);
      InUp(hooks, AfterStart, r.after, a);
    }
    OnceAcross(before, start);
    OnceAcross(before + start, afters);
    if r.failed.Some? {
      assert Startup(hooks, r.(failed := None)) == before + start + afters;
      OnceAcross(before + start + afters, [r.failed.value]);
    }
  }

  lemma ShutdownOnce(hooks: seq<Hook>, r: Reach)
    ensures Once(Teardown(hooks, r))
  {
    var before, stop, afters :=
      Down(hooks, BeforeStop, r.active), Down(hooks, StopServer, r.started), Down(hooks, AfterStop, r.active);
    DownOnce(hooks, BeforeStop, r.active);
    DownOnce(hooks, StopServer, r.started);
    DownOnce(hooks, AfterStop, r.active);
    forall a ensures (a in before ==> a !in stop) && (a in before + stop ==> a !in afters) {
      InDown(hooks, BeforeStop, r.active, a);
      InDown(hooks, StopServer, r.started, a);
      InDown(hooks, AfterStop, r.active, a);
    }
    OnceAcross(before, stop);
    OnceAcross(before + stop, afters);
  }

  /** Nothing is called twice in one run. */
  lemma EverythingOnce(hooks: seq<Hook>, servers: nat, fails: Action -> bool, r: Reach)
    requires Reachable(hooks, servers, fails, r)
    ensures Once(Log(hooks, r))
  {
    StartupOnce(hooks, servers, fails, r);
    ShutdownOnce(hooks, r);
    forall a | a in Startup(hooks, r) ensures a !in Teardown(hooks, r) {
      InStartup(hooks, r, a);
      InShutdown(hooks, r, a);
    }
    OnceAcross(Startup(hooks, r), Teardown(hooks, r));
  }

  /** Calls of one stop kind come in descending order of their hooks or servers. */
  lemma ShutdownReverses(hooks: seq<Hook>, r: Reach, kind: Kind, i: nat, j: nat)
    requires IsStop(kind) && i < j
    ensures Precedes(Teardown(hooks, r), Action(kind, j), Action(kind, i))
  {
    var x, y := Action(kind, j), Action(kind, i);
    var before, stop, afters :=
      Down(hooks, BeforeStop, r.active), Down(hooks, StopServer, r.started), Down(hooks, AfterStop, r.active);
    DownDescends(hooks, kind, if kind.StopServer? then r.started else r.active, i, j);
    forall a ensures (a in before ==> a.kind == BeforeStop) && (a in stop ==> a.kind == StopServer) &&
                     (a in afters ==> a.kind == AfterStop)
    {
      InDown(hooks, BeforeStop, r.active, a);
      InDown(hooks, StopServer, r.started, a);
      InDown(hooks, AfterStop, r.active, a);
    }
    match kind {
      case BeforeStop => PrecedesInLeft(before, stop, x, y); PrecedesInLeft(before + stop, afters, x, y);
      case StopServer => PrecedesInRight(before, stop, x, y); PrecedesInLeft(before + stop, afters, x, y);
      case AfterStop => PrecedesInRight(before + stop, afters, x, y);
      case _ =>
    }
  }

  /** Components stop only after the servers have drained. */
  lemma ServersStopFirst(hooks: seq<Hook>, r: Reach, i: nat, j: nat)
    ensures Precedes(Teardown(hooks, r), Action(StopServer, i), Action(AfterStop, j))
  {
    var before, stop, afters :=
      Down(hooks, BeforeStop, r.active), Down(hooks, StopServer, r.started), Down(hooks, AfterStop, r.active);
    InDown(hooks, AfterStop, r.active, Action(StopServer, i));
    InDown(hooks, BeforeStop, r.active, Action(AfterStop, j));
    InDown(hooks, StopServer, r.started, Action(AfterStop, j));
    InEither(before, stop, Action(AfterStop, j));
    PrecedesAcross(before + stop, afters, Action(StopServer, i), Action(AfterStop, j));
  }

  /** Calls of one start kind come in ascending order of their hooks or servers. */
  lemma StartupInOrder(hooks: seq<Hook>, servers: nat, fails: Action -> bool, r: Reach, kind: Kind, i: nat, j: nat)
    requires Reachable(hooks, servers, fails, r) && !IsStop(kind) && i < j
    ensures Precedes(Startup(hooks, r), Action(kind, i), Action(kind, j))
  {
    var x, y := Action(kind, i), Action(kind, j);
    PassedInOrder(hooks, r, kind, i, j);
    var init := Startup(hooks, r.(failed := None));
    if r.failed.Some? {
      assert Startup(hooks, r) == init + [r.failed.value];
      InStartup(hooks, r.(failed := None), y);
      if r.failed == Some(y) {
        PrecedesAcross(init, [y], x, y);
      } else if r.failed == Some(x) {
        PrecedesAbsent(Startup(hooks, r), x, y);
      } else {
        PrecedesInLeft(init, [r.failed.value], x, y);
      }
    } else {
      assert r.(failed := None) == r;
    }
  }

  /** How many calls of a start kind have been passed. */
  function ReachOf(r: Reach, kind: Kind): nat {
    match kind
    case BeforeStart => r.active
    case StartServer => r.started
    case AfterStart => r.after
    case _ => 0
  }

  lemma PassedInOrder(hooks: seq<Hook>, r: Reach, kind: Kind, i: nat, j: nat)
    requires !IsStop(kind) && i < j
    ensures Precedes(Startup(hooks, r.(failed := None)), Action(kind, i), Action(kind, j))
  {
    var x, y := Action(kind, i), Action(kind, j);
    var before, start, afters :=
      Up(hooks, BeforeStart, r.active), Up(hooks, StartServer, r.started), Up(hooks, AfterStart, r.after);
    UpAscends(hooks, kind, ReachOf(r, kind), i, j);
    forall a ensures (a in before ==> a.kind == BeforeStart) && (a in start ==> a.kind == StartServer) &&
                     (a in afters ==> a.kind == AfterStart)
    {
      InUp(hooks, BeforeStart, r.active, a);
      InUp(hooks, StartServer, r.started, a);
      InUp(hooks, AfterStart, r.after, a);
    }
    match kind {
      case BeforeStart => PrecedesInLeft(before, start, x, y); PrecedesInLeft(before + start, afters, x, y);
      case StartServer => PrecedesInRight(before, start, x, y); PrecedesInLeft(before + start, afters, x, y);
      case AfterStart => PrecedesInRight(before + start, afters, x, y);
      case _ =>
    }
    assert Startup(hooks, r.(failed := None)) == before + start + afters;
  }

  lemma PrecedesAbsent(log: seq<Action>, x: Action, y: Action)
    requires y !in log
    ensures Precedes(log, x, y)
  {
  }

  /**
   A given hook has exactly its set callbacks called: AfterStart once it is reached, BeforeStop and AfterStop if the
   hook was activated.
   */
  lemma CallbacksAreCalled(hooks: seq<Hook>, servers: nat, fails: Action -> bool, r: Reach, i: nat)
    requires Reachable(hooks, servers, fails, r) && i < |hooks| && hooks[i].Given?
    ensures var log, cb := Log(hooks, r), hooks[i].callbacks;
            && (Action(BeforeStart, i) in log <==>
              cb.beforeStart && (i < r.active || r.failed == Some(Action(BeforeStart, i))))
            && (Action(AfterStart, i) in log <==>
              cb.afterStart && (i < r.after || r.failed == Some(Action(AfterStart, i))))
            && (Action(BeforeStop, i) in log <==> cb.beforeStop && i < r.active)
            && (Action(AfterStop, i) in log <==> cb.afterStop && i < r.active)
  {
    InLog(hooks, r, Action(BeforeStart, i));
    InLog(hooks, r, Action(AfterStart, i));
    InLog(hooks, r, Action(BeforeStop, i));
    InLog(hooks, r, Action(AfterStop, i));
  }

  lemma InLog(hooks: seq<Hook>, r: Reach, a: Action)
    ensures a in Log(hooks, r) <==>
      || r.failed == Some(a)
      || (Has(hooks, a.kind, a.index) &&
          a.index < match a.kind
                    case BeforeStart => r.active
                    case StartServer => r.started
                    case AfterStart => r.after
                    case StopServer => r.started
                    case _ => r.active)
  {
    InStartup(hooks, r, a);
    InShutdown(hooks, r, a);
  }

  /** A startup that ended with no failure and every stage passed has called all there is to call. */
  lemma CompleteCallsAll(hooks: seq<Hook>, servers: nat, fails: Action -> bool, r: Reach, a: Action)
    requires Reachable(hooks, servers, fails, r) && Complete(hooks, servers, r) && !IsStop(a.kind)
    requires if a.kind.StartServer? then a.index < servers else Has(hooks, a.kind, a.index)
    ensures a in Startup(hooks, r) && !fails(a)
  {
    InStartup(hooks, r, a);
    assert r.(failed := None) == r;
  }

  /** AfterStart is called only when every server has started, and a server only when every hook is active. */
  lemma StagesInOrder(hooks: seq<Hook>, servers: nat, fails: Action -> bool, r: Reach, a: Action, b: Action)
    requires Reachable(hooks, servers, fails, r) && b in Startup(hooks, r)
    requires || (b.kind == AfterStart && a.kind == StartServer && a.index < servers)
             || (b.kind == StartServer && a.kind == BeforeStart && Has(hooks, BeforeStart, a.index))
    ensures a in Startup(hooks, r) && !fails(a) && Precedes(Startup(hooks, r), a, b)
  {
    InStartup(hooks, r, a);
    InStartup(hooks, r, b);
    InStartup(hooks, r.(failed := None), a);
    var before, start, afters :=
      Up(hooks, BeforeStart, r.active), Up(hooks, StartServer, r.started), Up(hooks, AfterStart, r.after);
    var late := if r.failed.Some? then [r.failed.value] else [];
    InUp(hooks, BeforeStart, r.active, b);
    InUp(hooks, StartServer, r.started, a);
    InUp(hooks, StartServer, r.started, b);
    InUp(hooks, AfterStart, r.after, a);
    if b.kind == AfterStart {
      Regroup(before + start, afters, late);
      PrecedesAcross(before + start, afters + late, a, b);
    } else {
      Regroup(before, start, afters);
      Regroup(before, start + afters, late);
      PrecedesAcross(before, start + afters + late, a, b);
    }
  }

  /** BeforeStop is called before any server stops. */
  lemma HooksPrepareFirst(hooks: seq<Hook>, r: Reach, i: nat, j: nat)
    ensures Precedes(Teardown(hooks, r), Action(BeforeStop, i), Action(StopServer, j))
  {
    var before, stop, afters :=
      Down(hooks, BeforeStop, r.active), Down(hooks, StopServer, r.started), Down(hooks, AfterStop, r.active);
    InDown(hooks, BeforeStop, r.active, Action(StopServer, j));
    InDown(hooks, StopServer, r.started, Action(BeforeStop, i));
    InDown(hooks, AfterStop, r.active, Action(BeforeStop, i));
    Regroup(before, stop, afters);
    PrecedesAcross(before, stop + afters, Action(BeforeStop, i), Action(StopServer, j));
  }

  // ---------------------------------------------------------------------------
  // Components
  // ---------------------------------------------------------------------------

  /** The hooks of an application: the given ones, then one for each component of the list. */
  function AllHooks(given: seq<Callbacks>, components: seq<Component>): seq<Hook> {
    seq(|given|, i requires 0 <= i < |given| => Given(given[i])) +
    seq(|components|, i requires 0 <= i < |components| => OfComponent(components[i].name))
  }

  /** The hook at this position starts and stops the component of this name. */
  predicate Serves(hooks: seq<Hook>, i: nat, name: string) {
    i < |hooks| && hooks[i] == OfComponent(name)
  }

  /** Exactly one hook serves a component: the one at its place in the sorted list, after the given ones. */
  lemma OneHookEach(cs: seq<Component>, nodes: seq<nat>, given: seq<Callbacks>, k: nat, i: nat)
    requires ValidNames(cs) && GoodOrder(cs, nodes) && k < |nodes| && nodes[k] < |cs|
    ensures forall n | n in nodes :: n < |cs|
    ensures Serves(AllHooks(given, Listed(cs, nodes)), i, cs[nodes[k]].name) <==> i == |given| + k
  {
    var hooks := AllHooks(given, Listed(cs, nodes));
    if Serves(hooks, i, cs[nodes[k]].name) {
      var m := i - |given|;
      assert nodes[m] in nodes;
      assert cs[nodes[m]].name == cs[nodes[k]].name;
    }
  }

  lemma PlaceOf(cs: seq<Component>, nodes: seq<nat>, c: nat) returns (k: nat)
    requires GoodOrder(cs, nodes) && c < |cs|
    ensures k < |nodes| && nodes[k] == c
  {
    assert c in nodes;
    k :| 0 <= k < |nodes| && nodes[k] == c;
  }

  /**
   Of two component hooks the later one was started, so was the earlier one, and before it; both are stopped,
   the later one first.
   */
  ghost predicate Nested(hooks: seq<Hook>, fails: Action -> bool, r: Reach, earlier: nat, later: nat) {
    var log := Log(hooks, r);
    && Action(BeforeStart, later) in log && Action(BeforeStart, earlier) in log
    && !fails(Action(BeforeStart, earlier))
    && Precedes(log, Action(BeforeStart, earlier), Action(BeforeStart, later))
    && Action(AfterStop, later) in log && Action(AfterStop, earlier) in log
    && Precedes(log, Action(AfterStop, later), Action(AfterStop, earlier))
  }

  lemma HooksNest(hooks: seq<Hook>, servers: nat, fails: Action -> bool, r: Reach, i: nat, j: nat)
    requires Reachable(hooks, servers, fails, r)
    requires i < j < |hooks| && hooks[i].OfComponent? && hooks[j].OfComponent?
    requires Action(AfterStop, j) in Log(hooks, r)
    ensures Nested(hooks, fails, r, i, j)
  {
    var up, down := Startup(hooks, r), Teardown(hooks, r);
    ComponentUnwinds(hooks, servers, fails, r, i);
    ComponentUnwinds(hooks, servers, fails, r, j);
    StartupInOrder(hooks, servers, fails, r, BeforeStart, i, j);
    ShutdownReverses(hooks, r, AfterStop, i, j);
    PrecedesInLeft(up, down, Action(BeforeStart, i), Action(BeforeStart, j));
    PrecedesInRight(up, down, Action(AfterStop, j), Action(AfterStop, i));
  }

  /**
   Wherever startup ends: if component c was started (and so is stopped), everything it depends on was started
   before it and is stopped after it. `i` and `j` are the hooks that serve c and a component d it depends on.
   */
  lemma StopsBeforeDependencies(
      cs: seq<Component>, nodes: seq<nat>, given: seq<Callbacks>, hooks: seq<Hook>, servers: nat,
      fails: Action -> bool, r: Reach, c: nat, d: nat, i: nat, j: nat)
    requires ValidNames(cs) && GoodOrder(cs, nodes) && DependsOn(cs, c, d)
    requires (forall n | n in nodes :: n < |cs|) && hooks == AllHooks(given, Listed(cs, nodes))
    requires Serves(hooks, i, cs[c].name) && Serves(hooks, j, cs[d].name)
    requires Reachable(hooks, servers, fails, r) && Action(AfterStop, i) in Log(hooks, r)
    ensures Nested(hooks, fails, r, j, i)
  {
    var k := PlaceOf(cs, nodes, c);
    var m := OneStepBack(cs, nodes, k, d);
    OneHookEach(cs, nodes, given, k, i);
    OneHookEach(cs, nodes, given, m, j);
    HooksNest(hooks, servers, fails, r, j, i);
  }

  /** Stopped exactly when started; starts belong to startup and stops to shutdown. */
  lemma ComponentUnwinds(hooks: seq<Hook>, servers: nat, fails: Action -> bool, r: Reach, i: nat)
    requires Reachable(hooks, servers, fails, r) && i < |hooks| && hooks[i].OfComponent?
    ensures Action(AfterStop, i) in Log(hooks, r) <==>
      Action(BeforeStart, i) in Log(hooks, r) && !fails(Action(BeforeStart, i))
    ensures Action(AfterStop, i) !in Startup(hooks, r) && Action(BeforeStart, i) !in Teardown(hooks, r)
    ensures Action(AfterStop, i) in Log(hooks, r) <==> i < r.active
  {
    HooksUnwind(hooks, servers, fails, r, AfterStop, i);
    InStartup(hooks, r, Action(AfterStop, i));
    InShutdown(hooks, r, Action(AfterStop, i));
    InShutdown(hooks, r, Action(BeforeStart, i));
  }

  // ---------------------------------------------------------------------------
  // The application object
  // ---------------------------------------------------------------------------

  datatype State = New | Starting | Ready | Draining | Stopped | Failed

  /** Why the run context ended: a Stop call, an ordinary cancellation or deadline, or a cause of the caller's own. */
  datatype Cause = StopRequested | ContextEnded | OtherCause

  /** What ended the serving part of a run. */
  datatype Ending = Cancelled(cause: Cause) | CallFailed | ServerFailed

  predicate Expected(e: Ending) {
    e.Cancelled? && !e.cause.OtherCause?
  }

  lemma StartupFails(hooks: seq<Hook>, r: Reach, a: Action)
    requires r.failed.None?
    ensures Startup(hooks, r.(failed := Some(a))) == Startup(hooks, r) + [a]
  {
  }

  /** Passing a call extends the startup by that call, if the callback is set. */
  lemma StartupGrows(hooks: seq<Hook>, servers: nat, r: Reach, kind: Kind, i: nat)
    requires r.failed.None? && Next(hooks, servers, r, Action(kind, i))
    ensures Startup(hooks, Passed(r, kind)) == Startup(hooks, r) + Call(hooks, kind, i)
  {
    var x, y, z :=
      Up(hooks, BeforeStart, r.active), Up(hooks, StartServer, r.started), Up(hooks, AfterStart, r.after);
    var c := Call(hooks, kind, i);
    match kind {
      case BeforeStart => assert Up(hooks, kind, i + 1) == x + c; assert y == [] && z == [];
      case StartServer => assert Up(hooks, kind, i + 1) == y + c; assert z == [];
      case AfterStart => assert Up(hooks, kind, i + 1) == z + c;
      case _ =>
    }
  }

  function Passed(r: Reach, kind: Kind): Reach {
    match kind
    case BeforeStart => r.(active := r.active + 1)
    case StartServer => r.(started := r.started + 1)
    case AfterStart => r.(after := r.after + 1)
    case _ => r
  }

  /** A call that succeeds leaves a reachable state, and so does one that fails. */
  lemma AttemptReaches(hooks: seq<Hook>, servers: nat, fails: Action -> bool, r: Reach, kind: Kind, i: nat)
    requires Reachable(hooks, servers, fails, r) && r.failed.None? && Next(hooks, servers, r, Action(kind, i))
    ensures Has(hooks, kind, i) && fails(Action(kind, i)) ==>
      Reachable(hooks, servers, fails, r.(failed := Some(Action(kind, i))))
    ensures !(Has(hooks, kind, i) && fails(Action(kind, i))) ==> Reachable(hooks, servers, fails, Passed(r, kind))
  {
    StartupGrows(hooks, servers, r, kind, i);
    assert r.(failed := None) == r;
    assert r.(failed := Some(Action(kind, i))).(failed := None) == r;
    assert Passed(r, kind).(failed := None) == Passed(r, kind);
  }

  lemma Regroup(a: seq<Action>, b: seq<Action>, c: seq<Action>)
    ensures a + b + c == a + (b + c)
  {
  }

  ghost predicate AnyFails(fails: Action -> bool, log: seq<Action>) {
    exists a | a in log :: fails(a)
  }

  lemma AnyFailsAcross(fails: Action -> bool, left: seq<Action>, right: seq<Action>)
    ensures AnyFails(fails, left + right) <==> AnyFails(fails, left) || AnyFails(fails, right)
  {
    if AnyFails(fails, left) {
      var a :| a in left && fails(a);
      assert a in left + right;
    }
    if AnyFails(fails, right) {
      var a :| a in right && fails(a);
      assert a in left + right;
    }
  }

  /** `fails` and `cancelled` are the behaviour of user code and of the run context at its successive checks. */
  class App {
    const hooks: seq<Hook>
    const servers: nat
    const fails: Action -> bool
    const cancelled: nat -> bool
    const cause: Cause
    var state: State
    var log: seq<Action>
    var checks: nat

    constructor (hooks: seq<Hook>, servers: nat, fails: Action -> bool, cancelled: nat -> bool, cause: Cause)
      ensures this.hooks == hooks && this.servers == servers && this.fails == fails
      ensures this.cancelled == cancelled && this.cause == cause
      ensures state == New && log == [] && checks == 0
    {
      this.hooks, this.servers, this.fails := hooks, servers, fails;
      this.cancelled, this.cause := cancelled, cause;
      state, log, checks := New, [], 0;
    }

    method CheckContext() returns (ended: bool)
      modifies this`checks
      ensures checks == old(checks) + 1 && ended == cancelled(old(checks))
    {
      ended := cancelled(checks);
      checks := checks + 1;
    }

    /** The call ended the startup because it failed, or because the context was found cancelled. */
    ghost predicate Explains(ending: Ending, r: Reach, since: nat)
      reads this`checks
    {
      match ending
      case Cancelled(c) => c == cause && exists k | since <= k < checks :: cancelled(k)
      case CallFailed => r.failed.Some?
      case ServerFailed => false
    }

    /** One step of startup: check the context, then make the call unless the callback is not set. */
    method Attempt(kind: Kind, i: nat, ghost base: seq<Action>, ghost r: Reach)
      returns (ending: Option<Ending>, ghost r': Reach)
      requires Reachable(hooks, servers, fails, r) && r.failed.None? && Next(hooks, servers, r, Action(kind, i))
      requires log == base + Startup(hooks, r)
      modifies this`log, this`checks
      ensures Reachable(hooks, servers, fails, r') && log == base + Startup(hooks, r') && checks >= old(checks)
      ensures ending.None? ==> r' == Passed(r, kind)
      ensures ending.Some? ==> r' == r.(failed := r'.failed) && Explains(ending.value, r', old(checks))
    {
      r' := r;
      var stop := CheckContext();
      if stop {
        assert cancelled(old(checks));
        return Some(Ending.Cancelled(cause)), r';
      }
      AttemptReaches(hooks, servers, fails, r, kind, i);
      StartupGrows(hooks, servers, r, kind, i);
      if Has(hooks, kind, i) {
        log := log + [Action(kind, i)];
        if fails(Action(kind, i)) {
          r' := r.(failed := Some(Action(kind, i)));
          StartupFails(hooks, r, Action(kind, i));
          stop := CheckContext();
          assert stop ==> cancelled(old(checks) + 1);
          return Some(if stop then Ending.Cancelled(cause) else CallFailed), r';
        }
      }
      r' := Passed(r, kind);
      ending := None;
    }

    /** Hooks, then servers, then AfterStart; it stops short only where a call failed or the context ended. */
    method Start() returns (started: nat, active: nat, ending: Option<Ending>, ghost r: Reach)
      modifies this`log, this`checks
      ensures Reachable(hooks, servers, fails, r) && r.started == started && r.active == active
      ensures log == old(log) + Startup(hooks, r) && checks >= old(checks)
      ensures ending.None? ==> Complete(hooks, servers, r)
      ensures ending.Some? ==> Explains(ending.value, r, old(checks))
    {
      started, active, r := 0, 0, Reach(0, 0, 0, None);
      for i := 0 to |hooks|
        invariant r == Reach(i, 0, 0, None) && started == 0 && active == i && Reachable(hooks, servers, fails, r)
        invariant log == old(log) + Startup(hooks, r) && checks >= old(checks)
      {
        ending, r := Attempt(BeforeStart, i, old(log), r);
        if ending.Some? {
          return;
        }
        active := active + 1;
      }
      for i := 0 to servers
        invariant r == Reach(|hooks|, i, 0, None) && started == i && active == |hooks|
        invariant Reachable(hooks, servers, fails, r)
        invariant log == old(log) + Startup(hooks, r) && checks >= old(checks)
      {
        ending, r := Attempt(StartServer, i, old(log), r);
        if ending.Some? {
          return;
        }
        started := started + 1;
      }
      for i := 0 to active
        invariant r == Reach(|hooks|, servers, i, None) && Reachable(hooks, servers, fails, r)
        invariant log == old(log) + Startup(hooks, r) && checks >= old(checks)
      {
        ending, r := Attempt(AfterStart, i, old(log), r);
        if ending.Some? {
          return;
        }
      }
      var stop := CheckContext();
      if stop {
        return started, active, Some(Ending.Cancelled(cause)), r;
      }
      ending := None;
    }

    /** Makes the calls of one kind last to first, whatever fails, and reports the failures. */
    method Unwind(kind: Kind, n: nat) returns (failures: seq<Action>)
      modifies this`log
      ensures log == old(log) + Down(hooks, kind, n)
      ensures failures != [] <==> AnyFails(fails, Down(hooks, kind, n))
    {
      failures := [];
      var i := n;
      while i > 0
        invariant 0 <= i <= n
        invariant log + Down(hooks, kind, i) == old(log) + Down(hooks, kind, n)
        invariant AnyFails(fails, Down(hooks, kind, n)) <==> failures != [] || AnyFails(fails, Down(hooks, kind, i))
      {
        i := i - 1;
        ghost var before := log;
        AnyFailsAcross(fails, Call(hooks, kind, i), Down(hooks, kind, i));
        if Has(hooks, kind, i) {
          log := log + [Action(kind, i)];
          if fails(Action(kind, i)) {
            failures := failures + [Action(kind, i)];
          }
        }
        assert log == before + Call(hooks, kind, i);
        Regroup(before, Call(hooks, kind, i), Down(hooks, kind, i));
      }
    }

    method Shutdown(started: nat, active: nat, ghost r: Reach) returns (failed: bool)
      requires r.started == started && r.active == active
      modifies this`log
      ensures log == old(log) + Teardown(hooks, r)
      ensures failed <==> AnyFails(fails, Teardown(hooks, r))
    {
      ghost var x, y, z :=
        Down(hooks, BeforeStop, active), Down(hooks, StopServer, started), Down(hooks, AfterStop, active);
      var before := Unwind(BeforeStop, active);
      var stop := Unwind(StopServer, started);
      var afters := Unwind(AfterStop, active);
      failed := before != [] || stop != [] || afters != [];
      Regroup(old(log), x, y);
      Regroup(old(log), x + y, z);
      AnyFailsAcross(fails, x, y);
      AnyFailsAcross(fails, x + y, z);
    }

    /**
     A run that is not refused makes exactly the calls of some reachable startup and of the shutdown that
     undoes it, and ends Stopped exactly when it ended as asked for and nothing failed to stop.
     */
    method Run(serverFails: bool) returns (refused: bool, ending: Ending, ghost r: Reach)
      modifies this
      ensures refused <==> old(state) != New
      ensures refused ==> state == old(state) && log == old(log)
      ensures !refused ==>
        && Reachable(hooks, servers, fails, r)
        && log == old(log) + Log(hooks, r)
        && (state == Stopped || state == Failed)
        && (state == Stopped <==>
          && (ending == Ending.Cancelled(StopRequested) || ending == Ending.Cancelled(ContextEnded))
          && !AnyFails(fails, Teardown(hooks, r)))
        && (ending.ServerFailed? ==> serverFails && Complete(hooks, servers, r))
        && (ending.CallFailed? ==> r.failed.Some?)
        && (ending.Cancelled? ==> ending.cause == cause)
        && (ending.Cancelled? && !Complete(hooks, servers, r) ==>
          exists k | old(checks) <= k < checks :: cancelled(k))
        && (serverFails && !ending.ServerFailed? ==>
          r.failed.Some? || exists k | old(checks) <= k < checks :: cancelled(k))
    {
      refused, ending, r := state != New, CallFailed, Reach(0, 0, 0, None);
      if refused {
        return;
      }
      state := Starting;
      var started, active, early;
      started, active, early, r := Start();
      if early.None? {
        state := Ready;
        ending := if serverFails then ServerFailed else Ending.Cancelled(cause);
      } else {
        ending := early.value;
      }
      state := Draining;
      Regroup(old(log), Startup(hooks, r), Teardown(hooks, r));
      var failed := Shutdown(started, active, r);
      state := if !failed && Expected(ending) then Stopped else Failed;
    }
  }

  /** An application is built exactly from sortable components; their hooks follow the given ones in sorted order. */
  method NewApp(
      given: seq<Callbacks>, cs: seq<Component>, servers: nat,
      fails: Action -> bool, cancelled: nat -> bool, cause: Cause)
    returns (app: Option<App>, ghost nodes: seq<nat>)
    ensures app.Some? <==> ValidNames(cs) && ValidDependencies(cs) && Acyclic(cs)
    ensures app.Some? ==>
      && fresh(app.value) && GoodOrder(cs, nodes) && (forall n | n in nodes :: n < |cs|)
      && app.value.hooks == AllHooks(given, Listed(cs, nodes))
      && app.value.servers == servers && app.value.fails == fails
      && app.value.state == New && app.value.log == []
  {
    var sorting;
    sorting, nodes := SortComponents(cs);
    if sorting.Rejected? {
      return None, nodes;
    }
    var hooks := seq(|given|, i requires 0 <= i < |given| => Given(given[i]));
    for i := 0 to |sorting.order|
      invariant hooks == AllHooks(given, sorting.order[..i])
    {
      hooks := hooks + [OfComponent(sorting.order[i].name)];
    }
    assert sorting.order[..|sorting.order|] == sorting.order;
    var created := new App(hooks, servers, fails, cancelled, cause);
    return Some(created), nodes;
  }

  /** In the calls of a run, no component is stopped before a component that depends on it and was started. */
  ghost predicate DependentsFirst(cs: seq<Component>, hooks: seq<Hook>, fails: Action -> bool, r: Reach) {
    forall c: nat, d: nat, i: nat, j: nat |
      && DependsOn(cs, c, d) && Serves(hooks, i, cs[c].name) && Serves(hooks, j, cs[d].name)
      && Action(AfterStop, i) in Log(hooks, r) ::
      Nested(hooks, fails, r, j, i)
  }

  /** This hook alone serves the component, and it is stopped if and only if its start succeeded. */
  ghost predicate UnwoundBy(hooks: seq<Hook>, fails: Action -> bool, log: seq<Action>, name: string, i: nat) {
    && (forall j: nat :: Serves(hooks, j, name) <==> j == i)
    && (Action(AfterStop, i) in log <==> Action(BeforeStart, i) in log && !fails(Action(BeforeStart, i)))
  }

  ghost predicate Unwound(hooks: seq<Hook>, fails: Action -> bool, log: seq<Action>, name: string) {
    exists i: nat :: UnwoundBy(hooks, fails, log, name, i)
  }

  ghost predicate EachUnwound(cs: seq<Component>, hooks: seq<Hook>, fails: Action -> bool, log: seq<Action>) {
    forall c | 0 <= c < |cs| :: Unwound(hooks, fails, log, cs[c].name)
  }

  /** The one hook of a component is stopped if and only if its start succeeded. */
  lemma ComponentIsUnwound(
      cs: seq<Component>, nodes: seq<nat>, given: seq<Callbacks>, hooks: seq<Hook>, servers: nat,
      fails: Action -> bool, r: Reach, c: nat)
    requires ValidNames(cs) && GoodOrder(cs, nodes) && c < |cs|
    requires (forall n | n in nodes :: n < |cs|) && hooks == AllHooks(given, Listed(cs, nodes))
    requires Reachable(hooks, servers, fails, r)
    ensures Unwound(hooks, fails, Log(hooks, r), cs[c].name)
  {
    var k := PlaceOf(cs, nodes, c);
    var i := |given| + k;
    forall j: nat ensures Serves(hooks, j, cs[c].name) <==> j == i {
      OneHookEach(cs, nodes, given, k, j);
    }
    ComponentUnwinds(hooks, servers, fails, r, i);
    assert UnwoundBy(hooks, fails, Log(hooks, r), cs[c].name, i);
  }

  lemma ComponentsUnwind(
      cs: seq<Component>, nodes: seq<nat>, given: seq<Callbacks>, hooks: seq<Hook>, servers: nat,
      fails: Action -> bool, r: Reach)
    requires ValidNames(cs) && GoodOrder(cs, nodes)
    requires (forall n | n in nodes :: n < |cs|) && hooks == AllHooks(given, Listed(cs, nodes))
    requires Reachable(hooks, servers, fails, r)
    ensures DependentsFirst(cs, hooks, fails, r) && EachUnwound(cs, hooks, fails, Log(hooks, r))
  {
    forall c: nat, d: nat, i: nat, j: nat |
      && DependsOn(cs, c, d) && Serves(hooks, i, cs[c].name) && Serves(hooks, j, cs[d].name)
      && Action(AfterStop, i) in Log(hooks, r)
      ensures Nested(hooks, fails, r, j, i)
    {
      StopsBeforeDependencies(cs, nodes, given, hooks, servers, fails, r, c, d, i, j);
    }
    forall c | 0 <= c < |cs| ensures Unwound(hooks, fails, Log(hooks, r), cs[c].name) {
      ComponentIsUnwound(cs, nodes, given, hooks, servers, fails, r, c);
    }
  }

  /**
   The whole life of an application built from components: whatever fails and whenever the context ends, each
   component is stopped exactly if it was started, and only after every started component that depends on it.
   */
  method BuildAndRun(
      given: seq<Callbacks>, cs: seq<Component>, servers: nat,
      fails: Action -> bool, cancelled: nat -> bool, cause: Cause, serverFails: bool)
    returns (app: Option<App>, ghost r: Reach)
    ensures app.Some? <==> ValidNames(cs) && ValidDependencies(cs) && Acyclic(cs)
    ensures app.Some? ==>
      && app.value.log == Log(app.value.hooks, r)
      && DependentsFirst(cs, app.value.hooks, fails, r)
      && EachUnwound(cs, app.value.hooks, fails, app.value.log)
  {
    r := Reach(0, 0, 0, None);
    ghost var nodes;
    app, nodes := NewApp(given, cs, servers, fails, cancelled, cause);
    if app.Some? {
      var refused, ending;
      refused, ending, r := app.value.Run(serverFails);
      ComponentsUnwind(cs, nodes, given, app.value.hooks, servers, fails, r);
    }
  }
}
