/**
 The bulkhead (governance/bulkhead/bulkhead.go): a FIFO slot allocator whose limits are set anew by
 every Acquire.

 A waiter is named by its place in the order in which waiters were created; `ready` is the order in
 which ready channels were closed.
 */
module Bulkhead {

  type Id = nat

  datatype Policy = Policy(enabled: bool, maxConcurrency: int, maxQueue: int, queueTimeout: int)

  predicate ValidPolicy(c: Policy) {
    && c.maxConcurrency > 0 && c.maxQueue >= 0 && c.queueTimeout >= 0
    && (c.maxQueue > 0 ==> c.queueTimeout > 0)
    && (c.maxQueue == 0 ==> c.queueTimeout <= 0)
  }

  datatype WaiterState = Queued | Granted | Canceled

  datatype Gate = Gate(
    maxConcurrency: int, maxQueue: int, inflight: int,
    waiters: seq<Id>, states: map<Id, WaiterState>, created: nat, ready: seq<Id>,
    queueHighWater: nat, accepted: nat, rejected: nat, queueTimeouts: nat, queueCancellations: nat)

  function NewGate(): Gate {
    Gate(0, 0, 0, [], map[], 0, [], 0, 0, 0, 0, 0)
  }

  // ---------------------------------------------------------------------------
  // The critical sections
  // ---------------------------------------------------------------------------

  /** Wakes the oldest waiter that is still queued; waiters found in another state are dropped. */
  function GrantOldest(g: Gate): Gate
    decreases |g.waiters|
  {
    if g.waiters == [] then g
    else
      var w, rest := g.waiters[0], g.waiters[1..];
      if w in g.states && g.states[w].Queued? then
        g.(waiters := rest, states := g.states[w := Granted], inflight := g.inflight + 1,
           accepted := g.accepted + 1, ready := g.ready + [w])
      else GrantOldest(g.(waiters := rest))
  }

  function GrantNext(g: Gate): (r: Gate)
    ensures |r.waiters| <= |g.waiters|
    ensures 0 < g.maxConcurrency && g.inflight < g.maxConcurrency && g.waiters != [] ==>
      |r.waiters| < |g.waiters|
    ensures r.maxConcurrency == g.maxConcurrency
  {
    GrantOldestShrinks(g);
    if g.maxConcurrency <= 0 || g.inflight >= g.maxConcurrency then g else GrantOldest(g)
  }

  lemma GrantOldestShrinks(g: Gate)
    ensures |GrantOldest(g).waiters| <= |g.waiters|
    ensures g.waiters != [] ==> |GrantOldest(g).waiters| < |g.waiters|
    ensures GrantOldest(g).maxConcurrency == g.maxConcurrency
    decreases |g.waiters|
  {
    if g.waiters != [] && !(g.waiters[0] in g.states && g.states[g.waiters[0]].Queued?) {
      GrantOldestShrinks(g.(waiters := g.waiters[1..]));
    }
  }

  /** Grants until the limit is reached or the queue is empty. */
  function GrantAll(g: Gate): Gate
    requires g.maxConcurrency > 0
    decreases |g.waiters|
  {
    if g.inflight < g.maxConcurrency && g.waiters != [] then GrantAll(GrantNext(g)) else g
  }

  datatype Answer = Unguarded | InvalidPolicy | Permit | Full | Wait(id: Id)

  /** The first critical section of Acquire. */
  function Admit(g: Gate, c: Policy): (Gate, Answer) {
    if !c.enabled then (g, Unguarded)
    else if !ValidPolicy(c) then (g, InvalidPolicy)
    else Seat(Limited(g, c), c)
  }

  /** This call's limits take effect, and whoever they admit is granted first. */
  function Limited(g: Gate, c: Policy): Gate
    requires ValidPolicy(c)
  {
    GrantAll(g.(maxConcurrency := c.maxConcurrency, maxQueue := c.maxQueue))
  }

  function Seat(g: Gate, c: Policy): (Gate, Answer) {
    if g.inflight < c.maxConcurrency && g.waiters == [] then
      (g.(inflight := g.inflight + 1, accepted := g.accepted + 1), Permit)
    else if c.maxQueue == 0 || |g.waiters| >= c.maxQueue then
      (g.(rejected := g.rejected + 1), Full)
    else
      var id := g.created;
      (g.(waiters := g.waiters + [id], states := g.states[id := Queued], created := id + 1,
          queueHighWater := if |g.waiters| + 1 > g.queueHighWater then |g.waiters| + 1 else g.queueHighWater),
       Wait(id))
  }

  function DropSlot(g: Gate): Gate {
    if g.inflight > 0 then g.(inflight := g.inflight - 1) else g
  }

  function Release(g: Gate): Gate {
    GrantNext(DropSlot(g))
  }

  function Without(ws: seq<Id>, w: Id): seq<Id> {
    if ws == [] then [] else if ws[0] == w then ws[1..] else [ws[0]] + Without(ws[1..], w)
  }

  function Tally(g: Gate, timedOut: bool): Gate {
    if timedOut then g.(queueTimeouts := g.queueTimeouts + 1)
    else g.(queueCancellations := g.queueCancellations + 1)
  }

  function Cancel(g: Gate, w: Id, timedOut: bool): Gate
    requires w in g.states
  {
    match g.states[w]
    case Queued =>
      GrantNext(Tally(g.(states := g.states[w := Canceled], waiters := Without(g.waiters, w)), timedOut))
    case Granted => GrantNext(Tally(DropSlot(g.(states := g.states[w := Canceled])), timedOut))
    case Canceled => g
  }

  // ---------------------------------------------------------------------------
  // Callers
  // ---------------------------------------------------------------------------

  /**
   The gate with everyone using it: permits handed out and not yet released, waiters whose Acquire
   has not returned, and counts of arrivals, releases and slots given back by cancelled waiters.
   */
  datatype World = World(
    gate: Gate, permits: nat, pending: set<Id>, arrivals: nat, releases: nat, lapsed: nat)

  datatype Event =
    | Arrive(policy: Policy)
    | Deliver(waiter: Id)
    | Abandon(waiter: Id, timedOut: bool)
    | GiveBack

  function Start(): World {
    World(NewGate(), 0, {}, 0, 0, 0)
  }

  /** One critical section, or a granted waiter's return; impossible events change nothing. */
  function Step(w: World, e: Event): World {
    match e
    case Arrive(policy) =>
      if !policy.enabled || !ValidPolicy(policy) then w
      else Seated(w.(gate := Limited(w.gate, policy)), policy)
    case Deliver(id) =>
      if id in w.pending && id in w.gate.states && w.gate.states[id].Granted? then
        w.(pending := w.pending - {id}, permits := w.permits + 1)
      else w
    case Abandon(id, timedOut) =>
      if id in w.pending && id in w.gate.states then
        w.(gate := Cancel(w.gate, id, timedOut), pending := w.pending - {id},
           lapsed := w.lapsed + if w.gate.states[id].Granted? then 1 else 0)
      else w
    case GiveBack =>
      if w.permits > 0 then
        w.(gate := Release(w.gate), permits := w.permits - 1, releases := w.releases + 1)
      else w
  }

  function Seated(w: World, policy: Policy): World {
    var (gate, answer) := Seat(w.gate, policy);
    var w1 := w.(gate := gate, arrivals := w.arrivals + 1);
    match answer
    case Permit => w1.(permits := w.permits + 1)
    case Wait(id) => w1.(pending := w.pending + {id})
    case _ => w1
  }

  function Run(es: seq<Event>): World {
    if es == [] then Start() else Step(Run(es[..|es| - 1]), es[|es| - 1])
  }

  // ---------------------------------------------------------------------------
  // What every critical section keeps
  // ---------------------------------------------------------------------------

  /** Waiters that were granted a slot and whose Acquire has not returned. */
  ghost function Reserved(g: Gate, pending: set<Id>): set<Id> {
    set id | id in pending && id in g.states && g.states[id].Granted?
  }

  ghost predicate Ascending(s: seq<Id>) {
    forall i, j | 0 <= i < j < |s| :: s[i] < s[j]
  }

  /** Queued waiters are exactly the pending ones in state queued, in creation order. */
  ghost predicate Orderly(g: Gate, pending: set<Id>) {
    && Ascending(g.waiters) && Ascending(g.ready)
    && (forall id | id in g.states :: id < g.created)
    && (forall id | id in g.waiters :: id in g.states && g.states[id].Queued? && id in pending)
    && (forall id | id in pending :: id in g.states && !g.states[id].Canceled?)
    && (forall id | id in g.states && g.states[id].Queued? :: id in g.waiters)
    && (forall id | id in g.ready :: id in g.states && !g.states[id].Queued?)
    && (forall a, b | a in g.ready && b in g.waiters :: a < b)
  }

  ghost predicate Balanced(w: World) {
    && w.gate.inflight == w.permits + |Reserved(w.gate, w.pending)|
    && w.gate.accepted == w.gate.inflight + w.releases + w.lapsed
    && w.arrivals + w.lapsed ==
       w.gate.accepted + w.gate.rejected + w.gate.queueTimeouts + w.gate.queueCancellations + |w.gate.waiters|
  }

  /** A waiter is left waiting only while the limit in force is used up. */
  ghost predicate NoLostWakeup(g: Gate) {
    g.waiters != [] ==> 0 < g.maxConcurrency <= g.inflight
  }

  ghost predicate Sound(w: World) {
    Orderly(w.gate, w.pending) && Balanced(w)
  }

  lemma AscendingSnoc(s: seq<Id>, x: Id)
    requires Ascending(s) && forall y | y in s :: y < x
    ensures Ascending(s + [x]) && forall y | y in s + [x] :: y in s || y == x
  {
    forall i | 0 <= i < |s| ensures s[i] < x {
      var y := s[i];
      assert y in s;
    }
  }

  lemma AscendingTail(s: seq<Id>)
    requires Ascending(s) && s != []
    ensures Ascending(s[1..]) && forall y | y in s[1..] :: s[0] < y && y in s
    ensures forall y | y in s :: y == s[0] || y in s[1..]
  {
  }

  /** Granting the oldest waiter, spelled out for an orderly queue. */
  lemma GrantTakesHead(g: Gate, pending: set<Id>)
    requires Orderly(g, pending) && g.waiters != []
    ensures var w := g.waiters[0];
            GrantOldest(g) == g.(waiters := g.waiters[1..], states := g.states[w := Granted],
                                 inflight := g.inflight + 1, accepted := g.accepted + 1, ready := g.ready + [w])
  {
    assert g.waiters[0] in g.waiters;
  }

  lemma GrantKeepsOrder(g: Gate, pending: set<Id>)
    requires Orderly(g, pending) && g.waiters != []
    ensures Orderly(GrantOldest(g), pending)
  {
    GrantTakesHead(g, pending);
    AscendingSnoc(g.ready, g.waiters[0]);
    AscendingTail(g.waiters);
  }

  lemma GrantIsHead(g: Gate, pending: set<Id>)
    requires Orderly(g, pending) && g.waiters != []
    ensures var w := g.waiters[0];
            GrantOldest(g) == g.(waiters := g.waiters[1..], states := g.states[w := Granted],
                                 inflight := g.inflight + 1, accepted := g.accepted + 1, ready := g.ready + [w])
    ensures Orderly(GrantOldest(g), pending)
    ensures |Reserved(GrantOldest(g), pending)| == |Reserved(g, pending)| + 1
  {
    GrantTakesHead(g, pending);
    GrantKeepsOrder(g, pending);
    assert g.waiters[0] in g.waiters;
    assert Reserved(GrantOldest(g), pending) == Reserved(g, pending) + {g.waiters[0]};
  }

  lemma GrantNextIsSound(w: World)
    requires Sound(w)
    ensures Sound(w.(gate := GrantNext(w.gate)))
  {
    if 0 < w.gate.maxConcurrency && w.gate.inflight < w.gate.maxConcurrency && w.gate.waiters != [] {
      GrantIsHead(w.gate, w.pending);
    }
  }

  lemma {:induction false} GrantAllIsSound(w: World)
    requires Sound(w) && w.gate.maxConcurrency > 0
    ensures Sound(w.(gate := GrantAll(w.gate)))
    ensures NoLostWakeup(GrantAll(w.gate))
    ensures GrantAll(w.gate).maxConcurrency == w.gate.maxConcurrency && GrantAll(w.gate).maxQueue == w.gate.maxQueue
    ensures |GrantAll(w.gate).waiters| <= |w.gate.waiters|
    ensures w.gate.inflight <= w.gate.maxConcurrency ==>
      GrantAll(w.gate).inflight <= w.gate.maxConcurrency
    decreases |w.gate.waiters|
  {
    if w.gate.inflight < w.gate.maxConcurrency && w.gate.waiters != [] {
      GrantNextIsSound(w);
      GrantIsHead(w.gate, w.pending);
      GrantAllIsSound(w.(gate := GrantNext(w.gate)));
    }
  }

  lemma TakeSlotIsSound(w: World)
    requires Sound(w)
    ensures Sound(w.(gate := w.gate.(inflight := w.gate.inflight + 1, accepted := w.gate.accepted + 1),
                     permits := w.permits + 1, arrivals := w.arrivals + 1))
  {
    var g := w.gate.(inflight := w.gate.inflight + 1, accepted := w.gate.accepted + 1);
    assert Reserved(g, w.pending) == Reserved(w.gate, w.pending);
  }

  lemma RejectIsSound(w: World)
    requires Sound(w)
    ensures Sound(w.(gate := w.gate.(rejected := w.gate.rejected + 1), arrivals := w.arrivals + 1))
  {
    assert Reserved(w.gate.(rejected := w.gate.rejected + 1), w.pending) == Reserved(w.gate, w.pending);
  }

  /** A new waiter goes to the end of the queue. */
  lemma EnqueueIsSound(w: World, highWater: nat)
    requires Sound(w)
    ensures var id := w.gate.created;
            var g := w.gate.(waiters := w.gate.waiters + [id], states := w.gate.states[id := Queued],
                             created := id + 1, queueHighWater := highWater);
            Sound(w.(gate := g, pending := w.pending + {id}, arrivals := w.arrivals + 1))
  {
    var g0, id := w.gate, w.gate.created;
    var g := g0.(waiters := g0.waiters + [id], states := g0.states[id := Queued],
                  created := id + 1, queueHighWater := highWater);
    forall i | 0 <= i < |g0.waiters| ensures g0.waiters[i] < id {
      var x := g0.waiters[i];
      assert x in g0.waiters;
    }
    assert Reserved(g, w.pending + {id}) == Reserved(g0, w.pending);
  }

  lemma SeatedIsSound(w: World, policy: Policy)
    requires Sound(w) && NoLostWakeup(w.gate) && ValidPolicy(policy)
    requires w.gate.maxConcurrency == policy.maxConcurrency
    ensures var w' := Seated(w, policy);
            && Sound(w') && NoLostWakeup(w'.gate)
            && w'.gate.maxConcurrency == policy.maxConcurrency && w'.gate.maxQueue == w.gate.maxQueue
            && (w.gate.inflight <= policy.maxConcurrency ==> w'.gate.inflight <= policy.maxConcurrency)
            && (|w.gate.waiters| <= policy.maxQueue ==> |w'.gate.waiters| <= policy.maxQueue)
  {
    var (gate, answer) := Seat(w.gate, policy);
    match answer
    case Permit => TakeSlotIsSound(w);
    case Full => RejectIsSound(w);
    case Wait(_) => EnqueueIsSound(w, gate.queueHighWater);
  }

  lemma LimitedIsSound(w: World, policy: Policy)
    requires Sound(w) && ValidPolicy(policy)
    ensures var w' := w.(gate := Limited(w.gate, policy));
            && Sound(w') && NoLostWakeup(w'.gate)
            && w'.gate.maxConcurrency == policy.maxConcurrency && w'.gate.maxQueue == policy.maxQueue
            && |w'.gate.waiters| <= |w.gate.waiters|
            && (w.gate.inflight <= policy.maxConcurrency ==> w'.gate.inflight <= policy.maxConcurrency)
  {
    var w0 := w.(gate := w.gate.(maxConcurrency := policy.maxConcurrency, maxQueue := policy.maxQueue));
    assert Reserved(w0.gate, w0.pending) == Reserved(w.gate, w.pending);
    assert Sound(w0);
    GrantAllIsSound(w0);
  }

  lemma ArriveIsSound(w: World, policy: Policy)
    requires Sound(w) && policy.enabled && ValidPolicy(policy)
    ensures var w' := Step(w, Arrive(policy));
            && Sound(w') && NoLostWakeup(w'.gate)
            && w'.gate.maxConcurrency == policy.maxConcurrency && w'.gate.maxQueue == policy.maxQueue
            && (w.gate.inflight <= policy.maxConcurrency ==> w'.gate.inflight <= policy.maxConcurrency)
            && (|w.gate.waiters| <= policy.maxQueue ==> |w'.gate.waiters| <= policy.maxQueue)
  {
    LimitedIsSound(w, policy);
    SeatedIsSound(w.(gate := Limited(w.gate, policy)), policy);
  }

  lemma DeliverIsSound(w: World, id: Id)
    requires Sound(w) && id in Reserved(w.gate, w.pending)
    ensures Sound(Step(w, Deliver(id)))
  {
    assert Reserved(w.gate, w.pending - {id}) == Reserved(w.gate, w.pending) - {id};
  }

  lemma {:induction false} WithoutContents(ws: seq<Id>, w: Id)
    ensures forall x | x in Without(ws, w) :: x in ws
    ensures forall x | x in ws && x != w :: x in Without(ws, w)
    ensures |Without(ws, w)| == |ws| - if w in ws then 1 else 0
  {
    if ws != [] && ws[0] != w {
      WithoutContents(ws[1..], w);
    }
  }

  lemma {:induction false} WithoutIsAscending(ws: seq<Id>, w: Id)
    requires Ascending(ws)
    ensures Ascending(Without(ws, w)) && w !in Without(ws, w)
  {
    if ws != [] {
      var rest := Without(ws[1..], w);
      WithoutIsAscending(ws[1..], w);
      WithoutContents(ws[1..], w);
      forall i | 0 <= i < |rest| ensures ws[0] < rest[i] {
        var x := rest[i];
        assert x in rest;
      }
    }
  }

  lemma AbandonQueuedIsSound(w: World, id: Id, timedOut: bool)
    requires Sound(w) && NoLostWakeup(w.gate) && id in w.pending && w.gate.states[id].Queued?
    ensures Sound(Step(w, Abandon(id, timedOut)))
    ensures var g := Step(w, Abandon(id, timedOut)).gate;
            && NoLostWakeup(g) && g.inflight == w.gate.inflight && |g.waiters| < |w.gate.waiters|
            && g.maxConcurrency == w.gate.maxConcurrency && g.maxQueue == w.gate.maxQueue
  {
    var g := w.gate;
    WithoutContents(g.waiters, id);
    WithoutIsAscending(g.waiters, id);
    var g1 := Tally(g.(states := g.states[id := Canceled], waiters := Without(g.waiters, id)), timedOut);
    assert Reserved(g1, w.pending - {id}) == Reserved(g, w.pending);
    assert Cancel(g, id, timedOut) == g1;
  }

  lemma AbandonGrantedIsSound(w: World, id: Id, timedOut: bool)
    requires Sound(w) && id in Reserved(w.gate, w.pending)
    ensures Sound(Step(w, Abandon(id, timedOut)))
    ensures Step(w, Abandon(id, timedOut)).gate ==
            GrantNext(Tally(DropSlot(w.gate.(states := w.gate.states[id := Canceled])), timedOut))
    ensures w.gate.inflight > 0
  {
    var g := w.gate;
    var g0 := g.(states := g.states[id := Canceled]);
    assert Reserved(g0, w.pending - {id}) == Reserved(g, w.pending) - {id};
    var g1 := Tally(DropSlot(g0), timedOut);
    assert Reserved(g1, w.pending - {id}) == Reserved(g0, w.pending - {id});
    GrantNextIsSound(w.(gate := g1, pending := w.pending - {id}, lapsed := w.lapsed + 1));
  }

  lemma GiveBackIsSound(w: World)
    requires Sound(w) && w.permits > 0
    ensures Sound(Step(w, GiveBack))
    ensures Step(w, GiveBack).gate == GrantNext(w.gate.(inflight := w.gate.inflight - 1))
    ensures w.gate.inflight > 0
  {
    var g1 := DropSlot(w.gate);
    assert Reserved(g1, w.pending) == Reserved(w.gate, w.pending);
    GrantNextIsSound(w.(gate := g1, permits := w.permits - 1, releases := w.releases + 1));
  }

  /** One freed slot is handed straight to the oldest waiter, if there is one under the limit. */
  lemma HandOver(g: Gate, pending: set<Id>)
    requires Orderly(g, pending) && (g.waiters != [] ==> 0 < g.maxConcurrency <= g.inflight + 1)
    ensures NoLostWakeup(GrantNext(g))
    ensures g.inflight <= GrantNext(g).inflight <= g.inflight + 1
    ensures |GrantNext(g).waiters| <= |g.waiters| && GrantNext(g).maxQueue == g.maxQueue
    ensures g.waiters != [] && g.inflight < g.maxConcurrency ==> GrantNext(g).ready == g.ready + [g.waiters[0]]
  {
    if g.waiters != [] {
      GrantIsHead(g, pending);
    }
  }

  /** The whole invariant: bookkeeping, order, and no waiter left behind. */
  ghost predicate Good(w: World) {
    Sound(w) && NoLostWakeup(w.gate)
  }

  /** A step changes neither limit unless it is an arrival, and adds no load that it must not add. */
  ghost predicate Modest(w: World, w': World) {
    && w'.gate.maxConcurrency == w.gate.maxConcurrency && w'.gate.maxQueue == w.gate.maxQueue
    && w'.gate.inflight <= w.gate.inflight && |w'.gate.waiters| <= |w.gate.waiters|
  }

  lemma AbandonIsGood(w: World, id: Id, timedOut: bool)
    requires Good(w) && id in w.pending
    ensures Good(Step(w, Abandon(id, timedOut))) && Modest(w, Step(w, Abandon(id, timedOut)))
  {
    if w.gate.states[id].Granted? {
      AbandonGrantedIsSound(w, id, timedOut);
      var g0 := w.gate.(states := w.gate.states[id := Canceled]);
      assert Orderly(g0, w.pending - {id});
      HandOver(Tally(DropSlot(g0), timedOut), w.pending - {id});
    } else {
      AbandonQueuedIsSound(w, id, timedOut);
    }
  }

  lemma GiveBackIsGood(w: World)
    requires Good(w) && w.permits > 0
    ensures Good(Step(w, GiveBack)) && Modest(w, Step(w, GiveBack))
  {
    GiveBackIsSound(w);
    HandOver(w.gate.(inflight := w.gate.inflight - 1), w.pending);
  }

  lemma StepIsGood(w: World, e: Event)
    requires Good(w)
    ensures Good(Step(w, e))
    ensures !e.Arrive? ==> Modest(w, Step(w, e))
  {
    match e
    case Arrive(policy) =>
      if policy.enabled && ValidPolicy(policy) {
        ArriveIsSound(w, policy);
      }
    case Deliver(id) =>
      if id in Reserved(w.gate, w.pending) {
        DeliverIsSound(w, id);
      }
    case Abandon(id, timedOut) =>
      if id in w.pending {
        AbandonIsGood(w, id, timedOut);
      }
    case GiveBack =>
      if w.permits > 0 {
        GiveBackIsGood(w);
      }
  }

  /**
   After every run: inflight counts exactly the permits out and the reservations, accepted splits
   into inflight, released and lapsed, every arrival is accounted for, the queue is in arrival order
   with everyone granted so far ahead of it, and nobody waits while the limit in force has room.
   */
  lemma {:induction false} EveryRunIsGood(es: seq<Event>)
    ensures Good(Run(es))
  {
    if es != [] {
      EveryRunIsGood(es[..|es| - 1]);
      StepIsGood(Run(es[..|es| - 1]), es[|es| - 1]);
    }
  }

  /** With one policy throughout, neither the limit nor the queue bound is ever exceeded. */
  lemma {:induction false} FixedPolicyIsRespected(es: seq<Event>, policy: Policy)
    requires ValidPolicy(policy)
    requires forall i | 0 <= i < |es| && es[i].Arrive? :: es[i].policy == policy
    ensures Run(es).gate.inflight <= policy.maxConcurrency
    ensures |Run(es).gate.waiters| <= policy.maxQueue
  {
    if es != [] {
      var init, last := es[..|es| - 1], es[|es| - 1];
      FixedPolicyIsRespected(init, policy);
      EveryRunIsGood(init);
      StepIsGood(Run(init), last);
      if last.Arrive? && policy.enabled {
        ArriveIsSound(Run(init), policy);
      }
    }
  }

  /** FIFO: when waiter `b` holds or has held a slot, no earlier waiter is still in the queue. */
  lemma NoOvertaking(es: seq<Event>, a: Id, b: Id)
    requires a < b && b in Run(es).gate.ready && a in Run(es).gate.states
    ensures !Run(es).gate.states[a].Queued?
    ensures a in Run(es).gate.ready ==>
      exists i, j :: 0 <= i < j < |Run(es).gate.ready| && Run(es).gate.ready[i] == a && Run(es).gate.ready[j] == b
  {
    EveryRunIsGood(es);
    var ready := Run(es).gate.ready;
    if a in ready {
      var i :| 0 <= i < |ready| && ready[i] == a;
      var j :| 0 <= j < |ready| && ready[j] == b;
      assert i < j;
    }
  }

  /** A newcomer gets a slot at once only when nobody is left waiting. */
  lemma {:induction false} NewcomersDoNotOvertake(es: seq<Event>, policy: Policy)
    requires policy.enabled && ValidPolicy(policy)
    requires Step(Run(es), Arrive(policy)).permits > Run(es).permits
    ensures Step(Run(es), Arrive(policy)).gate.waiters == []
  {
  }

  // ---------------------------------------------------------------------------
  // What each call does, by what it finds
  // ---------------------------------------------------------------------------

  function Least(a: int, b: int): int {
    if a < b then a else b
  }

  /** How many of the waiters found a limit lets in. */
  function Entitled(g: Gate, limit: int): int {
    Least(|g.waiters|, if g.inflight < limit then limit - g.inflight else 0)
  }

  /** `r` is `g` after its first `n` waiters were let in. */
  ghost predicate LetIn(g: Gate, r: Gate, n: int) {
    && 0 <= n <= |g.waiters|
    && r == g.(waiters := g.waiters[n..], ready := g.ready + g.waiters[..n], states := r.states,
               inflight := g.inflight + n, accepted := g.accepted + n)
    && r.states.Keys == g.states.Keys
  }

  lemma LetInOneMore(g: Gate, g1: Gate, r: Gate, n: int)
    requires LetIn(g, g1, 1) && LetIn(g1, r, n)
    ensures LetIn(g, r, n + 1)
  {
    assert g.waiters[1..][n..] == g.waiters[n + 1..];
    assert g.ready + g.waiters[..1] + g.waiters[1..][..n] == g.ready + g.waiters[..n + 1];
  }

  lemma LetInNobody(g: Gate)
    ensures LetIn(g, g, 0)
  {
    assert g.waiters[0..] == g.waiters && g.ready + g.waiters[..0] == g.ready;
  }

  lemma GrantLetsInOne(g: Gate, pending: set<Id>)
    requires Orderly(g, pending) && g.waiters != [] && 0 < g.maxConcurrency && g.inflight < g.maxConcurrency
    ensures LetIn(g, GrantNext(g), 1) && Orderly(GrantNext(g), pending)
  {
    GrantIsHead(g, pending);
    assert g.waiters[..1] == [g.waiters[0]] && g.waiters[0] in g.waiters;
  }

  lemma {:induction false} GrantAllTakes(g: Gate, pending: set<Id>)
    requires Orderly(g, pending) && g.maxConcurrency > 0
    ensures LetIn(g, GrantAll(g), Entitled(g, g.maxConcurrency))
    decreases |g.waiters|
  {
    var n := Entitled(g, g.maxConcurrency);
    if g.inflight < g.maxConcurrency && g.waiters != [] {
      var g1 := GrantNext(g);
      GrantLetsInOne(g, pending);
      assert Entitled(g1, g1.maxConcurrency) == n - 1;
      GrantAllTakes(g1, pending);
      LetInOneMore(g, g1, GrantAll(g1), n - 1);
    } else {
      LetInNobody(g);
    }
  }

  lemma LimitedTakes(w: World, policy: Policy)
    requires Good(w) && ValidPolicy(policy)
    ensures LetIn(w.gate.(maxConcurrency := policy.maxConcurrency, maxQueue := policy.maxQueue),
                  Limited(w.gate, policy), Entitled(w.gate, policy.maxConcurrency))
  {
    GrantAllTakes(w.gate.(maxConcurrency := policy.maxConcurrency, maxQueue := policy.maxQueue), w.pending);
  }

  /**
   The answer to a caller, by the slots in use and the queue it finds: the free slots go to the waiters in
   order; the caller gets one only if some is then left; it is turned away if those still waiting fill the
   queue, and otherwise waits behind them.
   */
  lemma AnswerIsExact(es: seq<Event>, policy: Policy)
    requires policy.enabled && policy.maxConcurrency > 0
    requires policy.maxQueue > 0 <==> policy.queueTimeout > 0
    requires policy.maxQueue >= 0 && policy.queueTimeout >= 0
    ensures var g, answer := Run(es).gate, Admit(Run(es).gate, policy).1;
            var free := if g.inflight < policy.maxConcurrency then policy.maxConcurrency - g.inflight else 0;
            && (answer == Permit <==> |g.waiters| < free)
            && (answer == Full <==> |g.waiters| >= free && |g.waiters| - free >= policy.maxQueue)
            && (answer.Wait? <==> |g.waiters| >= free && |g.waiters| - free < policy.maxQueue)
  {
    EveryRunIsGood(es);
    LimitedCounts(Run(es), policy);
    SeatAnswers(Run(es).gate, Limited(Run(es).gate, policy), policy);
  }

  lemma LimitedCounts(w: World, policy: Policy)
    requires Good(w) && ValidPolicy(policy)
    ensures var limited, n := Limited(w.gate, policy), Entitled(w.gate, policy.maxConcurrency);
            limited.inflight == w.gate.inflight + n && |limited.waiters| == |w.gate.waiters| - n
  {
    LimitedTakes(w, policy);
  }

  lemma SeatAnswers(g: Gate, limited: Gate, policy: Policy)
    requires ValidPolicy(policy)
    requires var n := Entitled(g, policy.maxConcurrency);
             limited.inflight == g.inflight + n && |limited.waiters| == |g.waiters| - n
    ensures var answer := Seat(limited, policy).1;
            var free := if g.inflight < policy.maxConcurrency then policy.maxConcurrency - g.inflight else 0;
            && (answer == Permit <==> |g.waiters| < free)
            && (answer == Full <==> |g.waiters| >= free && |g.waiters| - free >= policy.maxQueue)
            && (answer.Wait? <==> |g.waiters| >= free && |g.waiters| - free < policy.maxQueue)
  {
  }

  /** Whoever is let in leaves the head of the queue, and a caller told to wait is a new waiter at its end. */
  lemma ArrivalIsExact(es: seq<Event>, policy: Policy)
    requires policy.enabled && ValidPolicy(policy)
    ensures var w, w' := Run(es), Step(Run(es), Arrive(policy));
            var answer, n := Admit(w.gate, policy).1, Entitled(w.gate, policy.maxConcurrency);
            && w'.gate.waiters == w.gate.waiters[n..] + (if answer.Wait? then [answer.id] else [])
            && w'.gate.ready == w.gate.ready + w.gate.waiters[..n]
            && w'.gate.inflight == w.gate.inflight + n + (if answer.Permit? then 1 else 0)
            && w'.gate.rejected == w.gate.rejected + (if answer.Full? then 1 else 0)
            && w'.permits == w.permits + (if answer.Permit? then 1 else 0)
            && (answer.Wait? ==> answer.id !in w.gate.states && w'.pending == w.pending + {answer.id})
            && (!answer.Wait? ==> w'.pending == w.pending)
  {
    EveryRunIsGood(es);
    LimitedTakes(Run(es), policy);
  }

  /** Nothing else about a policy makes it invalid, and an invalid one changes nothing. */
  lemma RefusalIsExact(g: Gate, policy: Policy)
    ensures var (g', answer) := Admit(g, policy);
            && (answer == Unguarded <==> !policy.enabled)
            && (answer == InvalidPolicy <==>
              && policy.enabled
              && (|| policy.maxConcurrency <= 0 || policy.maxQueue < 0 || policy.queueTimeout < 0
                  || (policy.maxQueue > 0 && policy.queueTimeout == 0)
                  || (policy.maxQueue == 0 && policy.queueTimeout > 0)))
            && (answer == Unguarded || answer == InvalidPolicy ==> g' == g)
  {
  }

  /** A slot given back goes to the oldest waiter, unless the limit was lowered meanwhile or nobody waits. */
  lemma ReleaseIsExact(es: seq<Event>)
    requires Run(es).permits > 0
    ensures var g, g' := Run(es).gate, Step(Run(es), GiveBack).gate;
            if g.waiters != [] && g.inflight == g.maxConcurrency
            then g'.ready == g.ready + [g.waiters[0]] && g'.waiters == g.waiters[1..] && g'.inflight == g.inflight
            else g'.ready == g.ready && g'.waiters == g.waiters && g'.inflight == g.inflight - 1
  {
    EveryRunIsGood(es);
    var w := Run(es);
    GiveBackIsSound(w);
    if w.gate.waiters != [] {
      GrantTakesHead(w.gate.(inflight := w.gate.inflight - 1), w.pending);
    }
  }

  lemma {:induction false} WithoutSplits(a: seq<Id>, w: Id, b: seq<Id>)
    requires w !in a
    ensures Without(a + [w] + b, w) == a + b
  {
    if a == [] {
      assert a + [w] + b == [w] + b && a + b == b;
    } else {
      WithoutSplits(a[1..], w, b);
      assert (a + [w] + b)[1..] == a[1..] + [w] + b;
      assert [a[0]] + (a[1..] + b) == a + b;
    }
  }

  /** A waiter that gives up leaves the queue without disturbing it, and is counted under its own reason. */
  lemma LeavingIsExact(es: seq<Event>, a: seq<Id>, id: Id, b: seq<Id>, timedOut: bool)
    requires Run(es).gate.waiters == a + [id] + b
    ensures var g, g' := Run(es).gate, Step(Run(es), Abandon(id, timedOut)).gate;
            && g'.waiters == a + b && g'.ready == g.ready && g'.inflight == g.inflight
            && g'.queueTimeouts == g.queueTimeouts + (if timedOut then 1 else 0)
            && g'.queueCancellations == g.queueCancellations + (if timedOut then 0 else 1)
  {
    EveryRunIsGood(es);
    var w := Run(es);
    assert w.gate.waiters[|a|] == id;
    assert id in w.gate.waiters;
    forall i | 0 <= i < |a| ensures a[i] != id {
      assert w.gate.waiters[i] == a[i];
    }
    WithoutSplits(a, id, b);
    assert w.gate.waiters != [];
  }

  /** A reservation given up goes to the oldest waiter as a released slot does, and is counted likewise. */
  lemma LapseIsExact(es: seq<Event>, id: Id, timedOut: bool)
    requires id in Reserved(Run(es).gate, Run(es).pending)
    ensures var g, g' := Run(es).gate, Step(Run(es), Abandon(id, timedOut)).gate;
            && (if g.waiters != [] && g.inflight == g.maxConcurrency
                then g'.ready == g.ready + [g.waiters[0]] && g'.waiters == g.waiters[1..] && g'.inflight == g.inflight
                else g'.ready == g.ready && g'.waiters == g.waiters && g'.inflight == g.inflight - 1)
            && g'.queueTimeouts == g.queueTimeouts + (if timedOut then 1 else 0)
            && g'.queueCancellations == g.queueCancellations + (if timedOut then 0 else 1)
  {
    EveryRunIsGood(es);
    var w := Run(es);
    AbandonGrantedIsSound(w, id, timedOut);
    var g0 := w.gate.(states := w.gate.states[id := Canceled]);
    assert Orderly(g0, w.pending - {id});
    if w.gate.waiters != [] {
      GrantTakesHead(Tally(DropSlot(g0), timedOut), w.pending - {id});
    }
  }

  lemma {:induction false} QueueUnderHighWater(es: seq<Event>)
    ensures |Run(es).gate.waiters| <= Run(es).gate.queueHighWater
  {
    if es != [] {
      var init := es[..|es| - 1];
      QueueUnderHighWater(init);
      EveryRunIsGood(init);
      HighWaterStep(Run(init), es[|es| - 1]);
    }
  }

  lemma HighWaterGrows(es: seq<Event>)
    requires es != []
    ensures var before, g := Run(es[..|es| - 1]).gate.queueHighWater, Run(es).gate;
            g.queueHighWater == if |g.waiters| > before then |g.waiters| else before
  {
    var init := es[..|es| - 1];
    QueueUnderHighWater(init);
    EveryRunIsGood(init);
    HighWaterStep(Run(init), es[|es| - 1]);
  }

  function QueueLength(es: seq<Event>): nat {
    |Run(es).gate.waiters|
  }

  function HighWater(es: seq<Event>): nat {
    Run(es).gate.queueHighWater
  }

  /** The reported high-water mark: the queue has been that long, at the returned moment. */
  lemma {:induction false} HighWaterWasReached(es: seq<Event>) returns (i: nat)
    ensures i <= |es| && QueueLength(es[..i]) == HighWater(es)
  {
    assert es[..|es|] == es;
    if es == [] {
      i := 0;
    } else {
      HighWaterGrows(es);
      var init := es[..|es| - 1];
      i := HighWaterWasReached(init);
      assert init[..i] == es[..i];
      if HighWater(es) != HighWater(init) {
        i := |es|;
      }
    }
  }

  /** The reported high-water mark: the queue has never been longer. */
  lemma {:induction false} HighWaterIsNeverPassed(es: seq<Event>, i: nat)
    requires i <= |es|
    ensures QueueLength(es[..i]) <= HighWater(es)
    decreases |es|
  {
    if i == |es| {
      assert es[..i] == es;
      QueueUnderHighWater(es);
    } else {
      HighWaterGrows(es);
      var init := es[..|es| - 1];
      HighWaterIsNeverPassed(init, i);
      assert init[..i] == es[..i];
    }
  }

  lemma ArriveHighWater(w: World, policy: Policy)
    requires Good(w) && |w.gate.waiters| <= w.gate.queueHighWater && policy.enabled && ValidPolicy(policy)
    ensures var g, g' := w.gate, Step(w, Arrive(policy)).gate;
            g'.queueHighWater == if |g'.waiters| > g.queueHighWater then |g'.waiters| else g.queueHighWater
  {
    LimitedTakes(w, policy);
  }

  lemma HighWaterStep(w: World, e: Event)
    requires Good(w) && |w.gate.waiters| <= w.gate.queueHighWater
    ensures var g, g' := w.gate, Step(w, e).gate;
            g'.queueHighWater == if |g'.waiters| > g.queueHighWater then |g'.waiters| else g.queueHighWater
  {
    if e.Arrive? {
      if e.policy.enabled && ValidPolicy(e.policy) {
        ArriveHighWater(w, e.policy);
      }
    } else {
      StepIsGood(w, e);
      GrantKeepsHighWater(w, e);
    }
  }

  lemma GrantKeepsHighWater(w: World, e: Event)
    requires !e.Arrive?
    ensures Step(w, e).gate.queueHighWater == w.gate.queueHighWater
  {
    GrantOldestKeepsHighWater(DropSlot(w.gate));
    if e.Abandon? && e.waiter in w.gate.states {
      var left := w.gate.(states := w.gate.states[e.waiter := Canceled]);
      GrantOldestKeepsHighWater(Tally(DropSlot(left), e.timedOut));
      GrantOldestKeepsHighWater(Tally(left.(waiters := Without(w.gate.waiters, e.waiter)), e.timedOut));
    }
  }

  lemma {:induction false} GrantOldestKeepsHighWater(g: Gate)
    ensures GrantOldest(g).queueHighWater == g.queueHighWater
    decreases |g.waiters|
  {
    if g.waiters != [] {
      GrantOldestKeepsHighWater(g.(waiters := g.waiters[1..]));
    }
  }

  // ---------------------------------------------------------------------------
  // The bulkhead object
  // ---------------------------------------------------------------------------

  class Bulkhead {
    var maxConcurrency: int
    var maxQueue: int
    var inflight: int
    var waiters: seq<Id>
    var states: map<Id, WaiterState>
    var created: nat
    var ready: seq<Id>
    var queueHighWater: nat
    var accepted: nat
    var rejected: nat
    var queueTimeouts: nat
    var queueCancellations: nat

    function View(): Gate
      reads this
    {
      Gate(maxConcurrency, maxQueue, inflight, waiters, states, created, ready,
           queueHighWater, accepted, rejected, queueTimeouts, queueCancellations)
    }

    constructor ()
      ensures View() == NewGate()
    {
      maxConcurrency, maxQueue, inflight, waiters, states, created, ready := 0, 0, 0, [], map[], 0, [];
      queueHighWater, accepted, rejected, queueTimeouts, queueCancellations := 0, 0, 0, 0, 0;
    }

    method GrantNextLocked()
      modifies this
      ensures View() == GrantNext(old(View()))
    {
      if maxConcurrency <= 0 || inflight >= maxConcurrency {
        return;
      }
      while |waiters| > 0
        invariant GrantOldest(View()) == GrantOldest(old(View()))
        decreases |waiters|
      {
        var candidate := waiters[0];
        ghost var before := View();
        waiters := waiters[1..];
        if candidate !in states || states[candidate] != Queued {
          assert View() == before.(waiters := waiters);
          continue;
        }
        states := states[candidate := Granted];
        inflight := inflight + 1;
        accepted := accepted + 1;
        ready := ready + [candidate];
        return;
      }
    }

    method RemoveWaiterLocked(candidate: Id)
      modifies this`waiters
      ensures waiters == Without(old(waiters), candidate)
    {
      var index := 0;
      while index < |waiters|
        invariant 0 <= index <= |waiters| && waiters == old(waiters)
        invariant Without(waiters, candidate) == waiters[..index] + Without(waiters[index..], candidate)
      {
        if waiters[index] == candidate {
          waiters := waiters[..index] + waiters[index + 1..];
          return;
        }
        index := index + 1;
      }
      assert waiters[..index] == waiters;
    }

    /** Takes over the limits of this call and grants what they allow. */
    method RaiseLimits(config: Policy)
      requires ValidPolicy(config)
      modifies this
      ensures View() == Limited(old(View()), config)
    {
      maxConcurrency, maxQueue := config.maxConcurrency, config.maxQueue;
      while inflight < maxConcurrency && |waiters| > 0
        invariant maxConcurrency == config.maxConcurrency
        invariant GrantAll(View())
               == GrantAll(old(View()).(maxConcurrency := config.maxConcurrency, maxQueue := config.maxQueue))
        decreases |waiters|
      {
        GrantNextLocked();
      }
    }

    /** Acquire up to its first wait; a caller told to wait then waits on its waiter. */
    method Acquire(config: Policy) returns (answer: Answer)
      modifies this
      ensures (View(), answer) == Admit(old(View()), config)
    {
      if !config.enabled {
        return Unguarded;
      }
      if !ValidPolicy(config) {
        return InvalidPolicy;
      }
      RaiseLimits(config);
      if inflight < config.maxConcurrency && |waiters| == 0 {
        inflight := inflight + 1;
        accepted := accepted + 1;
        return Permit;
      }
      if config.maxQueue == 0 || |waiters| >= config.maxQueue {
        rejected := rejected + 1;
        return Full;
      }
      var candidate := created;
      created := created + 1;
      states := states[candidate := Queued];
      waiters := waiters + [candidate];
      if |waiters| > queueHighWater {
        queueHighWater := |waiters|;
      }
      return Wait(candidate);
    }

    method ReleaseSlot()
      modifies this
      ensures View() == Release(old(View()))
    {
      if inflight > 0 {
        inflight := inflight - 1;
      }
      GrantNextLocked();
    }

    method CancelGranted(candidate: Id, timedOut: bool) returns (wasQueued: bool)
      requires candidate in states
      modifies this
      ensures View() == Cancel(old(View()), candidate, timedOut)
      ensures wasQueued <==> !old(states)[candidate].Granted?
    {
      match states[candidate] {
        case Queued =>
          states := states[candidate := Canceled];
          RemoveWaiterLocked(candidate);
          wasQueued := true;
        case Granted =>
          states := states[candidate := Canceled];
          if inflight > 0 {
            inflight := inflight - 1;
          }
          wasQueued := false;
        case Canceled =>
          return true;
      }
      if timedOut {
        queueTimeouts := queueTimeouts + 1;
      } else {
        queueCancellations := queueCancellations + 1;
      }
      GrantNextLocked();
    }
  }
}
