/**
 The stripe mutexes of one cache (cache/cache.go): callers that touch several keys lock a list of
 stripes computed by `LockOrder`; single-key writers lock a list of one.
 */
module StripeLocks {
  import Sets

  const STRIPES: nat := 256

  type Stripe = s: nat | s < STRIPES
  type Key = string

  predicate Ascending(s: seq<Stripe>) {
    forall i, j | 0 <= i < j < |s| :: s[i] < s[j]
  }

  // ---------------------------------------------------------------------------
  // The list of stripes to lock
  // ---------------------------------------------------------------------------

  /** The stripes of some keys, for any stripe function. */
  ghost function StripesOf(stripeOf: Key -> Stripe, keys: seq<Key>): set<Stripe> {
    set i | 0 <= i < |keys| :: stripeOf(keys[i])
  }

  function Spliced(s: seq<Stripe>, i: nat, x: Stripe): seq<Stripe>
    requires i <= |s|
  {
    s[..i] + [x] + s[i..]
  }

  lemma SplicedIsAscending(s: seq<Stripe>, i: nat, x: Stripe)
    requires Ascending(s) && i <= |s|
    requires (i > 0 ==> s[i - 1] < x) && (i < |s| ==> x < s[i])
    ensures Ascending(Spliced(s, i, x))
  {
    var r := Spliced(s, i, x);
    forall a, b | 0 <= a < b < |r| ensures r[a] < r[b] {
      var before := if a < i then s[a] else x;
      var after := if b > i then s[b - 1] else x;
      assert a <= i ==> r[a] == before;
      assert b >= i ==> r[b] == after;
    }
  }

  lemma SplicedHolds(s: seq<Stripe>, i: nat, x: Stripe, y: Stripe)
    requires i <= |s|
    ensures y in Spliced(s, i, x) <==> y == x || y in s
  {
    assert s == s[..i] + s[i..];
  }

  /** `x` put in its place in a sorted list that does not hold it. */
  method Insert(s: seq<Stripe>, x: Stripe) returns (r: seq<Stripe>)
    requires Ascending(s) && x !in s
    ensures Ascending(r)
    ensures forall y :: y in r <==> y == x || y in s
  {
    var i := 0;
    while i < |s| && s[i] < x
      invariant 0 <= i <= |s|
      invariant i > 0 ==> s[i - 1] < x
    {
      i := i + 1;
    }
    r := Spliced(s, i, x);
    SplicedIsAscending(s, i, x);
    forall y ensures y in r <==> y == x || y in s {
      SplicedHolds(s, i, x, y);
    }
  }

  /** The duplicate-free ascending list of the stripes of some keys. */
  method LockOrder(stripeOf: Key -> Stripe, keys: seq<Key>) returns (order: seq<Stripe>)
    ensures Ascending(order)
    ensures forall s :: s in order <==> s in StripesOf(stripeOf, keys)
    ensures keys != [] ==> order != []
  {
    var indexSet: set<Stripe> := {};
    for k := 0 to |keys|
      invariant forall s :: s in indexSet <==> s in StripesOf(stripeOf, keys[..k])
    {
      indexSet := indexSet + {stripeOf(keys[k])};
      forall s ensures s in indexSet <==> s in StripesOf(stripeOf, keys[..k + 1]) {
        StripesGrow(stripeOf, keys, k, s);
      }
    }
    assert keys[..|keys|] == keys;
    ghost var all := indexSet;
    order := [];
    while indexSet != {}
      invariant Ascending(order)
      invariant forall s :: s in all <==> s in order || s in indexSet
      invariant forall s | s in order :: s !in indexSet
      decreases |indexSet|
    {
      var next := Sets.Choose(indexSet);
      order := Insert(order, next);
      indexSet := indexSet - {next};
    }
    if keys != [] {
      assert stripeOf(keys[0]) in StripesOf(stripeOf, keys);
      assert stripeOf(keys[0]) in order;
    }
  }

  lemma StripesGrow(stripeOf: Key -> Stripe, keys: seq<Key>, k: nat, s: Stripe)
    requires k < |keys|
    ensures s in StripesOf(stripeOf, keys[..k + 1]) <==> s == stripeOf(keys[k]) || s in StripesOf(stripeOf, keys[..k])
  {
    var before, after := keys[..k], keys[..k + 1];
    if s in StripesOf(stripeOf, before) {
      var i :| 0 <= i < |before| && stripeOf(before[i]) == s;
      assert after[i] == before[i];
    }
    assert after[k] == keys[k];
    if s in StripesOf(stripeOf, after) && s != stripeOf(keys[k]) {
      var i :| 0 <= i < |after| && stripeOf(after[i]) == s;
      assert before[i] == after[i];
    }
  }

  // ---------------------------------------------------------------------------
  // Threads and mutexes
  // ---------------------------------------------------------------------------

  datatype Stage = Locking | Releasing

  /** A call that owns the first `held` mutexes of its list; it unlocks them last to first. */
  datatype Thread = Thread(needs: seq<Stripe>, held: nat, stage: Stage)

  datatype World = World(threads: seq<Thread>, owner: map<Stripe, nat>)

  datatype Event = Call(needs: seq<Stripe>) | Lock(thread: nat) | Unlock(thread: nat)

  predicate Done(t: Thread) {
    t.stage.Releasing? && t.held == 0
  }

  predicate CanLock(w: World, id: nat) {
    && id < |w.threads|
    && var t := w.threads[id];
    t.stage.Locking? && t.held < |t.needs| && t.needs[t.held] !in w.owner
  }

  predicate CanUnlock(w: World, id: nat) {
    && id < |w.threads|
    && var t := w.threads[id];
    0 < t.held <= |t.needs| && (t.stage.Releasing? || t.held == |t.needs|)
  }

  function Step(w: World, e: Event): World {
    match e
    case Call(needs) =>
      if needs == [] || !Ascending(needs) then w else w.(threads := w.threads + [Thread(needs, 0, Locking)])
    case Lock(id) =>
      if !CanLock(w, id) then w
      else
        var t := w.threads[id];
        World(w.threads[id := t.(held := t.held + 1)], w.owner[t.needs[t.held] := id])
    case Unlock(id) =>
      if !CanUnlock(w, id) then w
      else
        var t := w.threads[id];
        World(w.threads[id := Thread(t.needs, t.held - 1, Releasing)], w.owner - {t.needs[t.held - 1]})
  }

  function RunFrom(w: World, es: seq<Event>): World
    decreases |es|
  {
    if es == [] then w else RunFrom(Step(w, es[0]), es[1..])
  }

  function Start(): World {
    World([], map[])
  }

  predicate Sound(t: Thread) {
    && t.needs != [] && Ascending(t.needs)
    && t.held <= |t.needs|
  }

  predicate Owns(t: Thread, s: Stripe)
    requires Sound(t)
  {
    s in t.needs[..t.held]
  }

  /** Each mutex has at most one owner, and each thread owns exactly the first `held` of its list. */
  ghost predicate Valid(w: World) {
    && (forall id | 0 <= id < |w.threads| :: Sound(w.threads[id]))
    && (forall id, s | 0 <= id < |w.threads| && Owns(w.threads[id], s) :: s in w.owner && w.owner[s] == id)
    && (forall s | s in w.owner :: w.owner[s] < |w.threads| && Owns(w.threads[w.owner[s]], s))
  }

  lemma OneMore(t: Thread, s: Stripe)
    requires Sound(t) && t.held < |t.needs|
    ensures Owns(t.(held := t.held + 1), s) <==> Owns(t, s) || s == t.needs[t.held]
  {
    assert t.needs[..t.held + 1] == t.needs[..t.held] + [t.needs[t.held]];
  }

  lemma OneLess(t: Thread, s: Stripe)
    requires Sound(t) && 0 < t.held
    ensures Owns(t, t.needs[t.held - 1])
    ensures Owns(Thread(t.needs, t.held - 1, Releasing), s) <==> Owns(t, s) && s != t.needs[t.held - 1]
  {
    assert t.needs[..t.held] == t.needs[..t.held - 1] + [t.needs[t.held - 1]];
  }

  lemma LockIsValid(w: World, id: nat)
    requires Valid(w) && CanLock(w, id)
    ensures Valid(Step(w, Lock(id)))
  {
    var t, w' := w.threads[id], Step(w, Lock(id));
    forall i, s | 0 <= i < |w'.threads| && Owns(w'.threads[i], s) ensures s in w'.owner && w'.owner[s] == i {
      OneMore(t, s);
      assert i != id ==> Owns(w.threads[i], s);
    }
    forall s | s in w'.owner ensures w'.owner[s] < |w'.threads| && Owns(w'.threads[w'.owner[s]], s) {
      OneMore(t, s);
    }
  }

  /** After an unlock every thread owns only what it owned before, and nobody the freed stripe. */
  lemma NobodyOwnsFreed(w: World, id: nat, i: nat, s: Stripe)
    requires Valid(w) && CanUnlock(w, id) && i < |w.threads|
    requires Owns(Step(w, Unlock(id)).threads[i], s)
    ensures s in w.owner && w.owner[s] == i && s != w.threads[id].needs[w.threads[id].held - 1]
  {
    var t := w.threads[id];
    var freed := t.needs[t.held - 1];
    OneLess(t, freed);
    OneLess(t, s);
    assert Owns(w.threads[id], freed) && Owns(w.threads[i], s);
  }

  lemma UnlockIsValid(w: World, id: nat)
    requires Valid(w) && CanUnlock(w, id)
    ensures Valid(Step(w, Unlock(id)))
  {
    var t, w' := w.threads[id], Step(w, Unlock(id));
    forall i: nat, s | i < |w'.threads| && Owns(w'.threads[i], s) ensures s in w'.owner && w'.owner[s] == i {
      NobodyOwnsFreed(w, id, i, s);
    }
    forall s | s in w'.owner ensures w'.owner[s] < |w'.threads| && Owns(w'.threads[w'.owner[s]], s) {
      OneLess(t, s);
    }
  }

  lemma StepIsValid(w: World, e: Event)
    requires Valid(w)
    ensures Valid(Step(w, e))
  {
    match e
    case Call(_) =>
    case Lock(id) => if CanLock(w, id) { LockIsValid(w, id); }
    case Unlock(id) => if CanUnlock(w, id) { UnlockIsValid(w, id); }
  }

  lemma {:induction false} EveryRunIsValid(w: World, es: seq<Event>)
    requires Valid(w)
    ensures Valid(RunFrom(w, es))
    decreases |es|
  {
    if es != [] {
      StepIsValid(w, es[0]);
      EveryRunIsValid(Step(w, es[0]), es[1..]);
    }
  }

  predicate OwnsIn(w: World, id: nat, s: Stripe) {
    id < |w.threads| && Sound(w.threads[id]) && Owns(w.threads[id], s)
  }

  /** Two different callers never own the same stripe. */
  lemma MutualExclusion(es: seq<Event>, a: nat, b: nat, s: Stripe)
    requires OwnsIn(RunFrom(Start(), es), a, s) && OwnsIn(RunFrom(Start(), es), b, s)
    ensures a == b
  {
    EveryRunIsValid(Start(), es);
    assert RunFrom(Start(), es).owner[s] == a;
  }

  // ---------------------------------------------------------------------------
  // Deadlock freedom
  // ---------------------------------------------------------------------------

  predicate CanProceed(w: World, id: nat) {
    CanLock(w, id) || CanUnlock(w, id)
  }

  /** Following the owners of wanted stripes climbs to ever higher stripes, so it ends at a thread that can go on. */
  lemma {:induction false} Unblock(w: World, id: nat) returns (ready: nat)
    requires Valid(w) && id < |w.threads| && !Done(w.threads[id])
    ensures CanProceed(w, ready)
    decreases var t := w.threads[id];
              if t.stage.Locking? && t.held < |t.needs| then STRIPES - t.needs[t.held] else 0
  {
    var t := w.threads[id];
    if CanProceed(w, id) {
      return id;
    }
    var holder := w.owner[t.needs[t.held]];
    var h := w.threads[holder];
    assert Owns(h, t.needs[t.held]);
    ready := Unblock(w, holder);
  }

  /** No deadlock: in every reachable state with an unfinished call, some thread can go on. */
  lemma NoDeadlock(es: seq<Event>, id: nat)
    requires var w := RunFrom(Start(), es); id < |w.threads| && !Done(w.threads[id])
    ensures exists ready :: CanProceed(RunFrom(Start(), es), ready)
  {
    EveryRunIsValid(Start(), es);
    var ready := Unblock(RunFrom(Start(), es), id);
  }

  // ---------------------------------------------------------------------------
  // Every call finishes
  // ---------------------------------------------------------------------------

  /** Lock and unlock operations a call still has to do. */
  function Left(t: Thread): nat
    requires Sound(t)
  {
    if t.stage.Locking? then 2 * |t.needs| - t.held else t.held
  }

  ghost function Work(threads: seq<Thread>): nat
    requires forall i | 0 <= i < |threads| :: Sound(threads[i])
  {
    if threads == [] then 0 else Left(threads[0]) + Work(threads[1..])
  }

  lemma {:induction false} WorkUpdate(threads: seq<Thread>, id: nat, t: Thread)
    requires forall i | 0 <= i < |threads| :: Sound(threads[i])
    requires id < |threads| && Sound(t)
    ensures Work(threads[id := t]) == Work(threads) - Left(threads[id]) + Left(t)
    decreases |threads|
  {
    if id == 0 {
      assert threads[id := t][1..] == threads[1..];
    } else {
      assert threads[id := t][1..] == threads[1..][id - 1 := t];
      WorkUpdate(threads[1..], id - 1, t);
    }
  }

  lemma {:induction false} NoWork(threads: seq<Thread>)
    requires forall i | 0 <= i < |threads| :: Sound(threads[i])
    ensures Work(threads) == 0 <==> forall i | 0 <= i < |threads| :: Done(threads[i])
    decreases |threads|
  {
    if threads != [] {
      var rest := threads[1..];
      NoWork(rest);
      assert Done(threads[0]) <==> Left(threads[0]) == 0;
      forall i | 1 <= i < |threads| ensures threads[i] == rest[i - 1] {
      }
      assert forall i | 0 <= i < |rest| :: rest[i] == threads[i + 1];
    }
  }

  /** Each lock or unlock that happens does one unit of the work left, so without new calls there are only so many. */
  lemma StepWorks(w: World, id: nat)
    requires Valid(w)
    ensures CanLock(w, id) ==>
      Valid(Step(w, Lock(id))) && Work(Step(w, Lock(id)).threads) == Work(w.threads) - 1
    ensures CanUnlock(w, id) ==>
      Valid(Step(w, Unlock(id))) && Work(Step(w, Unlock(id)).threads) == Work(w.threads) - 1
  {
    if CanLock(w, id) {
      LockIsValid(w, id);
      WorkUpdate(w.threads, id, Step(w, Lock(id)).threads[id]);
    }
    if CanUnlock(w, id) {
      UnlockIsValid(w, id);
      WorkUpdate(w.threads, id, Step(w, Unlock(id)).threads[id]);
    }
  }

  /** The pending calls can always be run to the end, in exactly as many steps as there is work left. */
  lemma {:induction false} Drain(w: World) returns (schedule: seq<Event>)
    requires Valid(w)
    ensures |schedule| == Work(w.threads)
    ensures var end := RunFrom(w, schedule);
            |end.threads| == |w.threads| && forall i | 0 <= i < |end.threads| :: Done(end.threads[i])
    decreases Work(w.threads)
  {
    NoWork(w.threads);
    if Work(w.threads) == 0 {
      return [];
    }
    var id :| 0 <= id < |w.threads| && !Done(w.threads[id]);
    var ready := Unblock(w, id);
    StepWorks(w, ready);
    var e := if CanLock(w, ready) then Lock(ready) else Unlock(ready);
    var rest := Drain(Step(w, e));
    schedule := [e] + rest;
    assert schedule[1..] == rest;
  }
}
