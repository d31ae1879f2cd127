/**
 One unversioned cache (cache/cache.go): loads that captured a stripe generation race Set, Invalidate
 and ObserveInvalidation, which bump the generations of their stripes before they touch the backend.

 The time of an event is its position in the run.
 */
module LocalCache {
  import StripeLocks

  type Key = StripeLocks.Key
  type Stripe = StripeLocks.Stripe
  type Generations = g: seq<nat> | |g| == StripeLocks.STRIPES witness seq(StripeLocks.STRIPES, i => 0)

  /** Where a cached payload came from. */
  datatype Origin = Loaded(captured: nat, storedAt: nat) | Explicit

  /** A load in progress inside Get, with the generation of its stripe when it captured it. */
  datatype Load = Load(key: Key, generation: nat, captured: nat)

  datatype Op = Setting(key: Key) | Invalidating(keys: seq<Key>) | Observing(keys: seq<Key>)

  /** A mutation that holds its stripe locks since the time it bumped their generations. */
  datatype Call = Call(op: Op, since: nat)

  datatype World = World(
    now: nat, generations: Generations, entries: map<Key, Origin>, loads: map<nat, Load>, calls: map<nat, Call>)

  datatype Event =
    | Capture(load: nat, key: Key)
    | Store(load: nat, ok: bool)
    | Drop(load: nat)
    | Begin(call: nat, op: Op)
    | Finish(call: nat, ok: bool, removed: set<Key>)
    | Expire(key: Key)

  function Start(): World {
    World(0, seq(StripeLocks.STRIPES, i => 0), map[], map[], map[])
  }

  function KeysOf(op: Op): seq<Key> {
    if op.Setting? then [op.key] else op.keys
  }

  predicate Covers(stripeOf: Key -> Stripe, op: Op, s: Stripe) {
    exists i | 0 <= i < |KeysOf(op)| :: stripeOf(KeysOf(op)[i]) == s
  }

  predicate Busy(stripeOf: Key -> Stripe, calls: map<nat, Call>, s: Stripe) {
    exists id | id in calls :: Covers(stripeOf, calls[id].op, s)
  }

  predicate CanBegin(stripeOf: Key -> Stripe, w: World, id: nat, op: Op) {
    && id !in w.calls
    && forall s: Stripe | 0 <= s < StripeLocks.STRIPES && Covers(stripeOf, op, s) :: !Busy(stripeOf, w.calls, s)
  }

  function Bumped(stripeOf: Key -> Stripe, g: Generations, op: Op): Generations {
    seq(StripeLocks.STRIPES, s requires 0 <= s < StripeLocks.STRIPES =>
      if Covers(stripeOf, op, s) then g[s] + 1 else g[s])
  }

  /** The backend after a mutation; a failed Delete removes any part of its keys. */
  function Finished<V>(entries: map<Key, V>, op: Op, value: V, ok: bool, removed: set<Key>): map<Key, V> {
    match op
    case Setting(key) => if ok then entries[key := value] else entries
    case Invalidating(keys) => map k | k in entries && !(k in keys && (ok || k in removed)) :: entries[k]
    case Observing(_) => entries
  }

  /** The comparison of storeIfCurrent. */
  predicate Current(stripeOf: Key -> Stripe, w: World, l: Load) {
    w.generations[stripeOf(l.key)] == l.generation
  }

  function Act(stripeOf: Key -> Stripe, w: World, e: Event): World {
    match e
    case Capture(id, key) =>
      if id in w.loads then w else w.(loads := w.loads[id := Load(key, w.generations[stripeOf(key)], w.now)])
    case Store(id, ok) =>
      if id !in w.loads || Busy(stripeOf, w.calls, stripeOf(w.loads[id].key)) then w
      else
        var l := w.loads[id];
        w.(loads := w.loads - {id},
           entries := if ok && Current(stripeOf, w, l) then w.entries[l.key := Loaded(l.captured, w.now)]
           else w.entries)
    case Drop(id) => w.(loads := w.loads - {id})
    case Begin(id, op) =>
      if !CanBegin(stripeOf, w, id, op) then w
      else w.(generations := Bumped(stripeOf, w.generations, op), calls := w.calls[id := Call(op, w.now)])
    case Finish(id, ok, removed) =>
      if id !in w.calls then w
      else w.(entries := Finished(w.entries, w.calls[id].op, Explicit, ok, removed), calls := w.calls - {id})
    case Expire(key) => w.(entries := w.entries - {key})
  }

  function Step(stripeOf: Key -> Stripe, w: World, e: Event): World {
    Act(stripeOf, w, e).(now := w.now + 1)
  }

  /** A run: the states `ws` between the events `es`. */
  ghost predicate Trace(stripeOf: Key -> Stripe, ws: seq<World>, es: seq<Event>) {
    && |ws| == |es| + 1
    && ws[0] == Start()
    && forall i | 0 <= i < |es| :: ws[i + 1] == Step(stripeOf, ws[i], es[i])
  }

  /** Every sequence of events has its run. */
  lemma {:induction false} EveryEventsRun(stripeOf: Key -> Stripe, es: seq<Event>) returns (ws: seq<World>)
    ensures Trace(stripeOf, ws, es)
  {
    if es == [] {
      return [Start()];
    }
    var init := es[..|es| - 1];
    var before := EveryEventsRun(stripeOf, init);
    ws := before + [Step(stripeOf, before[|init|], es[|init|])];
    assert forall i | 0 <= i < |init| :: es[i] == init[i];
  }

  lemma {:induction false} Clock(stripeOf: Key -> Stripe, ws: seq<World>, es: seq<Event>, i: nat)
    requires Trace(stripeOf, ws, es) && i <= |es|
    ensures ws[i].now == i
  {
    if i > 0 {
      Clock(stripeOf, ws, es, i - 1);
      assert ws[i - 1 + 1] == Step(stripeOf, ws[i - 1], es[i - 1]);
    }
  }

  // ---------------------------------------------------------------------------
  // Generations count the mutations of a stripe
  // ---------------------------------------------------------------------------

  /** The event is a Set, Invalidate or ObserveInvalidation that gets its locks and bumps stripe `s`. */
  predicate Touches(stripeOf: Key -> Stripe, w: World, e: Event, s: Stripe) {
    e.Begin? && CanBegin(stripeOf, w, e.call, e.op) && Covers(stripeOf, e.op, s)
  }

  /** No event at a position from `i` up to `j` touches the stripe. */
  ghost predicate Untouched(stripeOf: Key -> Stripe, ws: seq<World>, es: seq<Event>, i: nat, j: nat, s: Stripe)
    requires |ws| == |es| + 1 && i <= j <= |es|
  {
    forall k | i <= k < j :: !Touches(stripeOf, ws[k], es[k], s)
  }

  lemma OneStepGenerations(stripeOf: Key -> Stripe, w: World, e: Event, s: Stripe)
    ensures Step(stripeOf, w, e).generations[s] == w.generations[s] + if Touches(stripeOf, w, e, s) then 1 else 0
  {
  }

  /** A generation is unchanged exactly when nothing touched its stripe. */
  lemma {:induction false} GenerationsTell(
      stripeOf: Key -> Stripe, ws: seq<World>, es: seq<Event>, i: nat, j: nat, s: Stripe)
    requires Trace(stripeOf, ws, es) && i <= j <= |es|
    ensures ws[i].generations[s] <= ws[j].generations[s]
    ensures ws[i].generations[s] == ws[j].generations[s] <==> Untouched(stripeOf, ws, es, i, j, s)
  {
    if i < j {
      GenerationsTell(stripeOf, ws, es, i, j - 1, s);
      OneStepGenerations(stripeOf, ws[j - 1], es[j - 1], s);
      assert ws[j - 1 + 1] == Step(stripeOf, ws[j - 1], es[j - 1]);
    }
  }

  // ---------------------------------------------------------------------------
  // A load is stored exactly when its stripe was not touched
  // ---------------------------------------------------------------------------

  lemma LoadsAfter(stripeOf: Key -> Stripe, w: World, e: Event, id: nat)
    requires id in Step(stripeOf, w, e).loads
    ensures id !in w.loads ==> Step(stripeOf, w, e).loads[id].captured == w.now
    ensures id !in w.loads ==>
      var l := Step(stripeOf, w, e).loads[id]; l.generation == w.generations[stripeOf(l.key)]
    ensures id in w.loads ==> Step(stripeOf, w, e).loads[id] == w.loads[id]
  {
  }

  lemma {:induction false} LoadsRemember(stripeOf: Key -> Stripe, ws: seq<World>, es: seq<Event>, i: nat, id: nat)
    requires Trace(stripeOf, ws, es) && i <= |es| && id in ws[i].loads
    ensures var l := ws[i].loads[id];
            l.captured < i && l.generation == ws[l.captured].generations[stripeOf(l.key)]
  {
    if i > 0 {
      assert ws[i - 1 + 1] == Step(stripeOf, ws[i - 1], es[i - 1]);
      LoadsAfter(stripeOf, ws[i - 1], es[i - 1], id);
      Clock(stripeOf, ws, es, i - 1);
      if id in ws[i - 1].loads {
        LoadsRemember(stripeOf, ws, es, i - 1, id);
      }
    }
  }

  /** The value of a load passes storeIfCurrent if and only if no mutation touched its stripe since the capture. */
  lemma CurrentIffUntouched(stripeOf: Key -> Stripe, ws: seq<World>, es: seq<Event>, i: nat, id: nat)
    requires Trace(stripeOf, ws, es) && i <= |es| && id in ws[i].loads
    ensures var l := ws[i].loads[id];
            && l.captured < i
            && (Current(stripeOf, ws[i], l) <==> Untouched(stripeOf, ws, es, l.captured, i, stripeOf(l.key)))
  {
    var l := ws[i].loads[id];
    LoadsRemember(stripeOf, ws, es, i, id);
    GenerationsTell(stripeOf, ws, es, l.captured, i, stripeOf(l.key));
  }

  // ---------------------------------------------------------------------------
  // Nothing loaded before a mutation survives it
  // ---------------------------------------------------------------------------

  /** The event completes a successful Set or Invalidate of the key. */
  predicate Settles(w: World, e: Event, key: Key) {
    && e.Finish? && e.ok && e.call in w.calls
    && !w.calls[e.call].op.Observing?
    && key in KeysOf(w.calls[e.call].op)
  }

  /** A loaded entry was stored while its stripe was untouched, and no later mutation has settled its key. */
  ghost predicate Justified(
    stripeOf: Key -> Stripe, ws: seq<World>, es: seq<Event>, i: nat, key: Key, captured: nat, storedAt: nat)
    requires |ws| == |es| + 1 && i <= |es|
  {
    && captured < storedAt < i && es[storedAt].Store?
    && Untouched(stripeOf, ws, es, captured, storedAt, stripeOf(key))
    && forall k | storedAt < k < i :: !Settles(ws[k], es[k], key)
  }

  /** A loaded entry is new only by a store of a current load, and never outlives a mutation of its key. */
  lemma EntriesAfter(stripeOf: Key -> Stripe, w: World, e: Event, key: Key)
    requires key in Step(stripeOf, w, e).entries && Step(stripeOf, w, e).entries[key].Loaded?
    ensures var o := Step(stripeOf, w, e).entries[key];
            || (key in w.entries && w.entries[key] == o && !Settles(w, e, key))
            || (e.Store? && e.load in w.loads && Current(stripeOf, w, w.loads[e.load]) &&
                w.loads[e.load].key == key && o == Loaded(w.loads[e.load].captured, w.now))
  {
  }

  lemma StillJustified(
      stripeOf: Key -> Stripe, ws: seq<World>, es: seq<Event>, i: nat, key: Key, captured: nat, storedAt: nat)
    requires |ws| == |es| + 1 && i < |es|
    requires Justified(stripeOf, ws, es, i, key, captured, storedAt) && !Settles(ws[i], es[i], key)
    ensures Justified(stripeOf, ws, es, i + 1, key, captured, storedAt)
  {
  }

  lemma NewlyJustified(stripeOf: Key -> Stripe, ws: seq<World>, es: seq<Event>, i: nat)
    requires Trace(stripeOf, ws, es) && i < |es| && es[i].Store? && es[i].load in ws[i].loads
    requires Current(stripeOf, ws[i], ws[i].loads[es[i].load])
    ensures var l := ws[i].loads[es[i].load];
            ws[i].now == i && Justified(stripeOf, ws, es, i + 1, l.key, l.captured, i)
  {
    Clock(stripeOf, ws, es, i);
    CurrentIffUntouched(stripeOf, ws, es, i, es[i].load);
  }

  lemma {:induction false} EntriesAreJustified(
      stripeOf: Key -> Stripe, ws: seq<World>, es: seq<Event>, i: nat, key: Key)
    requires Trace(stripeOf, ws, es) && i <= |es| && key in ws[i].entries && ws[i].entries[key].Loaded?
    ensures var o := ws[i].entries[key];
            Justified(stripeOf, ws, es, i, key, o.captured, o.storedAt)
  {
    if i > 0 {
      var w, e, o := ws[i - 1], es[i - 1], ws[i].entries[key];
      assert ws[i - 1 + 1] == Step(stripeOf, w, e);
      EntriesAfter(stripeOf, w, e, key);
      if key in w.entries && w.entries[key] == o && !Settles(w, e, key) {
        EntriesAreJustified(stripeOf, ws, es, i - 1, key);
        StillJustified(stripeOf, ws, es, i - 1, key, o.captured, o.storedAt);
      } else {
        NewlyJustified(stripeOf, ws, es, i - 1);
      }
    }
  }

  lemma CallsAfter(stripeOf: Key -> Stripe, w: World, e: Event, id: nat, key: Key)
    requires id in Step(stripeOf, w, e).calls && key in KeysOf(Step(stripeOf, w, e).calls[id].op)
    ensures id in w.calls ==> Step(stripeOf, w, e).calls[id] == w.calls[id]
    ensures id !in w.calls ==>
      Step(stripeOf, w, e).calls[id].since == w.now && Touches(stripeOf, w, e, stripeOf(key))
  {
    if id !in w.calls {
      var k :| 0 <= k < |KeysOf(e.op)| && KeysOf(e.op)[k] == key;
    }
  }

  /** A mutation in progress touched every stripe of its keys when it began. */
  lemma {:induction false} CallsTouched(
      stripeOf: Key -> Stripe, ws: seq<World>, es: seq<Event>, i: nat, id: nat, key: Key)
    requires Trace(stripeOf, ws, es) && i <= |es| && id in ws[i].calls && key in KeysOf(ws[i].calls[id].op)
    ensures var since := ws[i].calls[id].since;
            since < i && Touches(stripeOf, ws[since], es[since], stripeOf(key))
  {
    if i > 0 {
      assert ws[i - 1 + 1] == Step(stripeOf, ws[i - 1], es[i - 1]);
      Clock(stripeOf, ws, es, i - 1);
      CallsAfter(stripeOf, ws[i - 1], es[i - 1], id, key);
      if id in ws[i - 1].calls {
        CallsTouched(stripeOf, ws, es, i - 1, id, key);
      }
    }
  }

  /**
   Once a Set or Invalidate of a key has succeeded, every loaded value the cache ever holds for that key
   comes from a load that captured its generation after the mutation took its locks.
   */
  lemma NoEarlierLoadSurvives(stripeOf: Key -> Stripe, ws: seq<World>, es: seq<Event>, i: nat, j: nat, key: Key)
    requires Trace(stripeOf, ws, es) && i < j <= |es| && Settles(ws[i], es[i], key)
    requires key in ws[j].entries && ws[j].entries[key].Loaded?
    ensures ws[i].calls[es[i].call].since < ws[j].entries[key].captured
  {
    var o := ws[j].entries[key];
    EntriesAreJustified(stripeOf, ws, es, j, key);
    CallsTouched(stripeOf, ws, es, i, es[i].call, key);
    assert o.storedAt > i;
  }

  /** An invalidation observed from another replica shuts out the loads in progress just the same. */
  lemma NoEarlierLoadIsStored(stripeOf: Key -> Stripe, ws: seq<World>, es: seq<Event>, i: nat, j: nat, key: Key)
    requires Trace(stripeOf, ws, es) && i < j <= |es| && Touches(stripeOf, ws[i], es[i], stripeOf(key))
    requires key in ws[j].entries && ws[j].entries[key].Loaded?
    ensures ws[j].entries[key].storedAt <= i || i < ws[j].entries[key].captured
  {
    EntriesAreJustified(stripeOf, ws, es, j, key);
  }

  // ---------------------------------------------------------------------------
  // What each step does to the entries
  // ---------------------------------------------------------------------------

  /** A load that gets its stripe is cached exactly if nothing touched the stripe since it captured the generation. */
  lemma StoredIffUntouched(stripeOf: Key -> Stripe, ws: seq<World>, es: seq<Event>, i: nat)
    requires Trace(stripeOf, ws, es) && i < |es| && es[i].Store? && es[i].ok && es[i].load in ws[i].loads
    requires !Busy(stripeOf, ws[i].calls, stripeOf(ws[i].loads[es[i].load].key))
    ensures var l := ws[i].loads[es[i].load];
            && l.captured < i
            && ws[i + 1].entries == if Untouched(stripeOf, ws, es, l.captured, i, stripeOf(l.key))
                                    then ws[i].entries[l.key := Loaded(l.captured, i)] else ws[i].entries
  {
    Clock(stripeOf, ws, es, i);
    CurrentIffUntouched(stripeOf, ws, es, i, es[i].load);
  }

  /** A mutation that succeeds does to the entries what it was asked; one that fails touches no key it was not given. */
  lemma MutationsAreExact(stripeOf: Key -> Stripe, w: World, id: nat, ok: bool, removed: set<Key>, k: Key)
    requires id in w.calls
    ensures var before, after := w.entries, Step(stripeOf, w, Finish(id, ok, removed)).entries;
            var op := w.calls[id].op;
            && (op.Setting? && ok && op.key == k ==> k in after && after[k] == Explicit)
            && (op.Invalidating? && ok && k in op.keys ==> k !in after)
            && (k !in KeysOf(op) || op.Observing? || (op.Setting? && !ok) ==>
              (k in after <==> k in before) && (k in after ==> after[k] == before[k]))
            && (op.Invalidating? && k in after ==> k in before && after[k] == before[k])
            && (op.Invalidating? && !ok && k in op.keys ==> (k in after <==> k in before && k !in removed))
  {
  }

  /** Two mutations in progress never share a stripe. */
  ghost predicate Exclusive(stripeOf: Key -> Stripe, calls: map<nat, Call>) {
    forall a, b, s: Stripe |
      a in calls && b in calls && Covers(stripeOf, calls[a].op, s) && Covers(stripeOf, calls[b].op, s) :: a == b
  }

  lemma {:induction false} MutationsExclude(stripeOf: Key -> Stripe, ws: seq<World>, es: seq<Event>, i: nat)
    requires Trace(stripeOf, ws, es) && i <= |es|
    ensures Exclusive(stripeOf, ws[i].calls)
  {
    if i > 0 {
      MutationsExclude(stripeOf, ws, es, i - 1);
      assert ws[i - 1 + 1] == Step(stripeOf, ws[i - 1], es[i - 1]);
    }
  }

  /** A mutation begins exactly when no other holds a stripe of its keys, and holds them until it finishes. */
  lemma MutationsTakeTurns(stripeOf: Key -> Stripe, w: World, id: nat, op: Op, ok: bool, removed: set<Key>)
    requires id !in w.calls
    ensures var w' := Step(stripeOf, w, Begin(id, op));
            if exists other, s: Stripe ::
                 other in w.calls && Covers(stripeOf, w.calls[other].op, s) && Covers(stripeOf, op, s)
            then w'.calls == w.calls && w'.generations == w.generations
            else w'.calls == w.calls[id := Call(op, w.now)]
                 && Step(stripeOf, w', Finish(id, ok, removed)).calls == w.calls
  {
    var w' := Step(stripeOf, w, Begin(id, op));
    if CanBegin(stripeOf, w, id, op) {
      assert w.calls[id := Call(op, w.now)] - {id} == w.calls;
    }
  }

  /** A load ends when it is stored or dropped, and is kept waiting only by a mutation that holds its stripe. */
  lemma LoadsEnd(stripeOf: Key -> Stripe, w: World, id: nat, ok: bool)
    requires id in w.loads
    ensures Step(stripeOf, w, Drop(id)).loads == w.loads - {id}
    ensures Step(stripeOf, w, Store(id, ok)).loads
         == if Busy(stripeOf, w.calls, stripeOf(w.loads[id].key)) then w.loads else w.loads - {id}
  {
  }

  // ---------------------------------------------------------------------------
  // The cache object
  // ---------------------------------------------------------------------------

  datatype Refusal = NoKeys | VersionRequired | InvalidKey | Accepted

  /** The mutable part of a cache; outcomes of the backend are parameters. */
  class Cache<V(==)> {
    const stripeOf: Key -> Stripe
    const validKey: Key -> bool
    const versioned: bool
    const mutations: array<nat>
    var entries: map<Key, V>
    var staleWritesSuppressed: nat
    var invalidations: nat
    var observedInvalidations: nat

    ghost predicate Valid()
      reads this
    {
      mutations.Length == StripeLocks.STRIPES
    }

    ghost function Generations(): Generations
      requires Valid()
      reads this, mutations
    {
      mutations[..]
    }

    constructor (stripeOf: Key -> Stripe, validKey: Key -> bool, versioned: bool)
      ensures Valid() && fresh(mutations)
      ensures this.stripeOf == stripeOf && this.validKey == validKey && this.versioned == versioned
      ensures entries == map[] && Generations() == Start().generations
      ensures staleWritesSuppressed == 0 && invalidations == 0 && observedInvalidations == 0
    {
      this.stripeOf, this.validKey, this.versioned := stripeOf, validKey, versioned;
      mutations := new nat[StripeLocks.STRIPES](i => 0);
      entries, staleWritesSuppressed, invalidations, observedInvalidations := map[], 0, 0, 0;
    }

    /** Bumps the generation of every stripe of the keys, each once. */
    method BumpAll(keys: seq<Key>)
      requires Valid()
      modifies mutations
      ensures Generations() == Bumped(stripeOf, old(Generations()), Observing(keys))
    {
      var order := StripeLocks.LockOrder(stripeOf, keys);
      for n := 0 to |order|
        invariant forall s | 0 <= s < StripeLocks.STRIPES ::
          mutations[s] == old(mutations[s]) + if s in order[..n] then 1 else 0
      {
        assert order[n] !in order[..n];
        mutations[order[n]] := mutations[order[n]] + 1;
        assert order[..n + 1] == order[..n] + [order[n]];
      }
      assert order[..|order|] == order;
      forall s: Stripe | 0 <= s < StripeLocks.STRIPES
        ensures s in order <==> Covers(stripeOf, Observing(keys), s)
      {
        if s in StripeLocks.StripesOf(stripeOf, keys) {
          var i :| 0 <= i < |keys| && stripeOf(keys[i]) == s;
          assert KeysOf(Observing(keys))[i] == keys[i];
        }
        if Covers(stripeOf, Observing(keys), s) {
          var i :| 0 <= i < |KeysOf(Observing(keys))| && stripeOf(KeysOf(Observing(keys))[i]) == s;
          assert stripeOf(keys[i]) in StripeLocks.StripesOf(stripeOf, keys);
        }
      }
    }

    method CheckKeys(keys: seq<Key>) returns (valid: bool)
      ensures valid <==> forall i | 0 <= i < |keys| :: validKey(keys[i])
    {
      for i := 0 to |keys|
        invariant forall j | 0 <= j < i :: validKey(keys[j])
      {
        if !validKey(keys[i]) {
          return false;
        }
      }
      return true;
    }

    method Set(key: Key, value: V, ok: bool) returns (refusal: Refusal)
      requires Valid()
      modifies mutations, this`entries
      ensures refusal == if validKey(key) then Accepted else InvalidKey
      ensures refusal.InvalidKey? ==> Generations() == old(Generations()) && entries == old(entries)
      ensures refusal.Accepted? ==>
        && Generations() == Bumped(stripeOf, old(Generations()), Setting(key))
        && entries == Finished(old(entries), Setting(key), value, ok, {})
        && entries == if ok then old(entries)[key := value] else old(entries)
    {
      if !validKey(key) {
        return InvalidKey;
      }
      mutations[stripeOf(key)] := mutations[stripeOf(key)] + 1;
      if ok {
        entries := entries[key := value];
      }
      forall s: Stripe | 0 <= s < StripeLocks.STRIPES
        ensures Covers(stripeOf, Setting(key), s) <==> s == stripeOf(key)
      {
        assert KeysOf(Setting(key))[0] == key;
      }
      return Accepted;
    }

    /** The keys that pass, or the first reason to refuse them. */
    function RefusalOf(keys: seq<Key>, local: bool): Refusal {
      if keys == [] then NoKeys
      else if local && versioned then VersionRequired
      else if exists i | 0 <= i < |keys| :: !validKey(keys[i]) then InvalidKey
      else Accepted
    }

    /** `deleted` counts the entries that the backend removed. */
    method Invalidate(keys: seq<Key>, ok: bool, removed: set<Key>) returns (refusal: Refusal, deleted: nat)
      requires Valid()
      modifies mutations, this`entries, this`invalidations
      ensures refusal == RefusalOf(keys, true)
      ensures refusal.Accepted? <==> keys != [] && !versioned && forall i | 0 <= i < |keys| :: validKey(keys[i])
      ensures refusal.NoKeys? <==> keys == []
      ensures refusal.VersionRequired? <==> keys != [] && versioned
      ensures refusal.Accepted? && ok ==> forall k :: k in entries <==> k in old(entries) && k !in keys
      ensures deleted == |old(entries)| - |entries|
      ensures !refusal.Accepted? ==>
        Generations() == old(Generations()) && entries == old(entries) && invalidations == old(invalidations)
      ensures refusal.Accepted? ==>
        && Generations() == Bumped(stripeOf, old(Generations()), Observing(keys))
        && (forall v :: entries == Finished(old(entries), Invalidating(keys), v, ok, removed))
        && invalidations == old(invalidations) + |keys|
    {
      deleted := 0;
      if keys == [] {
        return NoKeys, 0;
      }
      if versioned {
        return VersionRequired, 0;
      }
      var valid := CheckKeys(keys);
      if !valid {
        return InvalidKey, 0;
      }
      BumpAll(keys);
      deleted := DeleteAll(keys, ok, removed);
      invalidations := invalidations + |keys|;
      refusal := Accepted;
    }

    /** The backend's Delete; one that fails has removed some of the keys. */
    method DeleteAll(keys: seq<Key>, ok: bool, removed: set<Key>) returns (deleted: nat)
      modifies this`entries
      ensures entries == map k | k in old(entries) && !(k in keys && (ok || k in removed)) :: old(entries)[k]
      ensures deleted == |old(entries)| - |entries|
    {
      deleted := 0;
      for n := 0 to |keys|
        invariant entries == map k | k in old(entries) && !(k in keys[..n] && (ok || k in removed)) :: old(entries)[k]
        invariant deleted == |old(entries)| - |entries|
      {
        assert keys[..n + 1] == keys[..n] + [keys[n]];
        if keys[n] in entries && (ok || keys[n] in removed) {
          assert (entries - {keys[n]}).Keys == entries.Keys - {keys[n]};
          entries := entries - {keys[n]};
          deleted := deleted + 1;
        }
      }
      assert keys[..|keys|] == keys;
    }

    method ObserveInvalidation(keys: seq<Key>) returns (refusal: Refusal)
      requires Valid()
      modifies mutations, this`observedInvalidations
      ensures refusal == RefusalOf(keys, false)
      ensures refusal.Accepted? <==> keys != [] && forall i | 0 <= i < |keys| :: validKey(keys[i])
      ensures refusal.NoKeys? <==> keys == []
      ensures !refusal.VersionRequired?
      ensures !refusal.Accepted? ==>
        Generations() == old(Generations()) && observedInvalidations == old(observedInvalidations)
      ensures refusal.Accepted? ==>
        && Generations() == Bumped(stripeOf, old(Generations()), Observing(keys))
        && observedInvalidations == old(observedInvalidations) + |keys|
    {
      if keys == [] {
        return NoKeys;
      }
      var valid := CheckKeys(keys);
      if !valid {
        return InvalidKey;
      }
      BumpAll(keys);
      observedInvalidations := observedInvalidations + |keys|;
      return Accepted;
    }

    /** Writes a loaded value only while its generation is current, and counts the writes it suppresses. */
    method StoreIfCurrent(key: Key, value: V, generation: nat, ok: bool)
      requires Valid()
      modifies this`entries, this`staleWritesSuppressed
      ensures var current := old(Generations())[stripeOf(key)] == generation;
              && entries == (if current && ok then old(entries)[key := value] else old(entries))
              && staleWritesSuppressed == old(staleWritesSuppressed) + if current then 0 else 1
    {
      if mutations[stripeOf(key)] != generation {
        staleWritesSuppressed := staleWritesSuppressed + 1;
        return;
      }
      if ok {
        entries := entries[key := value];
      }
    }
  }
}
