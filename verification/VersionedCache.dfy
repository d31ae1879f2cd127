/**
 Read-through loads racing versioned invalidations from any number of replicas
 (cache/cache.go over cache/memory/memory.go).

 Every event happens at its own logical time. `truth` is the revision of the data each loader reads
 from; a load may return any revision between the one at its start and the one at its end.
 */
module VersionedCache {
  import opened Wrappers
  import opened CacheBackend

  /** Where a cached payload came from: a load begun at a time, of some revision, or an explicit Set. */
  datatype Origin = Loaded(began: nat, revision: nat) | Explicit

  datatype Phase = Captured | Missed | Guarded | Loading | Returned

  /** A singleflight leader inside Get; several leaders per key may be under way. */
  datatype Load = Load(
    replica: nat, key: Key, phase: Phase, generation: nat,
    guard: Option<nat>, guardedAt: nat, began: nat, revision: nat)

  datatype World = World(
    now: nat,
    backend: Backend<Origin>,
    generations: map<(nat, nat), nat>,
    loads: map<nat, Load>,
    truth: map<Key, nat>,
    appliedAt: map<Key, nat>)

  datatype Event =
    | Lead(load: nat, replica: nat, key: Key)
    | Recheck(load: nat, failsOpen: bool)
    | ReadVersion(load: nat, known: bool)
    | BeginLoad(load: nat)
    | EndLoad(load: nat, revision: nat)
    | StoreLoaded(load: nat, expiresAt: Option<int>)
    | Abandon(load: nat)
    | Invalidate(key: Key, version: nat)
    | Bump(replica: nat, key: Key)
    | SetExplicit(replica: nat, key: Key, expected: nat, expiresAt: Option<int>)
    | Expire(key: Key)
    | Commit(key: Key)

  function Start(): World {
    World(0, Backend(map[], map[]), map[], map[], map[], map[])
  }

  function Generation(w: World, replica: nat, stripe: nat): nat {
    if (replica, stripe) in w.generations then w.generations[(replica, stripe)] else 0
  }

  function TruthOf(truth: map<Key, nat>, key: Key): nat {
    if key in truth then truth[key] else 0
  }

  function Bumped(w: World, replica: nat, stripe: nat): World {
    w.(generations := w.generations[(replica, stripe) := Generation(w, replica, stripe) + 1])
  }

  function PutLoad(w: World, id: nat, l: Load): World {
    w.(loads := w.loads[id := l])
  }

  function Tick(w: World): World {
    w.(now := w.now + 1)
  }

  /** What becomes of a load; None when its Get returns. */
  function NextPhase(w: World, e: Event, l: Load): Option<Load> {
    match (e, l.phase)
    case (Recheck(_, failsOpen), Captured) =>
      // A hit returns the cached value and ends the load; a failing read may count as a miss.
      if l.key in w.backend.entries && !failsOpen then None else Some(l.(phase := Missed))
    case (ReadVersion(_, known), Missed) =>
      Some(l.(phase := Guarded, guard := if known then Some(Watermark(w.backend, l.key)) else None, guardedAt := w.now))
    case (BeginLoad(_), Guarded) =>
      Some(l.(phase := Loading, began := w.now, revision := TruthOf(w.truth, l.key)))
    case (EndLoad(_, revision), Loading) =>
      if l.revision <= revision <= TruthOf(w.truth, l.key) then Some(l.(phase := Returned, revision := revision))
      else Some(l)
    case (StoreLoaded(_, _), Returned) => None
    case (Abandon(_), _) => None
    case _ => Some(l)
  }

  /** A write allowed only by a current generation, a known guard and an unmoved watermark. */
  function GuardedWrite<V>(b: Backend<V>, current: bool, key: Key, entry: Entry<V>, guard: Option<nat>): Backend<V> {
    if !current || guard.None? then b else SetIfVersion(b, key, entry, guard.value)
  }

  /** The backend write at the end of a load, under the stripe lock; `stripeOf` is the stripe hash. */
  function Stored(stripeOf: Key -> nat, w: World, l: Load, expiresAt: Option<int>): Backend<Origin> {
    var current := Generation(w, l.replica, stripeOf(l.key)) == l.generation;
    GuardedWrite(w.backend, current, l.key, Entry(Loaded(l.began, l.revision), expiresAt), l.guard)
  }

  function LoadStep(stripeOf: Key -> nat, w: World, e: Event, id: nat): World
    requires id in w.loads
  {
    var l := w.loads[id];
    var next := NextPhase(w, e, l);
    var w1 := w.(loads := if next.Some? then w.loads[id := next.value] else w.loads - {id});
    if e.StoreLoaded? && l.phase.Returned? then w1.(backend := Stored(stripeOf, w, l, e.expiresAt)) else w1
  }

  function Step(stripeOf: Key -> nat, w: World, e: Event): World {
    Tick(
      match e
      case Lead(id, replica, key) =>
        if id in w.loads then w
        else PutLoad(w, id, Load(replica, key, Captured, Generation(w, replica, stripeOf(key)), None, 0, 0, 0))
      case Invalidate(key, version) =>
        if version == 0 then w
        else w.(backend := ApplyInvalidation(w.backend, key, version),
                appliedAt :=
                  if Verdict(w.backend, key, version).Applied? then w.appliedAt[key := w.now] else w.appliedAt)
      case Bump(replica, key) => Bumped(w, replica, stripeOf(key))
      case SetExplicit(replica, key, expected, expiresAt) =>
        Bumped(w, replica, stripeOf(key)).(
          backend := SetIfVersion(w.backend, key, Entry(Explicit, expiresAt), expected))
      case Expire(key) => w.(backend := w.backend.(entries := w.backend.entries - {key}))
      case Commit(key) => w.(truth := w.truth[key := TruthOf(w.truth, key) + 1])
      case _ => if e.load in w.loads then LoadStep(stripeOf, w, e, e.load) else w)
  }

  function Run(stripeOf: Key -> nat, es: seq<Event>): World {
    if es == [] then Start() else Step(stripeOf, Run(stripeOf, es[..|es| - 1]), es[|es| - 1])
  }

  // ---------------------------------------------------------------------------
  // A cached load began after the invalidation that set the watermark
  // ---------------------------------------------------------------------------

  /** The watermarks and the times at which they were set. */
  datatype Marks = Marks(versions: map<Key, nat>, appliedAt: map<Key, nat>)

  function MarksOf(w: World): Marks {
    Marks(w.backend.versions, w.appliedAt)
  }

  function Mark(m: Marks, key: Key): nat {
    if key in m.versions then m.versions[key] else 0
  }

  /** The key has no watermark yet, or its watermark was set before `time`. */
  predicate SetBefore(m: Marks, key: Key, time: nat) {
    Mark(m, key) > 0 ==> key in m.appliedAt && m.appliedAt[key] < time
  }

  /** A guard that still matches the watermark was read after that watermark was set. */
  predicate GuardHolds(m: Marks, l: Load) {
    l.guard.Some? ==>
      && l.guard.value <= Mark(m, l.key)
      && (l.guard.value == Mark(m, l.key) ==> SetBefore(m, l.key, l.guardedAt))
  }

  predicate LoadInTime(m: Marks, now: nat, l: Load) {
    && GuardHolds(m, l)
    && (l.phase.Captured? || l.phase.Missed? ==> l.guard.None?)
    && (l.phase.Guarded? ==> l.guardedAt < now)
    && (l.phase.Loading? || l.phase.Returned? ==> l.guardedAt < l.began < now)
  }

  ghost predicate AllSetBefore(m: Marks, now: nat) {
    forall key :: SetBefore(m, key, now)
  }

  ghost predicate LoadsInTime(m: Marks, now: nat, loads: map<nat, Load>) {
    forall id | id in loads :: LoadInTime(m, now, loads[id])
  }

  ghost predicate EntriesInTime(m: Marks, entries: map<Key, Entry<Origin>>) {
    forall key | key in entries && entries[key].value.Loaded? :: SetBefore(m, key, entries[key].value.began)
  }

  ghost predicate InTime(w: World) {
    && AllSetBefore(MarksOf(w), w.now)
    && LoadsInTime(MarksOf(w), w.now, w.loads)
    && EntriesInTime(MarksOf(w), w.backend.entries)
  }

  /** Time passes, loads end and entries disappear without harm. */
  lemma LaterIsInTime(m: Marks, now: nat, loads: map<nat, Load>, loads': map<nat, Load>)
    requires AllSetBefore(m, now) && LoadsInTime(m, now, loads)
    requires forall id | id in loads' :: (id in loads && loads'[id] == loads[id]) || LoadInTime(m, now + 1, loads'[id])
    ensures AllSetBefore(m, now + 1) && LoadsInTime(m, now + 1, loads')
  {
    var next := now + 1;
    forall key ensures SetBefore(m, key, next) {
      assert SetBefore(m, key, now);
    }
  }

  lemma NextPhaseIsInTime(w: World, e: Event, l: Load)
    requires LoadInTime(MarksOf(w), w.now, l) && SetBefore(MarksOf(w), l.key, w.now)
    ensures var next := NextPhase(w, e, l); next.Some? ==> LoadInTime(MarksOf(w), w.now + 1, next.value)
  {
  }

  lemma LoadStepIsInTime(stripeOf: Key -> nat, w: World, e: Event, id: nat)
    requires InTime(w) && id in w.loads
    ensures InTime(Tick(LoadStep(stripeOf, w, e, id)))
  {
    var m, l := MarksOf(w), w.loads[id];
    var w' := LoadStep(stripeOf, w, e, id);
    assert LoadInTime(m, w.now, l);
    assert SetBefore(m, l.key, w.now);
    NextPhaseIsInTime(w, e, l);
    LaterIsInTime(m, w.now, w.loads, w'.loads);
  }

  /** An applied invalidation makes every guard read so far outdated and deletes what it guards. */
  lemma InvalidateIsInTime(stripeOf: Key -> nat, w: World, key: Key, version: nat)
    requires InTime(w) && version > 0 && Verdict(w.backend, key, version).Applied?
    ensures InTime(Step(stripeOf, w, Invalidate(key, version)))
  {
    var m, w' := MarksOf(w), Step(stripeOf, w, Invalidate(key, version));
    var m' := MarksOf(w');
    forall k ensures SetBefore(m', k, w'.now) {
      assert SetBefore(m, k, w.now);
    }
    forall id | id in w.loads ensures LoadInTime(m', w'.now, w.loads[id]) {
      assert LoadInTime(m, w.now, w.loads[id]);
    }
  }

  lemma StepIsInTime(stripeOf: Key -> nat, w: World, e: Event)
    requires InTime(w)
    ensures InTime(Step(stripeOf, w, e))
  {
    if e.Invalidate? && e.version > 0 && Verdict(w.backend, e.key, e.version).Applied? {
      InvalidateIsInTime(stripeOf, w, e.key, e.version);
    } else if (e.Recheck? || e.ReadVersion? || e.BeginLoad? || e.EndLoad? || e.StoreLoaded? || e.Abandon?)
              && e.load in w.loads {
      LoadStepIsInTime(stripeOf, w, e, e.load);
    } else {
      var w' := Step(stripeOf, w, e);
      assert MarksOf(w') == MarksOf(w);
      LaterIsInTime(MarksOf(w), w.now, w.loads, w'.loads);
    }
  }

  lemma {:induction false} RunIsInTime(stripeOf: Key -> nat, es: seq<Event>)
    ensures InTime(Run(stripeOf, es))
  {
    if es != [] {
      RunIsInTime(stripeOf, es[..|es| - 1]);
      StepIsInTime(stripeOf, Run(stripeOf, es[..|es| - 1]), es[|es| - 1]);
    }
  }

  /**
   Whatever the interleaving of loads and invalidations from any number of replicas, loads with an
   unknown version included: a loaded entry that is present began loading after the invalidation that
   set its key's current watermark.
   */
  lemma {:induction false} NothingIsResurrected(stripeOf: Key -> nat, es: seq<Event>, key: Key)
    requires var b := Run(stripeOf, es).backend;
             key in b.entries && b.entries[key].value.Loaded? && Watermark(b, key) > 0
    ensures var w := Run(stripeOf, es);
            key in w.appliedAt && w.appliedAt[key] < w.backend.entries[key].value.began
  {
    RunIsInTime(stripeOf, es);
    var w := Run(stripeOf, es);
    assert SetBefore(MarksOf(w), key, w.backend.entries[key].value.began);
  }

  // ---------------------------------------------------------------------------
  // Watermarks over a run
  // ---------------------------------------------------------------------------

  lemma WatermarkStep(stripeOf: Key -> nat, w: World, e: Event, key: Key)
    ensures var w' := Step(stripeOf, w, e);
            && w'.now == w.now + 1
            && Watermark(w'.backend, key) >= Watermark(w.backend, key)
            && (key in w.appliedAt ==>
              key in w'.appliedAt && (w'.appliedAt[key] == w.appliedAt[key] || w'.appliedAt[key] == w.now))
            && (Watermark(w'.backend, key) != Watermark(w.backend, key) ==>
              key in w'.appliedAt && w'.appliedAt[key] == w.now && key !in w'.backend.entries)
  {
  }

  lemma {:induction false} Clock(stripeOf: Key -> nat, es: seq<Event>)
    ensures Run(stripeOf, es).now == |es|
  {
    if es != [] {
      Clock(stripeOf, es[..|es| - 1]);
      WatermarkStep(stripeOf, Run(stripeOf, es[..|es| - 1]), es[|es| - 1], "");
    }
  }

  /** Over any run a watermark never goes back, and where it moved an invalidation was applied meanwhile. */
  lemma {:induction false} WatermarksNeverGoBack(stripeOf: Key -> nat, es: seq<Event>, i: nat, key: Key)
    requires i <= |es|
    ensures var w0, w := Run(stripeOf, es[..i]), Run(stripeOf, es);
            && Watermark(w0.backend, key) <= Watermark(w.backend, key)
            && (Watermark(w0.backend, key) != Watermark(w.backend, key) ==>
              key in w.appliedAt && i <= w.appliedAt[key])
    decreases |es|
  {
    if i == |es| {
      assert es[..i] == es;
    } else {
      var init := es[..|es| - 1];
      assert init[..i] == es[..i];
      WatermarksNeverGoBack(stripeOf, init, i, key);
      Clock(stripeOf, init);
      WatermarkStep(stripeOf, Run(stripeOf, init), es[|es| - 1], key);
    }
  }

  lemma MarkAfter(stripeOf: Key -> nat, w: World, e: Event, key: Key)
    ensures var mark := Watermark(w.backend, key);
            Watermark(Step(stripeOf, w, e).backend, key)
            == if e.Invalidate? && e.key == key && e.version > mark then e.version else mark
  {
  }

  lemma RunNext(stripeOf: Key -> nat, es: seq<Event>, e: Event)
    ensures Run(stripeOf, es + [e]) == Step(stripeOf, Run(stripeOf, es), e)
  {
    assert (es + [e])[..|es|] == es;
  }

  /** The watermark of a key is the largest version any invalidation of it has named, and zero before the first. */
  lemma {:induction false} WatermarkIsLargestVersion(stripeOf: Key -> nat, es: seq<Event>, key: Key)
    ensures var mark := Watermark(Run(stripeOf, es).backend, key);
            && (forall i | 0 <= i < |es| && es[i].Invalidate? && es[i].key == key :: es[i].version <= mark)
            && (mark > 0 ==> Invalidate(key, mark) in es)
  {
    if es != [] {
      var init, last := es[..|es| - 1], es[|es| - 1];
      WatermarkIsLargestVersion(stripeOf, init, key);
      MarkAfter(stripeOf, Run(stripeOf, init), last, key);
      assert es == init + [last];
    }
  }

  /** An invalidation above every earlier one removes the entry; any other leaves the backend as it was. */
  lemma {:induction false} InvalidationTakesEffectOnce(stripeOf: Key -> nat, es: seq<Event>, key: Key, version: nat)
    ensures var b, b' := Run(stripeOf, es).backend, Run(stripeOf, es + [Invalidate(key, version)]).backend;
            if forall i | 0 <= i < |es| && es[i].Invalidate? && es[i].key == key :: es[i].version < version
            then version > 0 ==> Watermark(b', key) == version && b'.entries == b.entries - {key}
            else b' == b
  {
    RunNext(stripeOf, es, Invalidate(key, version));
    WatermarkIsLargestVersion(stripeOf, es, key);
  }

  // ---------------------------------------------------------------------------
  // A load that nothing disturbs is cached
  // ---------------------------------------------------------------------------

  /** An event that makes a load of `key` by `replica` unfit to be stored. */
  predicate Disturbs(stripeOf: Key -> nat, e: Event, replica: nat, key: Key) {
    || (e.Invalidate? && e.key == key)
    || ((e.Bump? || e.SetExplicit?) && e.replica == replica && stripeOf(e.key) == stripeOf(key))
  }

  /** The load still holds the current generation and, if it read one, the current watermark. */
  predicate UpToDate(stripeOf: Key -> nat, w: World, id: nat, replica: nat, key: Key) {
    id in w.loads && w.loads[id].replica == replica && w.loads[id].key == key ==>
      && w.loads[id].generation == Generation(w, replica, stripeOf(key))
      && (w.loads[id].guard.Some? ==> w.loads[id].guard.value == Watermark(w.backend, key))
  }

  lemma GenerationAfter(stripeOf: Key -> nat, w: World, e: Event, replica: nat, stripe: nat)
    ensures Generation(Step(stripeOf, w, e), replica, stripe)
         == Generation(w, replica, stripe)
          + if (e.Bump? || e.SetExplicit?) && e.replica == replica && stripeOf(e.key) == stripe then 1 else 0
  {
  }

  /** A load is new, gone, or moved on by one phase. */
  lemma LoadAfter(stripeOf: Key -> nat, w: World, e: Event, id: nat)
    ensures var w' := Step(stripeOf, w, e);
            id in w'.loads ==>
              if id in w.loads then w'.loads[id] == w.loads[id] || NextPhase(w, e, w.loads[id]) == Some(w'.loads[id])
              else e.Lead? && w'.loads[id] == Load(e.replica, e.key, Captured,
                                                   Generation(w, e.replica, stripeOf(e.key)), None, 0, 0, 0)
  {
  }

  lemma QuietStepKeepsUp(stripeOf: Key -> nat, w: World, e: Event, id: nat, replica: nat, key: Key)
    requires UpToDate(stripeOf, w, id, replica, key) && !Disturbs(stripeOf, e, replica, key)
    ensures UpToDate(stripeOf, Step(stripeOf, w, e), id, replica, key)
  {
    MarkAfter(stripeOf, w, e, key);
    GenerationAfter(stripeOf, w, e, replica, stripeOf(key));
    LoadAfter(stripeOf, w, e, id);
  }

  lemma {:induction false} QuietRunKeepsUp(stripeOf: Key -> nat, es: seq<Event>, i: nat, id: nat, replica: nat,
                                           key: Key)
    requires i <= |es| && id !in Run(stripeOf, es[..i]).loads
    requires forall j | i <= j < |es| :: !Disturbs(stripeOf, es[j], replica, key)
    ensures UpToDate(stripeOf, Run(stripeOf, es), id, replica, key)
    decreases |es|
  {
    if i == |es| {
      assert es[..i] == es;
    } else {
      var init := es[..|es| - 1];
      assert init[..i] == es[..i];
      QuietRunKeepsUp(stripeOf, init, i, id, replica, key);
      QuietStepKeepsUp(stripeOf, Run(stripeOf, init), es[|es| - 1], id, replica, key);
    }
  }

  lemma StoresIfKnown(stripeOf: Key -> nat, w: World, id: nat, expiresAt: Option<int>)
    requires id in w.loads && w.loads[id].phase.Returned?
    requires UpToDate(stripeOf, w, id, w.loads[id].replica, w.loads[id].key)
    ensures var l, b' := w.loads[id], Step(stripeOf, w, StoreLoaded(id, expiresAt)).backend;
            b' == if l.guard.None? then w.backend
                  else w.backend.(entries := w.backend.entries[l.key := Entry(Loaded(l.began, l.revision), expiresAt)])
  {
  }

  /**
   A load that knew the version, and saw no invalidation of its key and no bump of its stripe since before
   it began, is cached with what it read and nothing else changes.
   */
  lemma UndisturbedLoadIsCached(stripeOf: Key -> nat, es: seq<Event>, i: nat, id: nat, expiresAt: Option<int>)
    requires i <= |es| && id !in Run(stripeOf, es[..i]).loads
    requires var w := Run(stripeOf, es);
             && id in w.loads && w.loads[id].phase.Returned? && w.loads[id].guard.Some?
             && forall j | i <= j < |es| :: !Disturbs(stripeOf, es[j], w.loads[id].replica, w.loads[id].key)
    ensures var w := Run(stripeOf, es);
            var l := w.loads[id];
            Run(stripeOf, es + [StoreLoaded(id, expiresAt)]).backend
            == w.backend.(entries := w.backend.entries[l.key := Entry(Loaded(l.began, l.revision), expiresAt)])
  {
    var l := Run(stripeOf, es).loads[id];
    QuietRunKeepsUp(stripeOf, es, i, id, l.replica, l.key);
    StoresIfKnown(stripeOf, Run(stripeOf, es), id, expiresAt);
    RunNext(stripeOf, es, StoreLoaded(id, expiresAt));
  }

  /** The load `l` under this number, at this phase of its life. */
  predicate At(w: World, id: nat, l: Load) {
    id in w.loads && w.loads[id] == l
  }

  lemma LeadsAndMisses(stripeOf: Key -> nat, w: World, id: nat, replica: nat, key: Key, failsOpen: bool)
    requires id !in w.loads && (key in w.backend.entries ==> failsOpen)
    ensures var w' := Step(stripeOf, Step(stripeOf, w, Lead(id, replica, key)), Recheck(id, failsOpen));
            && At(w', id, Load(replica, key, Missed, Generation(w, replica, stripeOf(key)), None, 0, 0, 0))
            && w'.backend == w.backend && w'.truth == w.truth && w'.generations == w.generations && w'.now == w.now + 2
  {
  }

  lemma ReadsAndLoads(stripeOf: Key -> nat, w: World, id: nat, l: Load, known: bool, revision: nat)
    requires At(w, id, l) && l.phase.Missed? && revision == TruthOf(w.truth, l.key)
    ensures var w1 := Step(stripeOf, w, ReadVersion(id, known));
            var w2 := Step(stripeOf, w1, BeginLoad(id));
            var w3 := Step(stripeOf, w2, EndLoad(id, revision));
            && At(w3, id, l.(phase := Returned, guard := if known then Some(Watermark(w.backend, l.key)) else None,
                             guardedAt := w.now, began := w.now + 1, revision := revision))
            && w3.backend == w.backend && w3.generations == w.generations
  {
  }

  /**
   A whole load, left alone: led on a miss (or with a read that fails open), with the version known, it ends in
   the cache with what it read, as of when it began. With the version unknown it leaves the cache as it was.
   */
  lemma LoneLoadIsCached(stripeOf: Key -> nat, es: seq<Event>, id: nat, replica: nat, key: Key, failsOpen: bool,
                         known: bool, revision: nat, expiresAt: Option<int>)
    requires var w := Run(stripeOf, es);
             id !in w.loads && (key in w.backend.entries ==> failsOpen) && revision == TruthOf(w.truth, key)
    ensures var b := Run(stripeOf, es).backend;
            Run(stripeOf, es + [Lead(id, replica, key)] + [Recheck(id, failsOpen)] + [ReadVersion(id, known)]
                        + [BeginLoad(id)] + [EndLoad(id, revision)] + [StoreLoaded(id, expiresAt)]).backend
            == if known then b.(entries := b.entries[key := Entry(Loaded(|es| + 3, revision), expiresAt)]) else b
  {
    var e1 := es + [Lead(id, replica, key)];
    var e2 := e1 + [Recheck(id, failsOpen)];
    var e3 := e2 + [ReadVersion(id, known)];
    var e4 := e3 + [BeginLoad(id)];
    var e5 := e4 + [EndLoad(id, revision)];
    RunNext(stripeOf, es, Lead(id, replica, key));
    RunNext(stripeOf, e1, Recheck(id, failsOpen));
    RunNext(stripeOf, e2, ReadVersion(id, known));
    RunNext(stripeOf, e3, BeginLoad(id));
    RunNext(stripeOf, e4, EndLoad(id, revision));
    RunNext(stripeOf, e5, StoreLoaded(id, expiresAt));
    Clock(stripeOf, es);
    var w := Run(stripeOf, es);
    LeadsAndMisses(stripeOf, w, id, replica, key, failsOpen);
    ReadsAndLoads(stripeOf, Run(stripeOf, e2), id,
                  Load(replica, key, Missed, Generation(w, replica, stripeOf(key)), None, 0, 0, 0), known, revision);
    StoresIfKnown(stripeOf, Run(stripeOf, e5), id, expiresAt);
  }

  /** A load that finds its key cached when it looks again ends there, unless the read fails. */
  lemma HitEndsLoad(stripeOf: Key -> nat, w: World, id: nat)
    requires id in w.loads && w.loads[id].phase.Captured? && w.loads[id].key in w.backend.entries
    ensures var w' := Step(stripeOf, w, Recheck(id, false)); id !in w'.loads && w'.backend == w.backend
  {
  }

  /** A load returns any revision between the one current when it began and the one current now. */
  lemma LoadReturnsRevision(stripeOf: Key -> nat, w: World, id: nat, revision: nat)
    requires id in w.loads && w.loads[id].phase.Loading?
    requires w.loads[id].revision <= revision <= TruthOf(w.truth, w.loads[id].key)
    ensures var w' := Step(stripeOf, w, EndLoad(id, revision));
            At(w', id, w.loads[id].(phase := Returned, revision := revision)) && w'.backend == w.backend
  {
  }

  // ---------------------------------------------------------------------------
  // Cached data is at least as new as the watermark
  // ---------------------------------------------------------------------------

  /** Invalidations are published only for revisions that are already committed. */
  ghost predicate CommittedFirst(stripeOf: Key -> nat, es: seq<Event>) {
    forall i | 0 <= i < |es| && es[i].Invalidate? :: es[i].version <= TruthOf(Run(stripeOf, es[..i]).truth, es[i].key)
  }

  /** A load whose guard still holds reads nothing older than the watermark. */
  predicate LoadIsFresh(m: Marks, truth: map<Key, nat>, l: Load) {
    && (l.phase.Loading? || l.phase.Returned? ==> l.revision <= TruthOf(truth, l.key))
    && (l.guard.Some? && (l.phase.Loading? || l.phase.Returned?) && l.guard.value == Mark(m, l.key) ==>
      l.revision >= Mark(m, l.key))
  }

  ghost predicate Fresh(w: World) {
    && (forall key :: Mark(MarksOf(w), key) <= TruthOf(w.truth, key))
    && (forall id | id in w.loads :: LoadIsFresh(MarksOf(w), w.truth, w.loads[id]))
    && (forall key | key in w.backend.entries && w.backend.entries[key].value.Loaded? ::
      w.backend.entries[key].value.revision >= Mark(MarksOf(w), key))
  }

  lemma NextPhaseIsFresh(w: World, e: Event, l: Load)
    requires LoadInTime(MarksOf(w), w.now, l) && LoadIsFresh(MarksOf(w), w.truth, l)
    requires Mark(MarksOf(w), l.key) <= TruthOf(w.truth, l.key)
    ensures var next := NextPhase(w, e, l); next.Some? ==> LoadIsFresh(MarksOf(w), w.truth, next.value)
  {
  }

  lemma LoadStepIsFresh(stripeOf: Key -> nat, w: World, e: Event, id: nat)
    requires InTime(w) && Fresh(w) && id in w.loads
    ensures Fresh(Tick(LoadStep(stripeOf, w, e, id)))
  {
    var m, l := MarksOf(w), w.loads[id];
    assert LoadInTime(m, w.now, l) && LoadIsFresh(m, w.truth, l);
    assert Mark(m, l.key) <= TruthOf(w.truth, l.key);
    NextPhaseIsFresh(w, e, l);
  }

  /** Other loads stay fresh when a watermark or the truth moves on. */
  lemma OtherStepIsFresh(w: World, w': World)
    requires InTime(w) && Fresh(w) && w'.loads == w.loads
    requires forall key :: TruthOf(w.truth, key) <= TruthOf(w'.truth, key)
    requires forall key :: Mark(MarksOf(w), key) <= Mark(MarksOf(w'), key) <= TruthOf(w'.truth, key)
    requires forall key | key in w'.backend.entries && w'.backend.entries[key].value.Loaded? ::
      && key in w.backend.entries && w'.backend.entries[key] == w.backend.entries[key]
      && Mark(MarksOf(w'), key) == Mark(MarksOf(w), key)
    ensures Fresh(w')
  {
    forall id | id in w'.loads ensures LoadIsFresh(MarksOf(w'), w'.truth, w'.loads[id]) {
      assert LoadIsFresh(MarksOf(w), w.truth, w.loads[id]);
      assert LoadInTime(MarksOf(w), w.now, w.loads[id]);
    }
  }

  lemma InvalidateIsFresh(stripeOf: Key -> nat, w: World, key: Key, version: nat)
    requires InTime(w) && Fresh(w) && version <= TruthOf(w.truth, key)
    ensures Fresh(Step(stripeOf, w, Invalidate(key, version)))
  {
    var w' := Step(stripeOf, w, Invalidate(key, version));
    forall k ensures Mark(MarksOf(w), k) <= Mark(MarksOf(w'), k) <= TruthOf(w'.truth, k) {
      assert Mark(MarksOf(w), k) <= TruthOf(w.truth, k);
    }
    OtherStepIsFresh(w, w');
  }

  lemma StepIsFresh(stripeOf: Key -> nat, w: World, e: Event)
    requires InTime(w) && Fresh(w) && (e.Invalidate? ==> e.version <= TruthOf(w.truth, e.key))
    ensures Fresh(Step(stripeOf, w, e))
  {
    if (e.Recheck? || e.ReadVersion? || e.BeginLoad? || e.EndLoad? || e.StoreLoaded? || e.Abandon?)
       && e.load in w.loads {
      LoadStepIsFresh(stripeOf, w, e, e.load);
    } else if e.Invalidate? {
      InvalidateIsFresh(stripeOf, w, e.key, e.version);
    } else if !e.Lead? {
      var w' := Step(stripeOf, w, e);
      assert MarksOf(w') == MarksOf(w);
      forall key ensures TruthOf(w.truth, key) <= TruthOf(w'.truth, key) {
      }
      OtherStepIsFresh(w, w');
    }
  }

  lemma {:induction false} RunIsFresh(stripeOf: Key -> nat, es: seq<Event>)
    requires CommittedFirst(stripeOf, es)
    ensures Fresh(Run(stripeOf, es))
  {
    if es != [] {
      var init := es[..|es| - 1];
      assert forall i | 0 <= i < |init| :: init[..i] == es[..i];
      RunIsFresh(stripeOf, init);
      RunIsInTime(stripeOf, init);
      StepIsFresh(stripeOf, Run(stripeOf, init), es[|es| - 1]);
    }
  }

  /** If every invalidation names a committed revision, no loaded entry is older than its watermark. */
  lemma {:induction false} NoStaleDataIsCached(stripeOf: Key -> nat, es: seq<Event>, key: Key)
    requires CommittedFirst(stripeOf, es)
    requires var b := Run(stripeOf, es).backend; key in b.entries && b.entries[key].value.Loaded?
    ensures var b := Run(stripeOf, es).backend; b.entries[key].value.revision >= Watermark(b, key)
  {
    RunIsFresh(stripeOf, es);
  }

  // ---------------------------------------------------------------------------
  // The cache object of one replica
  // ---------------------------------------------------------------------------

  datatype Invalidation = Refused | BackendFailed | Done(state: InvalidationState)

  /** The mutable part of a versioned cache over a backend that other replicas share. */
  class Replica<V(==)> {
    const stripeOf: Key -> nat
    const validKey: Key -> bool
    const backend: Store<V>
    var generations: map<nat, nat>
    var staleWritesSuppressed: nat
    var versionedInvalidations: nat
    var currentInvalidations: nat
    var staleInvalidations: nat
    var versionFailures: nat

    constructor (stripeOf: Key -> nat, validKey: Key -> bool, backend: Store<V>)
      ensures this.stripeOf == stripeOf && this.validKey == validKey && this.backend == backend && generations == map[]
      ensures staleWritesSuppressed == 0 && versionedInvalidations == 0
      ensures currentInvalidations == 0 && staleInvalidations == 0 && versionFailures == 0
    {
      this.stripeOf, this.validKey, this.backend, generations := stripeOf, validKey, backend, map[];
      staleWritesSuppressed, versionedInvalidations, currentInvalidations := 0, 0, 0;
      staleInvalidations, versionFailures := 0, 0;
    }

    function GenerationOf(key: Key): nat
      reads this
    {
      if stripeOf(key) in generations then generations[stripeOf(key)] else 0
    }

    /**
     A value that cannot be encoded or a failing backend is an error and writes nothing. Every suppressed write
     is counted once, except the one without a known version.
     */
    method StoreIfCurrent(
        key: Key, value: V, ttl: int, now: int, generation: nat, guard: Option<nat>, encodes: bool, backendFails: bool)
      returns (error: bool)
      modifies this`staleWritesSuppressed, backend
      ensures var current := old(GenerationOf(key)) == generation;
              && error == (current && (!encodes || (guard.Some? && backendFails)))
              && backend.View() ==
                GuardedWrite(old(backend.View()), current && !error, key, Entry(value, ExpiryOf(now, ttl)), guard)
              && staleWritesSuppressed == old(staleWritesSuppressed) +
                if !current || (!error && guard.Some? && guard.value != Watermark(old(backend.View()), key))
                then 1 else 0
    {
      if GenerationOf(key) != generation {
        staleWritesSuppressed := staleWritesSuppressed + 1;
        return false;
      }
      if !encodes {
        return true;
      }
      if guard.None? {
        return false;
      }
      if backendFails {
        return true;
      }
      var stored := backend.StoreIfVersion(key, value, ttl, now, guard.value);
      if !stored {
        staleWritesSuppressed := staleWritesSuppressed + 1;
      }
      return false;
    }

    /** A stale event changes nothing; any other one also shuts out this replica's own loads in progress. */
    method InvalidateVersion(key: Key, version: nat, backendFails: bool) returns (result: Invalidation)
      modifies this, backend
      ensures result == if !validKey(key) || version == 0 then Refused
                        else if backendFails then BackendFailed
                        else Done(Verdict(old(backend.View()), key, version))
      ensures backend.View() ==
        if result.Done? then ApplyInvalidation(old(backend.View()), key, version) else old(backend.View())
      ensures generations == if !result.Done? || result.state.Stale? then old(generations)
                             else old(generations)[stripeOf(key) := old(GenerationOf(key)) + 1]
      ensures staleWritesSuppressed == old(staleWritesSuppressed)
      ensures versionedInvalidations == old(versionedInvalidations) + if result == Done(Applied) then 1 else 0
      ensures currentInvalidations == old(currentInvalidations) + if result == Done(Current) then 1 else 0
      ensures staleInvalidations == old(staleInvalidations) + if result == Done(Stale) then 1 else 0
      ensures versionFailures == old(versionFailures) + if result.BackendFailed? then 1 else 0
    {
      if !validKey(key) || version == 0 {
        return Refused;
      }
      if backendFails {
        versionFailures := versionFailures + 1;
        return BackendFailed;
      }
      var state := backend.Invalidate(key, version);
      match state.value {
        case Applied => versionedInvalidations := versionedInvalidations + 1;
        case Current => currentInvalidations := currentInvalidations + 1;
        case Stale =>
          staleInvalidations := staleInvalidations + 1;
          return Done(Stale);
      }
      generations := generations[stripeOf(key) := GenerationOf(key) + 1];
      return Done(state.value);
    }
  }
}
