/**
 Any number of owners running one saga instance over a fenced, revision-checked repository
 (saga/engine.go, saga/memory/repository.go, coordination/memory/memory.go).

 Every owner keeps its own copy of the record and takes its steps at arbitrary times; leases can be
 lost, owners can stop at any point, and a save may arrive long after its owner lost the lease.
 */
module SagaOwners {
  import opened Wrappers
  import opened Saga

  // ---------------------------------------------------------------------------
  // The repository
  // ---------------------------------------------------------------------------

  datatype Store = Store(record: Option<Record>, fence: nat)

  datatype SaveError = InvalidOption | NotFound | AlreadyExists | StaleFence | Conflict | DefinitionMismatch

  datatype SaveResult = Saved(record: Record) | Refused(error: SaveError)

  function CreateOutcome(st: Store, r: Record, fence: nat): SaveResult {
    if fence == 0 || !Valid(r.(revision := 1)) then Refused(InvalidOption)
    else if st.record.Some? then Refused(AlreadyExists)
    else Saved(r.(revision := 1))
  }

  /** Fencing, revision check and validation, in the order the store applies them. */
  function SaveOutcome(st: Store, r: Record, expected: nat, fence: nat): SaveResult {
    if expected == 0 || fence == 0 then Refused(InvalidOption)
    else if st.record.None? then Refused(NotFound)
    else if fence < st.fence then Refused(StaleFence)
    else if st.record.value.revision != expected then Refused(Conflict)
    else if st.record.value.definition != r.definition || st.record.value.version != r.version then
      Refused(DefinitionMismatch)
    else if !Valid(r.(revision := expected + 1)) then Refused(InvalidOption)
    else Saved(r.(revision := expected + 1))
  }

  function Written(st: Store, outcome: SaveResult, fence: nat): Store {
    if outcome.Saved? then Store(Some(outcome.record), fence) else st
  }

  // ---------------------------------------------------------------------------
  // Owners and the world
  // ---------------------------------------------------------------------------

  /** Where a Run call stands: each position after loading carries the owner's copy of the record. */
  datatype Position =
    | Loading
    | Creating
    | Top(record: Record)
    | Announced(record: Record, phase: Phase)
    | Handling(record: Record, phase: Phase)
    | Stopped

  datatype Owner = Owner(fence: nat, at: Position)

  datatype World = World(
    store: Store,
    leased: bool,
    fences: nat,
    owners: map<nat, Owner>,
    moves: seq<Move>,
    writers: seq<nat>,
    invoked: seq<Call>)

  datatype Event =
    | Acquire(owner: nat)
    | LeaseEnds
    | Load(owner: nat)
    | Create(owner: nat)
    | Write(owner: nat)
    | Invoke(owner: nat)
    | Return(owner: nat, result: HandlerResult)
    | Stop(owner: nat)

  function Start(): World {
    World(Store(None, 0), false, 0, map[], [], [], [])
  }

  function Put(w: World, o: nat, at: Position): World
    requires o in w.owners
  {
    w.(owners := w.owners[o := w.owners[o].(at := at)])
  }

  /** One save by owner `o` of `r`, a change of its copy `base`; on success the owner is at `next`. */
  function TrySave(w: World, o: nat, base: Record, r: Record, m: Move, next: Record -> Position): World
    requires o in w.owners
  {
    var fence := w.owners[o].fence;
    var outcome := SaveOutcome(w.store, r, base.revision, fence);
    if outcome.Refused? then Put(w, o, Stopped)
    else Put(w, o, next(outcome.record)).(
           store := Written(w.store, outcome, fence),
           moves := w.moves + [m],
           writers := w.writers + [fence])
  }

  /** One event; an event that is not possible in `w` changes nothing. */
  function Step(def: Definition, maxAttempts: nat, w: World, e: Event): World {
    match e
    case Acquire(o) =>
      if w.leased || o in w.owners then w
      else w.(leased := true, fences := w.fences + 1, owners := w.owners[o := Owner(w.fences + 1, Loading)])
    case LeaseEnds => w.(leased := false)
    case _ =>
      if e.owner !in w.owners then w else OwnerStep(def, maxAttempts, w, e)
  }

  function OwnerStep(def: Definition, maxAttempts: nat, w: World, e: Event): World
    requires !e.Acquire? && !e.LeaseEnds? && e.owner in w.owners
  {
    var o, at := e.owner, w.owners[e.owner].at;
    match (e, at)
    case (Stop(_), _) => Put(w, o, Stopped)
    case (Load(_), Loading) =>
      if w.store.record.None? then Put(w, o, Creating)
      else if Belongs(def, w.store.record.value) && Acceptable(def, w.store.record.value) then
        Put(w, o, Top(w.store.record.value))
      else Put(w, o, Stopped)
    case (Create(_), Creating) =>
      var outcome := CreateOutcome(w.store, InitialRecord(def), w.owners[o].fence);
      if outcome.Refused? then Put(w, o, Stopped)
      else Put(w, o, Top(outcome.record)).(
             store := Written(w.store, outcome, w.owners[o].fence), writers := [w.owners[o].fence])
    case (Write(_), Top(base)) =>
      if !Acceptable(def, base) then Put(w, o, Stopped)
      else (match AtTop(def, base)
            case Return => Put(w, o, Stopped)
            case SaveThenLoop(r) => TrySave(w, o, base, r, Advance, r' => Top(r'))
            case SaveThenInvoke(r, phase) =>
              TrySave(w, o, base, r, Begin(phase), r' => Announced(r', phase)))
    case (Invoke(_), Announced(r, phase)) =>
      Put(w, o, Handling(r, phase)).(invoked := w.invoked + [CallOf(r, phase)])
    case (Return(_, result), Handling(base, phase)) =>
      TrySave(w, o, base, AfterHandler(maxAttempts, base, phase, result), Finish(phase, result),
              r' => if EndsRun(phase, result) then Stopped else Top(r'))
    case _ => w
  }

  function Run(def: Definition, maxAttempts: nat, es: seq<Event>): World {
    if es == [] then Start()
    else Step(def, maxAttempts, Run(def, maxAttempts, es[..|es| - 1]), es[|es| - 1])
  }

  // ---------------------------------------------------------------------------
  // The shapes a step can take
  // ---------------------------------------------------------------------------

  ghost predicate Moves(w: World, w': World, o: nat) {
    && o in w.owners && o in w'.owners && !w'.owners[o].at.Announced?
    && w' == Put(w, o, w'.owners[o].at)
  }

  ghost predicate Invokes(w: World, w': World, o: nat) {
    && o in w.owners && w.owners[o].at.Announced?
    && var at := w.owners[o].at;
       w' == Put(w, o, Handling(at.record, at.phase)).(invoked := w.invoked + [CallOf(at.record, at.phase)])
  }

  /** A write accepted by the store; the writer then stands on the new record, or stops. */
  ghost predicate Writes(w: World, w': World, o: nat) {
    && o in w.owners && o in w'.owners && w'.store.record.Some?
    && w.owners[o].fence == w'.store.fence && w'.writers == w.writers + [w'.store.fence]
    && (w.store.record.Some? ==> w.store.fence <= w'.store.fence)
    && w' == Put(w, o, w'.owners[o].at).(store := w'.store, moves := w'.moves, writers := w'.writers)
    && (w'.owners[o].at.Announced? ==>
      && w'.store.record == Some(w'.owners[o].at.record)
      && w'.moves == w.moves + [Begin(w'.owners[o].at.phase)])
  }

  ghost predicate Admits(w: World, w': World, o: nat) {
    o !in w.owners && w' == w.(leased := true, fences := w.fences + 1,
                               owners := w.owners[o := Owner(w.fences + 1, Loading)])
  }

  lemma SaveShape(w: World, o: nat, base: Record, r: Record, m: Move, next: Record -> Position)
    requires o in w.owners
    requires forall r' {:trigger next(r')} :: next(r').Announced? ==> m.Begin? && next(r') == Announced(r', m.phase)
    ensures var w' := TrySave(w, o, base, r, m, next); Moves(w, w', o) || Writes(w, w', o)
  {
  }

  lemma StepShape(def: Definition, maxAttempts: nat, w: World, e: Event)
    requires w.store.record.None? ==> w.writers == []
    ensures var w' := Step(def, maxAttempts, w, e);
            w' == w || w' == w.(leased := false)
            || (!e.LeaseEnds? && (Moves(w, w', e.owner) || Invokes(w, w', e.owner)
                                  || Writes(w, w', e.owner) || Admits(w, w', e.owner)))
  {
    if e.Acquire? || e.LeaseEnds? || e.owner !in w.owners {
      return;
    }
    var o, at := e.owner, w.owners[e.owner].at;
    if e.Write? && at.Top? && Acceptable(def, at.record) {
      match AtTop(def, at.record)
      case Return =>
      case SaveThenLoop(r) => SaveShape(w, o, at.record, r, Advance, r' => Top(r'));
      case SaveThenInvoke(r, phase) =>
        SaveShape(w, o, at.record, r, Begin(phase), r' => Announced(r', phase));
    } else if e.Return? && at.Handling? {
      SaveShape(w, o, at.record, AfterHandler(maxAttempts, at.record, at.phase, e.result),
                Finish(at.phase, e.result), r' => if EndsRun(at.phase, e.result) then Stopped else Top(r'));
    }
  }

  // ---------------------------------------------------------------------------
  // The durable record follows one single-owner story
  // ---------------------------------------------------------------------------

  predicate Carries(at: Position) {
    at.Top? || at.Announced? || at.Handling?
  }

  /** An owner's copy is either outdated or exactly the durable record, with the same call in hand. */
  predicate CopyAgrees(def: Definition, s: Story, at: Position)
    requires Carries(at)
  {
    && Acceptable(def, at.record)
    && at.record.revision <= s.record.revision
    && (at.record.revision == s.record.revision ==>
      && at.record == s.record
      && (!at.Top? ==> s.inHand && at.phase == if s.record.status.Running? then Action else Compensation))
  }

  ghost predicate Faithful(def: Definition, maxAttempts: nat, w: World) {
    match w.store.record
    case None => w.moves == [] && forall o | o in w.owners :: !Carries(w.owners[o].at)
    case Some(r) =>
      && Legal(def, maxAttempts, w.moves)
      && var s := Told(def, maxAttempts, w.moves);
         s.record == r && CopiesAgree(def, s, w.owners)
  }

  /** Every accepted write is a move that the single owner could have made from the record it replaces. */
  ghost predicate OneMove(def: Definition, maxAttempts: nat, w: World, w': World) {
    || (w'.store == w.store && w'.moves == w.moves)
    || (w.store.record.None? && w'.store.record == Some(InitialRecord(def)) && w'.moves == w.moves)
    || Grew(def, maxAttempts, w, w')
  }

  ghost predicate Grew(def: Definition, maxAttempts: nat, w: World, w': World) {
    && |w'.moves| == |w.moves| + 1 && w'.moves == w.moves + [w'.moves[|w.moves|]]
    && Legal(def, maxAttempts, w.moves)
    && var s, m := Told(def, maxAttempts, w.moves), w'.moves[|w.moves|];
       Enabled(def, s, m) && w'.store.record == Some(Play(def, maxAttempts, s, m).record)
  }

  ghost predicate CopiesAgree(def: Definition, s: Story, owners: map<nat, Owner>) {
    forall o | o in owners && Carries(owners[o].at) :: CopyAgrees(def, s, owners[o].at)
  }

  /** After a write all other copies are outdated and the writer's copy is the new record. */
  lemma CopiesAfterWrite(def: Definition, s: Story, s': Story, owners: map<nat, Owner>, o: nat, at: Position)
    requires CopiesAgree(def, s, owners) && o in owners
    requires s'.record.revision == s.record.revision + 1
    requires Carries(at) ==> CopyAgrees(def, s', at)
    ensures CopiesAgree(def, s', owners[o := owners[o].(at := at)])
  {
  }

  lemma PlayedRecord(def: Definition, maxAttempts: nat, s: Story, m: Move)
    requires Keeps(def, s) && Enabled(def, s, m)
    ensures var s' := Play(def, maxAttempts, s, m);
            && s'.record == WriteOf(def, maxAttempts, s, m).(revision := s.record.revision + 1)
            && Acceptable(def, s'.record)
            && CopyAgrees(def, s', Top(s'.record))
            && (m.Begin? ==> CopyAgrees(def, s', Announced(s'.record, m.phase)))
  {
    PlayKeeps(def, maxAttempts, s, m);
  }

  lemma AcceptedSave(def: Definition, maxAttempts: nat, w: World, w': World, o: nat, m: Move)
    requires Faithful(def, maxAttempts, w) && w.store.record.Some? && o in w.owners && o in w'.owners
    requires Enabled(def, Told(def, maxAttempts, w.moves), m) && w'.moves == w.moves + [m]
    requires w'.owners == w.owners[o := w.owners[o].(at := w'.owners[o].at)]
    requires var s' := Play(def, maxAttempts, Told(def, maxAttempts, w.moves), m);
             && w'.store.record == Some(s'.record)
             && (Carries(w'.owners[o].at) ==> CopyAgrees(def, s', w'.owners[o].at))
    ensures Faithful(def, maxAttempts, w') && OneMove(def, maxAttempts, w, w')
  {
    var s := Told(def, maxAttempts, w.moves);
    ToldAppend(def, maxAttempts, w.moves, m);
    CopiesAfterWrite(def, s, Play(def, maxAttempts, s, m), w.owners, o, w'.owners[o].at);
  }

  lemma SaveIsOneMove(def: Definition, maxAttempts: nat, w: World, o: nat, r: Record, m: Move,
                      next: Record -> Position)
    requires Faithful(def, maxAttempts, w) && w.store.record.Some?
    requires o in w.owners && Carries(w.owners[o].at)
    requires var s := Told(def, maxAttempts, w.moves);
             w.owners[o].at.record == s.record ==>
               Enabled(def, s, m) && WriteOf(def, maxAttempts, s, m) == r
    requires forall r' {:trigger next(r')} :: next(r') == Top(r') || next(r') == Stopped
                   || (m.Begin? && next(r') == Announced(r', m.phase))
    ensures var w' := TrySave(w, o, w.owners[o].at.record, r, m, next);
            Faithful(def, maxAttempts, w') && OneMove(def, maxAttempts, w, w')
  {
    var base := w.owners[o].at.record;
    var s := Told(def, maxAttempts, w.moves);
    var w' := TrySave(w, o, base, r, m, next);
    if SaveOutcome(w.store, r, base.revision, w.owners[o].fence).Saved? {
      EveryStoryKeeps(def, maxAttempts, w.moves);
      PlayedRecord(def, maxAttempts, s, m);
      AcceptedSave(def, maxAttempts, w, w', o, m);
    } else {
      PutIsFaithful(def, maxAttempts, w, o, Stopped);
    }
  }

  lemma WriteIsFaithful(def: Definition, maxAttempts: nat, w: World, o: nat)
    requires Faithful(def, maxAttempts, w) && o in w.owners && w.owners[o].at.Top?
    ensures var w' := Step(def, maxAttempts, w, Write(o));
            Faithful(def, maxAttempts, w') && OneMove(def, maxAttempts, w, w')
  {
    match AtTop(def, w.owners[o].at.record)
    case Return =>
    case SaveThenLoop(r) => SaveIsOneMove(def, maxAttempts, w, o, r, Advance, r' => Top(r'));
    case SaveThenInvoke(r, phase) =>
      SaveIsOneMove(def, maxAttempts, w, o, r, Begin(phase), r' => Announced(r', phase));
  }

  lemma ReturnIsFaithful(def: Definition, maxAttempts: nat, w: World, o: nat, result: HandlerResult)
    requires Faithful(def, maxAttempts, w) && o in w.owners && w.owners[o].at.Handling?
    ensures var w' := Step(def, maxAttempts, w, Event.Return(o, result));
            Faithful(def, maxAttempts, w') && OneMove(def, maxAttempts, w, w')
  {
    var base, phase := w.owners[o].at.record, w.owners[o].at.phase;
    SaveIsOneMove(def, maxAttempts, w, o,
                  AfterHandler(maxAttempts, base, phase, result), Finish(phase, result),
                  r' => if EndsRun(phase, result) then Stopped else Top(r'));
  }

  lemma PutIsFaithful(def: Definition, maxAttempts: nat, w: World, o: nat, at: Position)
    requires Faithful(def, maxAttempts, w) && o in w.owners
    requires Carries(at) ==>
      w.store.record.Some? && CopyAgrees(def, Told(def, maxAttempts, w.moves), at)
    ensures Faithful(def, maxAttempts, Put(w, o, at)) && OneMove(def, maxAttempts, w, Put(w, o, at))
  {
  }

  lemma LoadIsFaithful(def: Definition, maxAttempts: nat, w: World, o: nat)
    requires Faithful(def, maxAttempts, w) && o in w.owners && w.owners[o].at.Loading?
    ensures var w' := Step(def, maxAttempts, w, Load(o));
            Faithful(def, maxAttempts, w') && OneMove(def, maxAttempts, w, w')
  {
    PutIsFaithful(def, maxAttempts, w, o, Step(def, maxAttempts, w, Load(o)).owners[o].at);
  }

  lemma CreateIsFaithful(def: Definition, maxAttempts: nat, w: World, o: nat)
    requires Faithful(def, maxAttempts, w) && o in w.owners && w.owners[o].at.Creating?
    ensures var w' := Step(def, maxAttempts, w, Create(o));
            Faithful(def, maxAttempts, w') && OneMove(def, maxAttempts, w, w')
  {
  }

  lemma StepIsFaithful(def: Definition, maxAttempts: nat, w: World, e: Event)
    requires Faithful(def, maxAttempts, w)
    ensures Faithful(def, maxAttempts, Step(def, maxAttempts, w, e))
    ensures OneMove(def, maxAttempts, w, Step(def, maxAttempts, w, e))
  {
    if e.Acquire? || e.LeaseEnds? || e.owner !in w.owners {
      return;
    }
    var o, at := e.owner, w.owners[e.owner].at;
    match (e, at)
    case (Stop(_), _) => PutIsFaithful(def, maxAttempts, w, o, Stopped);
    case (Load(_), Loading) => LoadIsFaithful(def, maxAttempts, w, o);
    case (Create(_), Creating) => CreateIsFaithful(def, maxAttempts, w, o);
    case (Write(_), Top(_)) => WriteIsFaithful(def, maxAttempts, w, o);
    case (Invoke(_), Announced(r, phase)) => PutIsFaithful(def, maxAttempts, w, o, Handling(r, phase));
    case (Return(_, result), Handling(_, _)) => ReturnIsFaithful(def, maxAttempts, w, o, result);
    case _ =>
  }

  lemma {:induction false} RunIsFaithful(def: Definition, maxAttempts: nat, es: seq<Event>)
    ensures Faithful(def, maxAttempts, Run(def, maxAttempts, es))
  {
    if es != [] {
      RunIsFaithful(def, maxAttempts, es[..|es| - 1]);
      StepIsFaithful(def, maxAttempts, Run(def, maxAttempts, es[..|es| - 1]), es[|es| - 1]);
    }
  }

  /**
   Refinement: whatever the interleaving, the durable record is the one a single undisturbed owner
   reaches by the accepted writes, and its position is the one its status calls for.
   */
  lemma EveryRunIsOneStory(def: Definition, maxAttempts: nat, es: seq<Event>)
    ensures var w := Run(def, maxAttempts, es);
            w.store.record.Some? ==>
              && Legal(def, maxAttempts, w.moves)
              && w.store.record.value == Told(def, maxAttempts, w.moves).record
              && Placed(def, w.store.record.value)
              && Acceptable(def, w.store.record.value)
  {
    RunIsFaithful(def, maxAttempts, es);
    var w := Run(def, maxAttempts, es);
    if w.store.record.Some? {
      EveryStoryKeeps(def, maxAttempts, w.moves);
    }
  }

  /** In every run the durable cause is the reason of the one action that failed, and empty without one. */
  lemma EveryRunNamesItsCause(def: Definition, maxAttempts: nat, es: seq<Event>)
    ensures var w := Run(def, maxAttempts, es);
            w.store.record.Some? ==>
              && (forall i | 0 <= i < |w.moves| && FailsAction(w.moves[i]) ::
                    w.store.record.value.causeReason == w.moves[i].result.reason)
              && ((forall i | 0 <= i < |w.moves| :: !FailsAction(w.moves[i])) ==>
                    w.store.record.value.causeReason == "")
  {
    EveryRunIsOneStory(def, maxAttempts, es);
    var w := Run(def, maxAttempts, es);
    if w.store.record.Some? {
      CauseIsTheFailedAction(def, maxAttempts, w.moves);
    }
  }

  /** A saved handler outcome sends its owner round the loop again, except that a failed compensation stops it. */
  lemma HandlerOutcomeContinues(def: Definition, maxAttempts: nat, es: seq<Event>, o: nat, result: HandlerResult)
    requires var w := Run(def, maxAttempts, es);
             && o in w.owners && w.owners[o].at.Handling?
             && |Step(def, maxAttempts, w, Event.Return(o, result)).moves| > |w.moves|
    ensures var w := Run(def, maxAttempts, es);
            var w' := Step(def, maxAttempts, w, Event.Return(o, result));
            && w'.store.record.Some? && o in w'.owners
            && w'.owners[o].at == if w.owners[o].at.phase.Compensation? && result.Errored? then Stopped
                                  else Top(w'.store.record.value)
  {
  }

  /** One more event of any run changes the durable record by at most one legal move. */
  lemma EveryWriteIsOneMove(def: Definition, maxAttempts: nat, es: seq<Event>, e: Event)
    ensures OneMove(def, maxAttempts, Run(def, maxAttempts, es), Run(def, maxAttempts, es + [e]))
  {
    RunIsFaithful(def, maxAttempts, es);
    StepIsFaithful(def, maxAttempts, Run(def, maxAttempts, es), e);
    assert (es + [e])[..|es|] == es;
  }

  /** Whatever owners came and went: a compensated saga undid exactly its committed actions, in reverse. */
  lemma EveryRunUndoesAll(def: Definition, maxAttempts: nat, es: seq<Event>)
    ensures var w := Run(def, maxAttempts, es);
            w.store.record.Some? && w.store.record.value.status.Compensated? ==>
              && Legal(def, maxAttempts, w.moves)
              && var s := Told(def, maxAttempts, w.moves);
                 WithinSteps(def, s.acted) && s.undone == Reversed(Compensable(def, s.acted))
  {
    EveryRunIsOneStory(def, maxAttempts, es);
    var w := Run(def, maxAttempts, es);
    if w.store.record.Some? && w.store.record.value.status.Compensated? {
      CompensatedUndoesAll(def, maxAttempts, w.moves);
    }
  }

  // ---------------------------------------------------------------------------
  // Fencing
  // ---------------------------------------------------------------------------

  /** Fences are handed out once, and accepted writes carry fences that never go back. */
  ghost predicate Fenced(w: World) {
    && (forall o | o in w.owners :: 0 < w.owners[o].fence <= w.fences)
    && (forall o, p | o in w.owners && p in w.owners && o != p :: w.owners[o].fence != w.owners[p].fence)
    && (forall i, j | 0 <= i <= j < |w.writers| :: w.writers[i] <= w.writers[j])
    && (w.store.record.None? ==> w.writers == [])
    && (w.store.record.Some? ==> |w.writers| > 0 && w.writers[|w.writers| - 1] == w.store.fence)
  }

  lemma WriteIsFenced(w: World, w': World, o: nat)
    requires Fenced(w) && Writes(w, w', o)
    ensures Fenced(w')
  {
    assert forall p | p in w.owners :: w'.owners[p].fence == w.owners[p].fence;
  }

  lemma AdmissionIsFenced(w: World, w': World, o: nat)
    requires Fenced(w) && Admits(w, w', o)
    ensures Fenced(w')
  {
  }

  lemma QuietStepIsFenced(w: World, w': World, o: nat)
    requires Fenced(w) && (Moves(w, w', o) || Invokes(w, w', o))
    ensures Fenced(w')
  {
    assert forall p | p in w.owners :: w'.owners[p].fence == w.owners[p].fence;
  }

  lemma StepIsFenced(def: Definition, maxAttempts: nat, w: World, e: Event)
    requires Fenced(w)
    ensures Fenced(Step(def, maxAttempts, w, e))
  {
    var w' := Step(def, maxAttempts, w, e);
    StepShape(def, maxAttempts, w, e);
    if w' != w && w' != w.(leased := false) {
      if Writes(w, w', e.owner) {
        WriteIsFenced(w, w', e.owner);
      } else if Admits(w, w', e.owner) {
        AdmissionIsFenced(w, w', e.owner);
      } else {
        QuietStepIsFenced(w, w', e.owner);
      }
    }
  }

  lemma {:induction false} RunIsFenced(def: Definition, maxAttempts: nat, es: seq<Event>)
    ensures Fenced(Run(def, maxAttempts, es))
  {
    if es != [] {
      RunIsFenced(def, maxAttempts, es[..|es| - 1]);
      StepIsFenced(def, maxAttempts, Run(def, maxAttempts, es[..|es| - 1]), es[|es| - 1]);
    }
  }

  /** Once an owner with a newer lease has written, no owner of an older lease ever writes again. */
  lemma StaleOwnersNeverWrite(def: Definition, maxAttempts: nat, es: seq<Event>, i: nat, j: nat)
    requires i <= j < |Run(def, maxAttempts, es).writers|
    ensures Run(def, maxAttempts, es).writers[i] <= Run(def, maxAttempts, es).writers[j]
  {
    RunIsFenced(def, maxAttempts, es);
  }

  // ---------------------------------------------------------------------------
  // No handler invocation is repeated
  // ---------------------------------------------------------------------------

  ghost function Holding(at: Position): Option<Call> {
    if at.Announced? then Some(CallOf(at.record, at.phase)) else None
  }

  /** Every announced call is invoked at most once: by then its one holder has let go of it. */
  ghost predicate Once(announced: seq<Call>, invoked: seq<Call>, owners: map<nat, Owner>) {
    && (forall i | 0 <= i < |invoked| :: invoked[i] in announced)
    && (forall i, j | 0 <= i < j < |invoked| :: invoked[i] != invoked[j])
    && (forall o | o in owners && owners[o].at.Announced? ::
      Holding(owners[o].at).value in announced && Holding(owners[o].at).value !in invoked)
    && (forall o, p | o in owners && p in owners && o != p && owners[o].at.Announced? ::
      Holding(owners[o].at) != Holding(owners[p].at))
  }

  /** An owner that does not take up a call, or takes up a call never announced before. */
  lemma OwnerKeepsOnce(announced: seq<Call>, added: seq<Call>, invoked: seq<Call>,
                       owners: map<nat, Owner>, o: nat, owner: Owner)
    requires Once(announced, invoked, owners)
    requires owner.at.Announced? ==>
      Holding(owner.at).value in added && Holding(owner.at).value !in announced
    ensures Once(announced + added, invoked, owners[o := owner])
  {
    var owners' := owners[o := owner];
    forall p | p in owners' && owners'[p].at.Announced?
      ensures Holding(owners'[p].at).value in announced + added
      ensures Holding(owners'[p].at).value !in invoked
    {
    }
  }

  lemma InvokeKeepsOnce(announced: seq<Call>, invoked: seq<Call>, owners: map<nat, Owner>, o: nat)
    requires Once(announced, invoked, owners) && o in owners && owners[o].at.Announced?
    ensures var at := owners[o].at;
            Once(announced, invoked + [CallOf(at.record, at.phase)],
                 owners[o := owners[o].(at := Handling(at.record, at.phase))])
  {
    assert Holding(owners[o].at).value == CallOf(owners[o].at.record, owners[o].at.phase);
  }

  /** A move's new announcement, if any, was never announced before. */
  lemma {:induction false} MoveAnnouncesAnew(def: Definition, maxAttempts: nat, ms: seq<Move>, m: Move)
    requires Legal(def, maxAttempts, ms) && Enabled(def, Told(def, maxAttempts, ms), m)
    ensures Legal(def, maxAttempts, ms + [m])
    ensures var s, s' := Told(def, maxAttempts, ms), Told(def, maxAttempts, ms + [m]);
            if m.Begin? then
              s'.calls == s.calls + [CallOf(s'.record, m.phase)] && CallOf(s'.record, m.phase) !in s.calls
            else s'.calls == s.calls
  {
    ToldAppend(def, maxAttempts, ms, m);
    EveryStoryKeeps(def, maxAttempts, ms + [m]);
    var s, s' := Told(def, maxAttempts, ms), Told(def, maxAttempts, ms + [m]);
    if m.Begin? {
      assert forall i | 0 <= i < |s.calls| :: s'.calls[i] == s.calls[i] && s'.calls[i] != s'.calls[|s.calls|];
    }
  }

  ghost predicate InvokedOnce(def: Definition, maxAttempts: nat, w: World) {
    && Legal(def, maxAttempts, w.moves)
    && Once(Told(def, maxAttempts, w.moves).calls, w.invoked, w.owners)
  }

  /** A step that saves or only moves one owner, which then holds at most the call it just announced. */
  lemma OwnerStepKeepsOnce(def: Definition, maxAttempts: nat, w: World, w': World, o: nat)
    requires InvokedOnce(def, maxAttempts, w) && o in w'.owners
    requires w'.invoked == w.invoked && w'.owners == w.owners[o := w'.owners[o]]
    requires w'.moves != w.moves ==> Grew(def, maxAttempts, w, w')
    requires w'.moves == w.moves ==> !w'.owners[o].at.Announced?
    requires var at := w'.owners[o].at;
             w'.moves != w.moves && at.Announced? ==>
               && w'.moves[|w.moves|] == Begin(at.phase)
               && w'.store.record == Some(at.record)
    ensures InvokedOnce(def, maxAttempts, w')
  {
    var calls := Told(def, maxAttempts, w.moves).calls;
    if w'.moves == w.moves {
      OwnerKeepsOnce(calls, [], w.invoked, w.owners, o, w'.owners[o]);
      assert calls + [] == calls;
    } else {
      var m := w'.moves[|w.moves|];
      ToldAppend(def, maxAttempts, w.moves, m);
      MoveAnnouncesAnew(def, maxAttempts, w.moves, m);
      var calls' := Told(def, maxAttempts, w'.moves).calls;
      OwnerKeepsOnce(calls, calls'[|calls|..], w.invoked, w.owners, o, w'.owners[o]);
      assert calls + calls'[|calls|..] == calls';
    }
  }

  lemma StepKeepsOnce(def: Definition, maxAttempts: nat, w: World, e: Event)
    requires Faithful(def, maxAttempts, w) && InvokedOnce(def, maxAttempts, w) && Fenced(w)
    ensures InvokedOnce(def, maxAttempts, Step(def, maxAttempts, w, e))
  {
    var w' := Step(def, maxAttempts, w, e);
    StepShape(def, maxAttempts, w, e);
    if w' == w || e.LeaseEnds? || w' == w.(leased := false) {
    } else if Invokes(w, w', e.owner) {
      InvokeKeepsOnce(Told(def, maxAttempts, w.moves).calls, w.invoked, w.owners, e.owner);
    } else {
      StepIsFaithful(def, maxAttempts, w, e);
      OwnerStepKeepsOnce(def, maxAttempts, w, w', e.owner);
    }
  }

  lemma {:induction false} RunKeepsOnce(def: Definition, maxAttempts: nat, es: seq<Event>)
    ensures InvokedOnce(def, maxAttempts, Run(def, maxAttempts, es))
  {
    if es != [] {
      var init := es[..|es| - 1];
      RunIsFaithful(def, maxAttempts, init);
      RunIsFenced(def, maxAttempts, init);
      RunKeepsOnce(def, maxAttempts, init);
      StepKeepsOnce(def, maxAttempts, Run(def, maxAttempts, init), es[|es| - 1]);
    }
  }

  /**
   In no run, whatever the owners, crashes and lost leases, do two handler invocations share step,
   phase and attempt.
   */
  lemma NoInvocationIsRepeated(def: Definition, maxAttempts: nat, es: seq<Event>, i: nat, j: nat)
    requires i < j < |Run(def, maxAttempts, es).invoked|
    ensures Run(def, maxAttempts, es).invoked[i] != Run(def, maxAttempts, es).invoked[j]
  {
    RunKeepsOnce(def, maxAttempts, es);
  }
}
