/**
 The saga objects: the in-memory repository (saga/memory/repository.go), the in-process coordinator
 (coordination/memory/memory.go) and the engine's Run loop (saga/engine.go).
 */
module SagaEngine {
  import opened Wrappers
  import opened Saga
  import opened SagaOwners

  class Repository {
    var records: map<string, Record>
    var fences: map<string, nat>

    /** A missing map entry reads as the zero fence. */
    function At(id: string): Store
      reads this
    {
      Store(if id in records then Some(records[id]) else None, if id in fences then fences[id] else 0)
    }

    constructor ()
      ensures records == map[] && fences == map[]
    {
      records, fences := map[], map[];
    }

    method Create(id: string, record: Record, fence: nat) returns (result: SaveResult)
      modifies this
      ensures result == CreateOutcome(old(At(id)), record, fence)
      ensures result == Refused(AlreadyExists) ==> id in old(records)
      ensures result == Saved(record.(revision := 1)) <==>
        && fence > 0 && id !in old(records)
        && record.nextStep >= 0 && record.compensationIndex >= -1 && record.attempt >= 0
      ensures At(id) == Written(old(At(id)), result, fence)
      ensures forall other | other != id :: At(other) == old(At(other))
    {
      var stored := record.(revision := 1);
      if fence == 0 || !Valid(stored) {
        return Refused(InvalidOption);
      }
      if id in records {
        return Refused(AlreadyExists);
      }
      records, fences := records[id := stored], fences[id := fence];
      return Saved(stored);
    }

    method Save(id: string, record: Record, expected: nat, fence: nat) returns (result: SaveResult)
      modifies this
      ensures result == SaveOutcome(old(At(id)), record, expected, fence)
      ensures result == Saved(record.(revision := expected + 1)) <==>
        && expected > 0 && fence > 0
        && id in old(records) && (id in old(fences) ==> fence >= old(fences)[id])
        && old(records)[id].revision == expected
        && old(records)[id].definition == record.definition && old(records)[id].version == record.version
        && record.nextStep >= 0 && record.compensationIndex >= -1 && record.attempt >= 0
      ensures At(id) == Written(old(At(id)), result, fence)
      ensures forall other | other != id :: At(other) == old(At(other))
    {
      if expected == 0 || fence == 0 {
        return Refused(InvalidOption);
      }
      if id !in records {
        return Refused(NotFound);
      }
      if fence < At(id).fence {
        return Refused(StaleFence);
      }
      if records[id].revision != expected {
        return Refused(Conflict);
      }
      if records[id].definition != record.definition || records[id].version != record.version {
        return Refused(DefinitionMismatch);
      }
      var stored := record.(revision := expected + 1);
      if !Valid(stored) {
        return Refused(InvalidOption);
      }
      records, fences := records[id := stored], fences[id := fence];
      return Saved(stored);
    }
  }

  datatype Acquisition = BadRequest | Ended | Held | Granted(fence: nat)

  /** In-process leases: a key has at most one owner, and every grant carries a new, larger fence. */
  class Coordinator {
    const validKey: string -> bool
    var leases: map<string, nat>
    var fences: map<string, nat>
    var acquired: nat
    var rejected: nat
    var released: nat

    /** Live leases are the newest grants, and grants are released or live. */
    ghost predicate Consistent()
      reads this
    {
      && (forall key | key in leases :: key in fences && leases[key] == fences[key])
      && (forall key | key in fences :: fences[key] > 0)
      && acquired == released + |leases|
    }

    function LastFence(key: string): nat
      reads this
    {
      if key in fences then fences[key] else 0
    }

    constructor (validKey: string -> bool)
      ensures Consistent() && leases == map[] && fences == map[] && this.validKey == validKey
    {
      this.validKey := validKey;
      leases, fences, acquired, rejected, released := map[], map[], 0, 0, 0;
    }

    /** A malformed request or an ended context changes nothing; a held key only counts the rejection. */
    method TryAcquire(key: string, ttl: int, cancelled: bool) returns (result: Acquisition)
      requires Consistent()
      modifies this
      ensures Consistent()
      ensures result.BadRequest? <==> ttl <= 0 || !validKey(key)
      ensures result.Ended? <==> !(ttl <= 0 || !validKey(key)) && cancelled
      ensures result.Held? <==> !(ttl <= 0 || !validKey(key)) && !cancelled && key in old(leases)
      ensures !result.Granted? ==> leases == old(leases) && fences == old(fences)
      ensures rejected == old(rejected) + if result.Held? then 1 else 0
      ensures result.Granted? ==>
        && result.fence > old(LastFence(key)) && result.fence == LastFence(key) == old(LastFence(key)) + 1
        && leases == old(leases)[key := result.fence]
      ensures forall other | other != key :: LastFence(other) == old(LastFence(other))
    {
      if ttl <= 0 || !validKey(key) {
        return BadRequest;
      }
      if cancelled {
        return Ended;
      }
      if key in leases {
        rejected := rejected + 1;
        return Held;
      }
      var next := LastFence(key) + 1;
      fences := fences[key := next];
      leases := leases[key := next];
      acquired := acquired + 1;
      return Granted(next);
    }

    /** Releasing twice, or after the key was granted again, leaves the current owner alone. */
    method Release(key: string, fence: nat)
      requires Consistent()
      modifies this
      ensures Consistent() && fences == old(fences)
      ensures key in old(leases) && old(leases)[key] == fence ==> leases == old(leases) - {key}
      ensures !(key in old(leases) && old(leases)[key] == fence) ==> leases == old(leases)
    {
      if key in leases && leases[key] == fence {
        assert |leases - {key}| == |leases| - 1 by {
          assert (leases - {key}).Keys == leases.Keys - {key};
        }
        leases := leases - {key};
        released := released + 1;
      }
    }
  }

  /** What surrounds one Run: when its context is found cancelled, and what its handlers return. */
  datatype Env = Env(cancelled: nat -> bool, handler: nat -> HandlerResult)

  ghost predicate NeverCancelled(env: Env) {
    forall k :: !env.cancelled(k)
  }

  ghost predicate AllSucceed(env: Env) {
    forall k :: env.handler(k).Succeeded?
  }

  datatype Outcome =
    | Finished
    | ErrCompensated
    | ErrFailed
    | ErrContended
    | ErrCanceled
    | ErrLease
    | ErrRepository(error: SaveError)
    | ErrDefinitionMismatch
    | ErrInvalid
    | ErrCompensationRetry

  function LeaseKey(def: Definition, id: string): string {
    "saga/" + def.name + "/" + id
  }

  function StatusOf(outcome: Outcome): Status
    requires outcome.Finished? || outcome.ErrCompensated? || outcome.ErrFailed?
  {
    match outcome
    case Finished => Completed
    case ErrCompensated => Compensated
    case ErrFailed => Failed
  }

  /** Loop iterations left from a record, whatever the handlers do. */
  function Fuel(def: Definition, r: Record): int {
    match r.status
    case Running => 2 * |def.steps| + 3 - r.nextStep
    case Compensating => r.compensationIndex + 3
    case _ => 1
  }

  /** What the loop relies on: the record stands where its status says, and a call in hand is due. */
  ghost predicate Sound(def: Definition, s: Story) {
    Placed(def, s.record) && (s.inHand ==> AtTop(def, s.record).SaveThenInvoke?)
  }

  lemma PlayIsSound(def: Definition, maxAttempts: nat, s: Story, m: Move)
    requires Sound(def, s) && Enabled(def, s, m)
    ensures Sound(def, Play(def, maxAttempts, s, m))
  {
  }

  /** The only reasons a repository has to refuse the save of a current record. */
  function FenceError(fence: nat, st: Store): Option<SaveError> {
    if fence == 0 then Some(InvalidOption) else if fence < st.fence then Some(StaleFence) else None
  }

  function SaveFate(cancelled: bool, fence: nat, st: Store): Outcome {
    if cancelled then ErrCanceled
    else if FenceError(fence, st).Some? then ErrRepository(FenceError(fence, st).value)
    else Finished
  }

  /** How one iteration on a record that is not terminal ends; `lost` is a context that ends during the handler. */
  function TurnFate(
    def: Definition, maxAttempts: nat, r: Record, st: Store, fence: nat, cancelled: bool, lost: bool,
    result: HandlerResult): Outcome
    requires Acceptable(def, r)
  {
    var top, first := AtTop(def, r), SaveFate(cancelled, fence, st);
    if !first.Finished? || !top.SaveThenInvoke? then first
    else if lost then ErrCanceled
    else if !EndsRun(top.phase, result) then Finished
    else if r.attempt + 1 >= maxAttempts then ErrFailed
    else ErrCompensationRetry
  }

  /** The durable moves of that iteration. */
  function TurnMoves(
    def: Definition, r: Record, st: Store, fence: nat, cancelled: bool, lost: bool, result: HandlerResult): seq<Move>
    requires Acceptable(def, r)
  {
    match AtTop(def, r)
    case Return => []
    case SaveThenLoop(_) => if SaveFate(cancelled, fence, st).Finished? then [Advance] else []
    case SaveThenInvoke(_, phase) =>
      if !SaveFate(cancelled, fence, st).Finished? then []
      else if lost then [Begin(phase)]
      else [Begin(phase), Finish(phase, result)]
  }

  /** A failed compensation is the last move of an iteration or run, which it ends as failed or to be retried. */
  ghost predicate StopsOnFailure(ms: seq<Move>, outcome: Outcome) {
    && (forall i | 0 <= i < |ms| - 1 :: !FailsCompensation(ms[i]))
    && (ms != [] && FailsCompensation(ms[|ms| - 1]) ==> outcome.ErrFailed? || outcome.ErrCompensationRetry?)
    && (outcome.ErrCompensationRetry? ==> ms != [] && FailsCompensation(ms[|ms| - 1]))
  }

  lemma TurnStops(
      def: Definition, maxAttempts: nat, r: Record, st: Store, fence: nat, cancelled: bool, lost: bool,
      result: HandlerResult)
    requires Acceptable(def, r)
    ensures StopsOnFailure(TurnMoves(def, r, st, fence, cancelled, lost, result),
                           TurnFate(def, maxAttempts, r, st, fence, cancelled, lost, result))
  {
  }

  lemma StopsLater(ms: seq<Move>, more: seq<Move>, outcome: Outcome)
    requires StopsOnFailure(ms, Finished) && StopsOnFailure(more, outcome)
    ensures StopsOnFailure(ms + more, outcome)
  {
  }

  class Engine {
    const def: Definition
    const maxAttempts: nat
    const leaseTTL: int
    const validIdentity: string -> bool

    constructor (def: Definition, maxAttempts: nat, leaseTTL: int, validIdentity: string -> bool)
      ensures this.def == def && this.maxAttempts == maxAttempts
      ensures this.leaseTTL == leaseTTL && this.validIdentity == validIdentity
    {
      this.def, this.maxAttempts, this.leaseTTL, this.validIdentity := def, maxAttempts, leaseTTL, validIdentity;
    }

    /** One save of a changed copy of the durable record, told as the move `m` of the story `s`. */
    method Save(repository: Repository, id: string, record: Record, fence: nat, cancelled: bool,
                ghost s: Story, ghost m: Move)
      returns (outcome: Outcome, saved: Record)
      requires repository.At(id).record == Some(s.record) && Sound(def, s)
      requires Enabled(def, s, m) && WriteOf(def, maxAttempts, s, m) == record
      modifies repository
      ensures forall other | other != id :: repository.At(other) == old(repository.At(other))
      ensures outcome == SaveFate(cancelled, fence, old(repository.At(id)))
      ensures outcome.Finished? ==>
        && saved == Play(def, maxAttempts, s, m).record && Sound(def, Play(def, maxAttempts, s, m))
        && repository.At(id) == Store(Some(saved), fence)
      ensures !outcome.Finished? ==> repository.At(id) == old(repository.At(id))
    {
      if cancelled {
        return ErrCanceled, record;
      }
      PlayIsSound(def, maxAttempts, s, m);
      var result := repository.Save(id, record, record.revision, fence);
      match result
      case Saved(r) => return Finished, r;
      case Refused(error) => return ErrRepository(error), record;
    }

    /**
     After an iteration: the durable record is the one reached by the moves `ms` from the story `s`,
     and if the loop goes on, less is left to do.
     */
    ghost predicate Iterated(st: Store, s: Story, ms: seq<Move>, outcome: Outcome, saved: Record,
                             acted: nat, undid: nat)
    {
      && CanPlay(def, maxAttempts, s, ms)
      && var s' := PlayAll(def, maxAttempts, s, ms);
         && st.record == Some(s'.record) && Sound(def, s')
         && (outcome.Finished? ==> saved == s'.record && Fuel(def, saved) < Fuel(def, s.record))
         && (outcome.ErrFailed? ==> s'.record.status.Failed?)
         && (outcome.ErrCompensationRetry? ==> s'.record.status.Compensating?)
         && (outcome.Finished? || outcome.ErrFailed? ==>
           |s'.acted| == |s.acted| + acted && |s'.undone| == |s.undone| + undid)
    }

    /** A successful save leaves this owner's fence behind, so no later save of its is stale. */
    ghost predicate Fenced(before: Store, after: Store, fence: nat, ms: seq<Move>) {
      if ms == [] then after == before else fence > 0 && after.fence == fence
    }

    /** An iteration that calls no handler. */
    method SaveAndLoop(repository: Repository, id: string, record: Record, fence: nat, cancelled: bool, ghost s: Story)
      returns (outcome: Outcome, saved: Record, ghost ms: seq<Move>)
      requires repository.At(id).record == Some(s.record) && Sound(def, s)
      requires AtTop(def, s.record) == SaveThenLoop(record)
      modifies repository
      ensures Iterated(repository.At(id), s, ms, outcome, saved, 0, 0)
      ensures outcome == SaveFate(cancelled, fence, old(repository.At(id)))
      ensures ms == if outcome.Finished? then [Advance] else []
      ensures outcome.Finished? ==> saved == record.(revision := record.revision + 1)
      ensures Fenced(old(repository.At(id)), repository.At(id), fence, ms)
      ensures forall other | other != id :: repository.At(other) == old(repository.At(other))
    {
      outcome, saved := Save(repository, id, record, fence, cancelled, s, Advance);
      PlayOne(def, maxAttempts, s, Advance);
      ms := if outcome.Finished? then [Advance] else [];
    }

    /** One iteration of the loop in status Running. */
    method Forward(repository: Repository, id: string, record: Record, fence: nat, cancelled: bool, lost: bool,
                   result: HandlerResult, ghost s: Story)
      returns (outcome: Outcome, saved: Record, acted: nat, ghost ms: seq<Move>)
      requires repository.At(id).record == Some(s.record) && record == s.record && Sound(def, s)
      requires record.status.Running?
      modifies repository
      ensures Iterated(repository.At(id), s, ms, outcome, saved, acted, 0)
      ensures outcome == TurnFate(def, maxAttempts, record, old(repository.At(id)), fence, cancelled, lost, result)
      ensures ms == TurnMoves(def, record, old(repository.At(id)), fence, cancelled, lost, result)
      ensures Fenced(old(repository.At(id)), repository.At(id), fence, ms)
      ensures outcome.Finished? && result.Succeeded? ==> saved.status.Running? || saved.status.Completed?
      ensures outcome.Finished? && saved.status.Compensating? ==>
        result.Errored? && saved.causeReason == saved.failureReason == result.reason
      ensures forall other | other != id :: repository.At(other) == old(repository.At(other))
    {
      acted, ms := 0, [];
      saved := record;
      if saved.nextStep >= |def.steps| {
        saved := saved.(status := Completed, attempt := 0);
        outcome, saved, ms := SaveAndLoop(repository, id, saved, fence, cancelled, s);
        return;
      }
      saved := saved.(attempt := saved.attempt + 1);
      outcome, saved := Save(repository, id, saved, fence, cancelled, s, Begin(Action));
      if !outcome.Finished? {
        return;
      }
      ghost var s1 := Play(def, maxAttempts, s, Begin(Action));
      if result.Errored? {
        saved := saved.(status := Compensating, compensationIndex := saved.nextStep - 1, attempt := 0,
                        failureReason := result.reason, causeReason := result.reason);
      } else {
        acted := 1;
        saved := saved.(nextStep := saved.nextStep + 1, attempt := 0, failureReason := "");
      }
      outcome, saved := Save(repository, id, saved, fence, lost, s1, Finish(Action, result));
      PlayOne(def, maxAttempts, s, Begin(Action));
      PlayTwo(def, maxAttempts, s, Begin(Action), Finish(Action, result));
      ms := if outcome.Finished? then [Begin(Action), Finish(Action, result)] else [Begin(Action)];
    }

    /** One iteration of the loop in status Compensating. */
    method Backward(repository: Repository, id: string, record: Record, fence: nat, cancelled: bool, lost: bool,
                    result: HandlerResult, ghost s: Story)
      returns (outcome: Outcome, saved: Record, undid: nat, ghost ms: seq<Move>)
      requires repository.At(id).record == Some(s.record) && record == s.record && Sound(def, s)
      requires record.status.Compensating?
      modifies repository
      ensures Iterated(repository.At(id), s, ms, outcome, saved, 0, undid)
      ensures outcome == TurnFate(def, maxAttempts, record, old(repository.At(id)), fence, cancelled, lost, result)
      ensures ms == TurnMoves(def, record, old(repository.At(id)), fence, cancelled, lost, result)
      ensures Fenced(old(repository.At(id)), repository.At(id), fence, ms)
      ensures outcome.Finished? ==> saved.status.Compensating? || saved.status.Compensated?
      ensures forall other | other != id :: repository.At(other) == old(repository.At(other))
    {
      undid, ms := 0, [];
      saved := record;
      if saved.compensationIndex < 0 || !def.steps[saved.compensationIndex].compensates {
        if saved.compensationIndex < 0 {
          saved := saved.(status := Compensated, attempt := 0);
        } else {
          saved := saved.(compensationIndex := saved.compensationIndex - 1, attempt := 0);
        }
        outcome, saved, ms := SaveAndLoop(repository, id, saved, fence, cancelled, s);
        return;
      }
      saved := saved.(attempt := saved.attempt + 1);
      outcome, saved := Save(repository, id, saved, fence, cancelled, s, Begin(Compensation));
      if !outcome.Finished? {
        return;
      }
      ghost var s1 := Play(def, maxAttempts, s, Begin(Compensation));
      if result.Errored? {
        saved := saved.(failureReason := result.reason);
        if saved.attempt >= maxAttempts {
          saved := saved.(status := Failed);
        }
      } else {
        undid := 1;
        saved := saved.(compensationIndex := saved.compensationIndex - 1, attempt := 0,
                        failureReason := saved.causeReason);
      }
      outcome, saved := Save(repository, id, saved, fence, lost, s1, Finish(Compensation, result));
      PlayOne(def, maxAttempts, s, Begin(Compensation));
      PlayTwo(def, maxAttempts, s, Begin(Compensation), Finish(Compensation, result));
      ms := if outcome.Finished? then [Begin(Compensation), Finish(Compensation, result)] else [Begin(Compensation)];
      if outcome.Finished? && result.Errored? {
        outcome := if saved.status.Failed? then ErrFailed else ErrCompensationRetry;
      }
    }

    /** One iteration in either direction, with the cause of every way to end it. */
    method Iterate(repository: Repository, id: string, record: Record, fence: nat, cancelled: bool, lost: bool,
                   result: HandlerResult, ghost s: Story)
      returns (outcome: Outcome, saved: Record, acted: nat, undid: nat, ghost ms: seq<Move>)
      requires repository.At(id).record == Some(s.record) && record == s.record && Sound(def, s)
      requires record.status.Running? || record.status.Compensating?
      modifies repository
      ensures Iterated(repository.At(id), s, ms, outcome, saved, acted, undid) && StopsOnFailure(ms, outcome)
      ensures Fenced(old(repository.At(id)), repository.At(id), fence, ms)
      ensures forall other | other != id :: repository.At(other) == old(repository.At(other))
      ensures match outcome
              case Finished => result.Succeeded? ==> Onward(record.status, saved.status)
              case ErrCanceled => cancelled || lost
              case ErrRepository(error) => FenceError(fence, old(repository.At(id))) == Some(error)
              case ErrFailed => result.Errored?
              case ErrCompensationRetry => result.Errored?
              case _ => false
    {
      acted, undid := 0, 0;
      TurnStops(def, maxAttempts, record, repository.At(id), fence, cancelled, lost, result);
      if record.status.Running? {
        outcome, saved, acted, ms := Forward(repository, id, record, fence, cancelled, lost, result, s);
      } else {
        outcome, saved, undid, ms := Backward(repository, id, record, fence, cancelled, lost, result, s);
      }
    }

    /** The durable record of an instance is the one told by `ms`. */
    ghost predicate TellsOf(st: Store, ms: seq<Move>) {
      && Legal(def, maxAttempts, ms)
      && (st.record.Some? ==> st.record.value == Told(def, maxAttempts, ms).record)
      && (st.record.None? ==> ms == [])
    }

    /** A Run that reports a terminal status really reached it, and counted what it did. */
    ghost predicate Reports(outcome: Outcome, actions: nat, compensations: nat, before: seq<Move>, after: seq<Move>)
      requires Legal(def, maxAttempts, before) && Legal(def, maxAttempts, after)
    {
      outcome.Finished? || outcome.ErrCompensated? || outcome.ErrFailed? ==>
        var s0, s := Told(def, maxAttempts, before), Told(def, maxAttempts, after);
        && s.record.status == StatusOf(outcome)
        && |s.acted| == |s0.acted| + actions && |s.undone| == |s0.undone| + compensations
    }

    /** Every error has its cause: an ended context, a stale fence, or a handler that failed. */
    ghost predicate Explains(outcome: Outcome, env: Env, fence: nat, st: Store) {
      match outcome
      case ErrCanceled => !NeverCancelled(env)
      case ErrRepository(error) => FenceError(fence, st) == Some(error)
      case ErrCompensationRetry => !AllSucceed(env)
      case Finished => true
      case ErrCompensated => true
      case ErrFailed => true
      case _ => false
    }

    /** With handlers that succeed, a run goes on forward to the end, or backward to the end, or stays where it was. */
    ghost predicate GoesOn(from: Status, outcome: Outcome) {
      match from
      case Running => !outcome.ErrCompensated? && !outcome.ErrFailed?
      case Compensating => !outcome.Finished? && !outcome.ErrFailed?
      case Completed => !outcome.ErrCompensated? && !outcome.ErrFailed?
      case Compensated => !outcome.Finished? && !outcome.ErrFailed?
      case Failed => !outcome.Finished? && !outcome.ErrCompensated?
    }

    /** What a load finds or creates, for any durable record, and why it is refused. */
    function LoadFate(st: Store, fence: nat, cancelled: bool, lost: bool): Outcome {
      if cancelled then ErrCanceled
      else
        match st.record
        case None => if lost then ErrCanceled else if fence == 0 then ErrRepository(InvalidOption) else Finished
        case Some(r) =>
          if !Belongs(def, r) then ErrDefinitionMismatch
          else if !Valid(r) || !Acceptable(def, r) then ErrInvalid
          else Finished
    }

    /** Loads the instance, creating it when absent. */
    method LoadOrCreate(repository: Repository, id: string, fence: nat, cancelled: bool, lost: bool)
      returns (outcome: Outcome, record: Record)
      modifies repository
      ensures forall other | other != id :: repository.At(other) == old(repository.At(other))
      ensures outcome == LoadFate(old(repository.At(id)), fence, cancelled, lost)
      ensures cancelled ==> outcome == ErrCanceled
      ensures !cancelled && old(repository.At(id)).record.None? ==>
        outcome == if lost then ErrCanceled else if fence == 0 then ErrRepository(InvalidOption) else Finished
      ensures !cancelled && old(repository.At(id)).record.Some? ==>
        var r := old(repository.At(id)).record.value;
        && (outcome == ErrDefinitionMismatch <==> r.definition != def.name || r.version != def.version)
        && (outcome == ErrInvalid <==>
          && r.definition == def.name && r.version == def.version
          && (|| r.revision == 0 || r.nextStep < 0 || r.nextStep > |def.steps| || r.attempt < 0
              || r.compensationIndex < -1 || r.compensationIndex >= |def.steps|))
        && (outcome == ErrDefinitionMismatch || outcome == ErrInvalid || outcome == Finished)
      ensures outcome.Finished? ==>
        && (old(repository.At(id)).record.Some? ==> record == old(repository.At(id)).record.value)
        && (old(repository.At(id)).record.None? ==> record == InitialRecord(def))
        && repository.At(id).record == Some(record)
      ensures repository.At(id) ==
        if outcome.Finished? && old(repository.At(id)).record.None? then Store(Some(record), fence)
        else old(repository.At(id))
    {
      record := InitialRecord(def);
      if cancelled {
        return ErrCanceled, record;
      }
      if repository.At(id).record.None? {
        if lost {
          return ErrCanceled, record;
        }
        var created := repository.Create(id, record, fence);
        match created {
          case Saved(r) => record := r;
          case Refused(error) => return ErrRepository(error), record;
        }
      } else {
        record := repository.At(id).record.value;
      }
      if !Belongs(def, record) {
        return ErrDefinitionMismatch, record;
      }
      if !Valid(record) || !Acceptable(def, record) {
        return ErrInvalid, record;
      }
      return Finished, record;
    }

    /** The loop of Run, from the story `s0` told so far; `ms` are the moves it adds. */
    method Loop(repository: Repository, id: string, first: Record, fence: nat, env: Env, ghost s0: Story)
      returns (outcome: Outcome, actions: nat, compensations: nat, ghost ms: seq<Move>, ghost iterations: nat)
      requires repository.At(id).record == Some(first) && first == s0.record && Sound(def, s0)
      modifies repository
      ensures forall other | other != id :: repository.At(other) == old(repository.At(other))
      ensures CanPlay(def, maxAttempts, s0, ms)
      ensures repository.At(id).record == Some(PlayAll(def, maxAttempts, s0, ms).record)
      ensures iterations <= Fuel(def, first) && StopsOnFailure(ms, outcome)
      ensures Explains(outcome, env, fence, old(repository.At(id)))
      ensures AllSucceed(env) ==> GoesOn(first.status, outcome)
      ensures outcome.Finished? || outcome.ErrCompensated? || outcome.ErrFailed? ==>
        var s := PlayAll(def, maxAttempts, s0, ms);
        && s.record.status == StatusOf(outcome)
        && |s.acted| == |s0.acted| + actions && |s.undone| == |s0.undone| + compensations
    {
      actions, compensations, iterations, ms := 0, 0, 0, [];
      var tick, record := 4, first;
      ghost var s := s0;
      while true
        invariant forall other | other != id :: repository.At(other) == old(repository.At(other))
        invariant CanPlay(def, maxAttempts, s0, ms) && s == PlayAll(def, maxAttempts, s0, ms)
        invariant repository.At(id).record == Some(record) && record == s.record && Sound(def, s)
        invariant repository.At(id) == old(repository.At(id)) || FenceError(fence, repository.At(id)).None?
        invariant AllSucceed(env) ==> Onward(first.status, record.status)
        invariant iterations + Fuel(def, record) <= Fuel(def, first) && StopsOnFailure(ms, Finished)
        invariant |s.acted| == |s0.acted| + actions && |s.undone| == |s0.undone| + compensations
        decreases Fuel(def, record)
      {
        assert Fuel(def, record) > 0;
        iterations := iterations + 1;
        if env.cancelled(tick) {
          return ErrCanceled, actions, compensations, ms, iterations;
        }
        match record.status {
          case Completed => return Finished, actions, compensations, ms, iterations;
          case Compensated => return ErrCompensated, actions, compensations, ms, iterations;
          case Failed => return ErrFailed, actions, compensations, ms, iterations;
          case Running =>
          case Compensating =>
        }
        var acted, undid;
        ghost var more;
        outcome, record, acted, undid, more :=
          Iterate(repository, id, record, fence, env.cancelled(tick + 1), env.cancelled(tick + 2),
                  env.handler(tick), s);
        PlayAllOn(def, maxAttempts, s0, ms, more);
        StopsLater(ms, more, outcome);
        s, ms := PlayAll(def, maxAttempts, s, more), ms + more;
        tick := tick + 3;
        actions, compensations := actions + acted, compensations + undid;
        if !outcome.Finished? {
          return outcome, actions, compensations, ms, iterations;
        }
      }
    }

    /** How a run ends that nothing interrupts. */
    ghost predicate Arrives(from: Status, allSucceed: bool, outcome: Outcome) {
      && (outcome.Finished? || outcome.ErrCompensated? || outcome.ErrFailed? || outcome.ErrCompensationRetry?)
      && (allSucceed && from.Running? ==> outcome.Finished?)
      && (allSucceed && from.Compensating? ==> outcome.ErrCompensated?)
    }

    /** The part of Run under the lease. */
    method Drive(repository: Repository, id: string, fence: nat, env: Env, ghost before: seq<Move>)
      returns (outcome: Outcome, actions: nat, compensations: nat, ghost after: seq<Move>, ghost iterations: nat)
      requires TellsOf(repository.At(id), before) && fence > 0
      modifies repository
      ensures forall other | other != id :: repository.At(other) == old(repository.At(other))
      ensures before <= after && TellsOf(repository.At(id), after)
      ensures iterations <= 2 * |def.steps| + 3 && StopsOnFailure(after[|before|..], outcome)
      ensures Explains(outcome, env, fence, old(repository.At(id)))
      ensures AllSucceed(env) ==> GoesOn(Told(def, maxAttempts, before).record.status, outcome)
      ensures Reports(outcome, actions, compensations, before, after)
      ensures NeverCancelled(env) && FenceError(fence, old(repository.At(id))).None? ==>
        Arrives(Told(def, maxAttempts, before).record.status, AllSucceed(env), outcome)
    {
      actions, compensations, iterations, after := 0, 0, 0, before;
      EveryStoryKeeps(def, maxAttempts, before);
      var record;
      outcome, record := LoadOrCreate(repository, id, fence, env.cancelled(2), env.cancelled(3));
      if !outcome.Finished? {
        return;
      }
      ghost var ms;
      outcome, actions, compensations, ms, iterations :=
        Loop(repository, id, record, fence, env, Told(def, maxAttempts, before));
      PlayAllOn(def, maxAttempts, Opening(def), before, ms);
      after := before + ms;
      assert after[|before|..] == ms;
    }

    /** What keeps a Run from starting at all. */
    ghost predicate Starts(id: string, env: Env, validKey: string -> bool, leases: map<string, nat>) {
      && validIdentity(id) && !env.cancelled(0) && !env.cancelled(1)
      && leaseTTL > 0 && validKey(LeaseKey(def, id)) && LeaseKey(def, id) !in leases
    }

    /** The checks before a Run and its lease: the first reason to refuse it, or a lease under the next fence. */
    method Enter(coordinator: Coordinator, id: string, env: Env) returns (outcome: Outcome, fence: nat)
      requires coordinator.Consistent()
      modifies coordinator
      ensures coordinator.Consistent()
      ensures outcome.Finished? <==> Starts(id, env, coordinator.validKey, old(coordinator.leases))
      ensures outcome.Finished? ==>
        && fence == old(coordinator.LastFence(LeaseKey(def, id))) + 1
        && coordinator.leases == old(coordinator.leases)[LeaseKey(def, id) := fence]
      ensures !outcome.Finished? ==>
        && coordinator.leases == old(coordinator.leases)
        && outcome == if !validIdentity(id) then ErrInvalid
                      else if env.cancelled(0) then ErrCanceled
                      else if leaseTTL <= 0 || !coordinator.validKey(LeaseKey(def, id)) then ErrLease
                      else if env.cancelled(1) then ErrCanceled
                      else ErrContended
    {
      fence := 0;
      if !validIdentity(id) {
        return ErrInvalid, fence;
      }
      if env.cancelled(0) {
        return ErrCanceled, fence;
      }
      var lease := coordinator.TryAcquire(LeaseKey(def, id), leaseTTL, env.cancelled(1));
      match lease {
        case BadRequest => return ErrLease, fence;
        case Held => return ErrContended, fence;
        case Ended => return ErrCanceled, fence;
        case Granted(next) => return Finished, next;
      }
    }

    /**
     Creates or resumes one instance under a lease and drives it until it is terminal, interrupted
     or a compensation fails. It returns within 2 * steps + 3 iterations, and whatever it wrote is a
     legal continuation of the story told before. Every error has its cause; so, with a context that lasts
     and a repository whose fence the new lease has not fallen behind, a run that starts drives the saga
     to a terminal status or to a failed compensation, and to Completed if every handler succeeds.
     */
    method Run(repository: Repository, coordinator: Coordinator, id: string, env: Env, ghost before: seq<Move>)
      returns (outcome: Outcome, actions: nat, compensations: nat, ghost after: seq<Move>, ghost iterations: nat)
      requires coordinator.Consistent() && TellsOf(repository.At(id), before)
      modifies repository, coordinator
      ensures coordinator.Consistent()
      ensures forall other | other != id :: repository.At(other) == old(repository.At(other))
      ensures before <= after && TellsOf(repository.At(id), after)
      ensures iterations <= 2 * |def.steps| + 3 && StopsOnFailure(after[|before|..], outcome)
      ensures coordinator.leases == old(coordinator.leases)
      ensures Reports(outcome, actions, compensations, before, after)
      ensures !Starts(id, env, coordinator.validKey, old(coordinator.leases)) ==>
        && repository.At(id) == old(repository.At(id))
        && outcome == if !validIdentity(id) then ErrInvalid
                      else if env.cancelled(0) then ErrCanceled
                      else if leaseTTL <= 0 || !coordinator.validKey(LeaseKey(def, id)) then ErrLease
                      else if env.cancelled(1) then ErrCanceled
                      else ErrContended
      ensures Starts(id, env, coordinator.validKey, old(coordinator.leases)) ==>
        && Explains(outcome, env, old(coordinator.LastFence(LeaseKey(def, id))) + 1, old(repository.At(id)))
        && (AllSucceed(env) ==> GoesOn(Told(def, maxAttempts, before).record.status, outcome))
      ensures
        && Starts(id, env, coordinator.validKey, old(coordinator.leases)) && NeverCancelled(env)
        && old(repository.At(id)).fence <= old(coordinator.LastFence(LeaseKey(def, id))) + 1
        ==> Arrives(Told(def, maxAttempts, before).record.status, AllSucceed(env), outcome)
    {
      actions, compensations, iterations, after := 0, 0, 0, before;
      var fence;
      outcome, fence := Enter(coordinator, id, env);
      if !outcome.Finished? {
        assert after[|before|..] == [];
        return;
      }
      outcome, actions, compensations, after, iterations := Drive(repository, id, fence, env, before);
      coordinator.Release(LeaseKey(def, id), fence);
    }
  }

  /** Where a run that never meets a failing handler can go from a status. */
  predicate Onward(from: Status, to: Status) {
    match from
    case Running => to.Running? || to.Completed?
    case Compensating => to.Compensating? || to.Compensated?
    case _ => to == from
  }
}
