/**
 The saga engine (saga/engine.go, saga/saga.go): the durable record, what one owner writes at each
 point of its loop, and the single-owner machine those writes amount to.
 */
module Saga {

  datatype Status = Running | Compensating | Completed | Compensated | Failed

  datatype Phase = Action | Compensation

  /** One step of a definition; `compensates` says whether it has a compensation handler. */
  datatype Step = Step(name: string, compensates: bool)

  datatype Definition = Definition(name: string, version: string, steps: seq<Step>)

  /** A classified failure is never empty: unusable classifications become "internal". */
  type Reason = s: string | s != "" witness "internal"

  datatype Record = Record(
    status: Status, nextStep: int, compensationIndex: int, attempt: int,
    causeReason: string, failureReason: string, revision: nat,
    definition: string, version: string)

  function InitialRecord(def: Definition): Record {
    Record(Running, 0, -1, 0, "", "", 1, def.name, def.version)
  }

  /** The record was written under this definition. */
  predicate Belongs(def: Definition, r: Record) {
    r.definition == def.name && r.version == def.version
  }

  predicate Terminal(s: Status) {
    s.Completed? || s.Compensated? || s.Failed?
  }

  /** What loadOrCreate demands of a loaded record's position. */
  predicate Acceptable(def: Definition, r: Record) {
    && r.revision > 0 && 0 <= r.nextStep <= |def.steps|
    && -1 <= r.compensationIndex < |def.steps| && r.attempt >= 0
  }

  /** The part of Record.Validate that does not depend on a definition. */
  predicate Valid(r: Record) {
    r.revision > 0 && r.nextStep >= 0 && r.compensationIndex >= -1 && r.attempt >= 0
  }

  /** Where each status may stand; stronger than what Validate checks. */
  predicate Placed(def: Definition, r: Record) {
    && r.revision > 0 && r.attempt >= 0 && Belongs(def, r)
    && match r.status
       case Running => 0 <= r.nextStep <= |def.steps| && r.compensationIndex == -1 && r.causeReason == ""
       case Completed => r.nextStep == |def.steps| && r.compensationIndex == -1 && r.causeReason == ""
       case Compensating => -1 <= r.compensationIndex < r.nextStep < |def.steps| && r.causeReason != ""
       case Compensated => -1 == r.compensationIndex < r.nextStep < |def.steps| && r.causeReason != ""
       case Failed => 0 <= r.compensationIndex < r.nextStep < |def.steps| && r.causeReason != ""
  }

  // ---------------------------------------------------------------------------
  // What the engine loop writes
  // ---------------------------------------------------------------------------

  datatype HandlerResult = Succeeded | Errored(reason: Reason)

  /** The loop's next action at the top: return, or save a record and then loop or call a handler. */
  datatype Directive = Return | SaveThenLoop(record: Record) | SaveThenInvoke(record: Record, phase: Phase)

  function AtTop(def: Definition, r: Record): Directive
    requires Acceptable(def, r)
  {
    match r.status
    case Completed => Return
    case Compensated => Return
    case Failed => Return
    case Running =>
      if r.nextStep >= |def.steps| then SaveThenLoop(r.(status := Completed, attempt := 0))
      else SaveThenInvoke(r.(attempt := r.attempt + 1), Action)
    case Compensating =>
      if r.compensationIndex < 0 then SaveThenLoop(r.(status := Compensated, attempt := 0))
      else if !def.steps[r.compensationIndex].compensates then
        SaveThenLoop(r.(compensationIndex := r.compensationIndex - 1, attempt := 0))
      else SaveThenInvoke(r.(attempt := r.attempt + 1), Compensation)
  }

  /** The record saved once a handler has returned. */
  function AfterHandler(maxAttempts: nat, r: Record, phase: Phase, result: HandlerResult): Record {
    match (phase, result)
    case (Action, Succeeded) => r.(nextStep := r.nextStep + 1, attempt := 0, failureReason := "")
    case (Action, Errored(why)) =>
      r.(status := Compensating, compensationIndex := r.nextStep - 1, attempt := 0,
         failureReason := why, causeReason := why)
    case (Compensation, Succeeded) =>
      r.(compensationIndex := r.compensationIndex - 1, attempt := 0, failureReason := r.causeReason)
    case (Compensation, Errored(why)) =>
      if r.attempt >= maxAttempts then r.(status := Failed, failureReason := why) else r.(failureReason := why)
  }

  /** A failed compensation ends this Run; every other handler outcome loops. */
  predicate EndsRun(phase: Phase, result: HandlerResult) {
    phase.Compensation? && result.Errored?
  }

  // ---------------------------------------------------------------------------
  // The single-owner machine
  // ---------------------------------------------------------------------------

  /** A handler call, as the handlers see it. */
  datatype Call = Call(step: int, phase: Phase, attempt: int)

  function CallOf(r: Record, phase: Phase): Call {
    Call(if phase.Action? then r.nextStep else r.compensationIndex, phase, r.attempt)
  }

  /** A durable write: announce a handler call, record its outcome, or move on without one. */
  datatype Move = Begin(phase: Phase) | Finish(phase: Phase, result: HandlerResult) | Advance

  /**
   What one undisturbed owner has done: the durable record, the call in hand (announced by the
   last write), every announced call, and the committed actions and compensations in commit order.
   */
  datatype Story = Story(
    record: Record, inHand: bool, calls: seq<Call>, acted: seq<int>, undone: seq<int>)

  predicate Enabled(def: Definition, s: Story, m: Move) {
    var r := s.record;
    && Acceptable(def, r)
    && match m
       case Begin(phase) => AtTop(def, r).SaveThenInvoke? && AtTop(def, r).phase == phase
       case Advance => AtTop(def, r).SaveThenLoop?
       case Finish(phase, _) => s.inHand && phase == (if r.status.Running? then Action else Compensation)
  }

  function WriteOf(def: Definition, maxAttempts: nat, s: Story, m: Move): Record
    requires Enabled(def, s, m)
  {
    match m
    case Begin(_) => AtTop(def, s.record).record
    case Advance => AtTop(def, s.record).record
    case Finish(phase, result) => AfterHandler(maxAttempts, s.record, phase, result)
  }

  function Play(def: Definition, maxAttempts: nat, s: Story, m: Move): Story
    requires Enabled(def, s, m)
  {
    var r := s.record;
    var r' := WriteOf(def, maxAttempts, s, m).(revision := r.revision + 1);
    Story(
      r', m.Begin?,
      if m.Begin? then s.calls + [CallOf(r', m.phase)] else s.calls,
      if m == Finish(Action, Succeeded) then s.acted + [r.nextStep] else s.acted,
      if m == Finish(Compensation, Succeeded) then s.undone + [r.compensationIndex] else s.undone)
  }

  function Opening(def: Definition): Story {
    Story(InitialRecord(def), false, [], [], [])
  }

  /** `ms` can be played from `s`, one move after the other. */
  ghost predicate CanPlay(def: Definition, maxAttempts: nat, s: Story, ms: seq<Move>)
    decreases |ms|
  {
    ms == [] || (Enabled(def, s, ms[0]) && CanPlay(def, maxAttempts, Play(def, maxAttempts, s, ms[0]), ms[1..]))
  }

  ghost function PlayAll(def: Definition, maxAttempts: nat, s: Story, ms: seq<Move>): Story
    requires CanPlay(def, maxAttempts, s, ms)
    decreases |ms|
  {
    if ms == [] then s else PlayAll(def, maxAttempts, Play(def, maxAttempts, s, ms[0]), ms[1..])
  }

  /** `ms` is a possible list of writes after creation. */
  ghost predicate Legal(def: Definition, maxAttempts: nat, ms: seq<Move>) {
    CanPlay(def, maxAttempts, Opening(def), ms)
  }

  ghost function Told(def: Definition, maxAttempts: nat, ms: seq<Move>): Story
    requires Legal(def, maxAttempts, ms)
  {
    PlayAll(def, maxAttempts, Opening(def), ms)
  }

  lemma PlayOne(def: Definition, maxAttempts: nat, s: Story, m: Move)
    requires Enabled(def, s, m)
    ensures CanPlay(def, maxAttempts, s, [m])
    ensures PlayAll(def, maxAttempts, s, [m]) == Play(def, maxAttempts, s, m)
  {
    var s' := Play(def, maxAttempts, s, m);
    assert [m][1..] == [];
    assert CanPlay(def, maxAttempts, s', []) && PlayAll(def, maxAttempts, s', []) == s';
  }

  lemma PlayTwo(def: Definition, maxAttempts: nat, s: Story, m1: Move, m2: Move)
    requires Enabled(def, s, m1) && Enabled(def, Play(def, maxAttempts, s, m1), m2)
    ensures CanPlay(def, maxAttempts, s, [m1, m2])
    ensures PlayAll(def, maxAttempts, s, [m1, m2]) == Play(def, maxAttempts, Play(def, maxAttempts, s, m1), m2)
  {
    PlayOne(def, maxAttempts, Play(def, maxAttempts, s, m1), m2);
    assert [m1, m2][1..] == [m2];
  }

  lemma {:induction false} PlayAllOn(def: Definition, maxAttempts: nat, s: Story, ms: seq<Move>, more: seq<Move>)
    requires CanPlay(def, maxAttempts, s, ms)
    requires CanPlay(def, maxAttempts, PlayAll(def, maxAttempts, s, ms), more)
    ensures CanPlay(def, maxAttempts, s, ms + more)
    ensures PlayAll(def, maxAttempts, s, ms + more)
         == PlayAll(def, maxAttempts, PlayAll(def, maxAttempts, s, ms), more)
    decreases |ms|
  {
    if ms == [] {
      assert ms + more == more;
    } else {
      PlayAllOn(def, maxAttempts, Play(def, maxAttempts, s, ms[0]), ms[1..], more);
      assert (ms + more)[0] == ms[0] && (ms + more)[1..] == ms[1..] + more;
    }
  }

  lemma {:induction false} PlaySplits(def: Definition, maxAttempts: nat, s: Story, ms: seq<Move>, i: nat)
    requires CanPlay(def, maxAttempts, s, ms) && i <= |ms|
    ensures CanPlay(def, maxAttempts, s, ms[..i])
    ensures CanPlay(def, maxAttempts, PlayAll(def, maxAttempts, s, ms[..i]), ms[i..])
    ensures PlayAll(def, maxAttempts, PlayAll(def, maxAttempts, s, ms[..i]), ms[i..])
         == PlayAll(def, maxAttempts, s, ms)
    decreases i
  {
    if i == 0 {
      assert ms[..i] == [] && ms[i..] == ms;
    } else {
      PlaySplits(def, maxAttempts, Play(def, maxAttempts, s, ms[0]), ms[1..], i - 1);
      assert ms[..i][1..] == ms[1..][..i - 1] && ms[i..] == ms[1..][i - 1..];
    }
  }

  lemma ToldAppend(def: Definition, maxAttempts: nat, ms: seq<Move>, m: Move)
    requires Legal(def, maxAttempts, ms) && Enabled(def, Told(def, maxAttempts, ms), m)
    ensures Legal(def, maxAttempts, ms + [m])
    ensures Told(def, maxAttempts, ms + [m]) == Play(def, maxAttempts, Told(def, maxAttempts, ms), m)
  {
    PlayOne(def, maxAttempts, Told(def, maxAttempts, ms), m);
    PlayAllOn(def, maxAttempts, Opening(def), ms, [m]);
  }

  // ---------------------------------------------------------------------------
  // What every story keeps
  // ---------------------------------------------------------------------------

  function Upto(n: int): (s: seq<int>)
    requires n >= 0
  {
    if n == 0 then [] else Upto(n - 1) + [n - 1]
  }

  /** The compensations owed for the first `n` actions once everything above `low` is undone. */
  function Undoing(def: Definition, n: int, low: int): (s: seq<int>)
    requires -1 <= low < n <= |def.steps|
    decreases n - low
  {
    if low == n - 1 then []
    else if def.steps[low + 1].compensates then Undoing(def, n, low + 1) + [low + 1]
    else Undoing(def, n, low + 1)
  }

  /** A call that the durable record has already moved past, or is at. */
  predicate Behind(c: Call, r: Record) {
    c.attempt > 0 &&
    if r.status.Running? || r.status.Completed? then
      c.phase.Action? && (c.step < r.nextStep || (c.step == r.nextStep && c.attempt <= r.attempt))
    else
      c.phase.Action? || c.step > r.compensationIndex
      || (c.step == r.compensationIndex && c.attempt <= r.attempt)
  }

  ghost predicate Keeps(def: Definition, s: Story) {
    && Placed(def, s.record)
    && (s.inHand ==> AtTop(def, s.record).SaveThenInvoke?)
    && (s.record.status.Running? && s.record.nextStep == |def.steps| ==> s.record.attempt == 0)
    && (s.record.status.Compensating? && s.record.compensationIndex == -1 ==> s.record.attempt == 0)
    && s.acted == Upto(s.record.nextStep)
    && (s.record.status.Running? || s.record.status.Completed? ==> s.undone == [])
    && (!(s.record.status.Running? || s.record.status.Completed?) ==>
      s.undone == Undoing(def, s.record.nextStep, s.record.compensationIndex))
    && (forall i | 0 <= i < |s.calls| :: Behind(s.calls[i], s.record))
    && (forall i, j | 0 <= i < j < |s.calls| :: s.calls[i] != s.calls[j])
  }

  lemma PlayKeeps(def: Definition, maxAttempts: nat, s: Story, m: Move)
    requires Keeps(def, s) && Enabled(def, s, m)
    ensures Keeps(def, Play(def, maxAttempts, s, m))
  {
    var s' := Play(def, maxAttempts, s, m);
    assert forall i | 0 <= i < |s.calls| :: Behind(s.calls[i], s'.record);
  }

  lemma {:induction false} PlayAllKeeps(def: Definition, maxAttempts: nat, s: Story, ms: seq<Move>)
    requires Keeps(def, s) && CanPlay(def, maxAttempts, s, ms)
    ensures Keeps(def, PlayAll(def, maxAttempts, s, ms))
    ensures PlayAll(def, maxAttempts, s, ms).record.revision == s.record.revision + |ms|
    decreases |ms|
  {
    if ms != [] {
      PlayKeeps(def, maxAttempts, s, ms[0]);
      PlayAllKeeps(def, maxAttempts, Play(def, maxAttempts, s, ms[0]), ms[1..]);
    }
  }

  /** Every reachable durable record is placed as its status demands, and its story is consistent. */
  lemma EveryStoryKeeps(def: Definition, maxAttempts: nat, ms: seq<Move>)
    requires Legal(def, maxAttempts, ms)
    ensures Keeps(def, Told(def, maxAttempts, ms))
    ensures Told(def, maxAttempts, ms).record.revision == |ms| + 1
  {
    PlayAllKeeps(def, maxAttempts, Opening(def), ms);
  }

  // ---------------------------------------------------------------------------
  // Compensation undoes exactly what was done
  // ---------------------------------------------------------------------------

  /** The committed actions that have a compensation, in commit order. */
  function Compensable(def: Definition, acted: seq<int>): seq<int>
    requires forall i | 0 <= i < |acted| :: 0 <= acted[i] < |def.steps|
  {
    if acted == [] then []
    else
      var init, last := acted[..|acted| - 1], acted[|acted| - 1];
      if def.steps[last].compensates then Compensable(def, init) + [last] else Compensable(def, init)
  }

  function Reversed(s: seq<int>): seq<int> {
    if s == [] then [] else [s[|s| - 1]] + Reversed(s[..|s| - 1])
  }

  lemma {:induction false} UptoContents(n: nat)
    ensures |Upto(n)| == n && forall i | 0 <= i < n :: Upto(n)[i] == i
  {
    if n > 0 {
      UptoContents(n - 1);
    }
  }

  /** Undoing from below equals undoing the topmost action first. */
  lemma {:induction false} UndoingFromTop(def: Definition, n: int, low: int)
    requires -1 <= low < n - 1 && n <= |def.steps|
    ensures Undoing(def, n, low)
         == (if def.steps[n - 1].compensates then [n - 1] else []) + Undoing(def, n - 1, low)
    decreases n - low
  {
    if low < n - 2 {
      UndoingFromTop(def, n, low + 1);
    }
  }

  lemma {:induction false} UndoingIsReverse(def: Definition, n: nat)
    requires n <= |def.steps|
    ensures |Upto(n)| == n && forall i | 0 <= i < n :: 0 <= Upto(n)[i] < |def.steps|
    ensures Undoing(def, n, -1) == Reversed(Compensable(def, Upto(n)))
  {
    UptoContents(n);
    if n > 0 {
      UptoContents(n - 1);
      UndoingIsReverse(def, n - 1);
      UndoingFromTop(def, n, -1);
      assert Upto(n)[..n - 1] == Upto(n - 1);
      var rest := Compensable(def, Upto(n - 1));
      assert (rest + [n - 1])[..|rest|] == rest;
    }
  }

  ghost predicate WithinSteps(def: Definition, acted: seq<int>) {
    forall i | 0 <= i < |acted| :: 0 <= acted[i] < |def.steps|
  }

  /**
   In every history that ends compensated, the committed compensations are the committed actions
   that have a compensator, each once, in reverse order, and the actions were the first ones in order.
   */
  lemma CompensatedUndoesAll(def: Definition, maxAttempts: nat, ms: seq<Move>)
    requires Legal(def, maxAttempts, ms) && Told(def, maxAttempts, ms).record.status.Compensated?
    ensures var s := Told(def, maxAttempts, ms);
            WithinSteps(def, s.acted) && s.acted == Upto(|s.acted|) &&
            s.undone == Reversed(Compensable(def, s.acted))
  {
    EveryStoryKeeps(def, maxAttempts, ms);
    var s := Told(def, maxAttempts, ms);
    UptoContents(s.record.nextStep);
    UndoingIsReverse(def, s.record.nextStep);
  }

  /** Completed is reached only after every action committed, in order, with nothing undone. */
  lemma CompletedDidAll(def: Definition, maxAttempts: nat, ms: seq<Move>)
    requires Legal(def, maxAttempts, ms) && Told(def, maxAttempts, ms).record.status.Completed?
    ensures Told(def, maxAttempts, ms).acted == Upto(|def.steps|)
    ensures Told(def, maxAttempts, ms).undone == []
  {
    EveryStoryKeeps(def, maxAttempts, ms);
  }

  /** Once an earlier record has left Running: no action commits any more and the cause is fixed. */
  ghost predicate Settled(s: Story, s': Story) {
    && (!s.record.status.Running? ==> !s'.record.status.Running? && s'.acted == s.acted)
    && (s.record.causeReason != "" ==> s'.record.causeReason == s.record.causeReason)
    && (Terminal(s.record.status) ==> s' == s)
  }

  lemma SettledStep(def: Definition, maxAttempts: nat, s0: Story, s: Story, m: Move)
    requires Keeps(def, s) && Settled(s0, s) && Enabled(def, s, m)
    ensures Settled(s0, Play(def, maxAttempts, s, m))
  {
  }

  lemma {:induction false} StaysSettled(def: Definition, maxAttempts: nat, s0: Story, s: Story, ms: seq<Move>)
    requires Keeps(def, s) && Settled(s0, s) && CanPlay(def, maxAttempts, s, ms)
    ensures Settled(s0, PlayAll(def, maxAttempts, s, ms))
    decreases |ms|
  {
    if ms != [] {
      PlayKeeps(def, maxAttempts, s, ms[0]);
      SettledStep(def, maxAttempts, s0, s, ms[0]);
      StaysSettled(def, maxAttempts, s0, Play(def, maxAttempts, s, ms[0]), ms[1..]);
    }
  }

  /** Compare any two moments of one history. */
  lemma NothingActsAfterFailure(def: Definition, maxAttempts: nat, ms: seq<Move>, i: nat)
    requires Legal(def, maxAttempts, ms) && i <= |ms|
    ensures Legal(def, maxAttempts, ms[..i])
    ensures Settled(Told(def, maxAttempts, ms[..i]), Told(def, maxAttempts, ms))
  {
    PlaySplits(def, maxAttempts, Opening(def), ms, i);
    var s := Told(def, maxAttempts, ms[..i]);
    EveryStoryKeeps(def, maxAttempts, ms[..i]);
    StaysSettled(def, maxAttempts, s, s, ms[i..]);
  }

  /** No handler is ever announced twice with the same step, phase and attempt. */
  lemma CallsAreUnique(def: Definition, maxAttempts: nat, ms: seq<Move>, i: nat, j: nat)
    requires Legal(def, maxAttempts, ms) && i < j < |Told(def, maxAttempts, ms).calls|
    ensures Told(def, maxAttempts, ms).calls[i] != Told(def, maxAttempts, ms).calls[j]
  {
    EveryStoryKeeps(def, maxAttempts, ms);
  }

  // ---------------------------------------------------------------------------
  // Reasons, attempts and giving up
  // ---------------------------------------------------------------------------

  lemma PlayAt(def: Definition, maxAttempts: nat, ms: seq<Move>, i: nat)
    requires Legal(def, maxAttempts, ms) && i < |ms|
    ensures Legal(def, maxAttempts, ms[..i]) && Legal(def, maxAttempts, ms[..i + 1])
    ensures Enabled(def, Told(def, maxAttempts, ms[..i]), ms[i])
    ensures Told(def, maxAttempts, ms[..i + 1]) == Play(def, maxAttempts, Told(def, maxAttempts, ms[..i]), ms[i])
  {
    PlaySplits(def, maxAttempts, Opening(def), ms, i);
    ToldAppend(def, maxAttempts, ms[..i], ms[i]);
    assert ms[..i] + [ms[i]] == ms[..i + 1];
  }

  predicate FailsAction(m: Move) {
    m.Finish? && m.phase.Action? && m.result.Errored?
  }

  /** The cause is empty until an action fails, and from then on it is that failure's reason. */
  lemma {:induction false} CauseIsTheFailedAction(def: Definition, maxAttempts: nat, ms: seq<Move>)
    requires Legal(def, maxAttempts, ms)
    ensures forall i | 0 <= i < |ms| && FailsAction(ms[i]) ::
      Told(def, maxAttempts, ms).record.causeReason == ms[i].result.reason
    ensures (forall i | 0 <= i < |ms| :: !FailsAction(ms[i])) ==> Told(def, maxAttempts, ms).record.causeReason == ""
    decreases |ms|
  {
    forall i | 0 <= i < |ms| && FailsAction(ms[i])
      ensures Told(def, maxAttempts, ms).record.causeReason == ms[i].result.reason
    {
      PlayAt(def, maxAttempts, ms, i);
      NothingActsAfterFailure(def, maxAttempts, ms, i + 1);
    }
    if ms != [] {
      var n := |ms| - 1;
      PlayAt(def, maxAttempts, ms, n);
      assert ms[..n + 1] == ms;
      CauseIsTheFailedAction(def, maxAttempts, ms[..n]);
    }
  }

  /** What a recorded handler outcome leaves as the failure reason, given the cause. */
  function ReasonLeft(m: Move, cause: string): string
    requires m.Finish?
  {
    match (m.phase, m.result)
    case (_, Errored(why)) => why
    case (Action, Succeeded) => ""
    case (Compensation, Succeeded) => cause
  }

  /** The failure reason is the one left by the last recorded handler outcome, and empty before the first. */
  lemma {:induction false} FailureIsTheLastOutcome(def: Definition, maxAttempts: nat, ms: seq<Move>, i: nat)
    requires Legal(def, maxAttempts, ms) && i <= |ms|
    requires (i < |ms| ==> ms[i].Finish?) && forall j | i < j < |ms| :: !ms[j].Finish?
    ensures var r := Told(def, maxAttempts, ms).record;
            i < |ms| ==> r.failureReason == ReasonLeft(ms[i], r.causeReason)
    ensures (forall j | 0 <= j < |ms| :: !ms[j].Finish?) ==> Told(def, maxAttempts, ms).record.failureReason == ""
    decreases |ms|
  {
    if ms != [] {
      var n := |ms| - 1;
      PlayAt(def, maxAttempts, ms, n);
      EveryStoryKeeps(def, maxAttempts, ms[..n]);
      assert ms[..n + 1] == ms;
      if i < n {
        FailureIsTheLastOutcome(def, maxAttempts, ms[..n], i);
      } else if !ms[n].Finish? {
        FailureIsTheLastOutcome(def, maxAttempts, ms[..n], n);
      }
    }
  }

  /** Attempts at one step and phase are numbered one after the other, from one. */
  ghost predicate Consecutive(calls: seq<Call>) {
    forall i | 0 <= i < |calls| && calls[i].attempt > 1 ::
      calls[i].(attempt := calls[i].attempt - 1) in calls[..i]
  }

  function PhaseOf(r: Record): Phase {
    if r.status.Running? || r.status.Completed? then Action else Compensation
  }

  /** The attempt on record was announced, and a fresh position has none. */
  ghost predicate Numbered(s: Story) {
    && Consecutive(s.calls)
    && (s.record.attempt > 0 ==> CallOf(s.record, PhaseOf(s.record)) in s.calls)
  }

  lemma ConsecutiveOneMore(calls: seq<Call>, c: Call)
    requires Consecutive(calls) && (c.attempt > 1 ==> c.(attempt := c.attempt - 1) in calls)
    ensures Consecutive(calls + [c])
  {
    var longer := calls + [c];
    forall i | 0 <= i < |longer| && longer[i].attempt > 1
      ensures longer[i].(attempt := longer[i].attempt - 1) in longer[..i]
    {
      assert longer[..i] == if i < |calls| then calls[..i] else calls;
    }
  }

  lemma PlayKeepsNumbers(def: Definition, maxAttempts: nat, s: Story, m: Move)
    requires Keeps(def, s) && Numbered(s) && Enabled(def, s, m)
    ensures Numbered(Play(def, maxAttempts, s, m))
  {
    var s' := Play(def, maxAttempts, s, m);
    if m.Begin? {
      ConsecutiveOneMore(s.calls, CallOf(s'.record, m.phase));
      assert CallOf(s'.record, m.phase) == s'.calls[|s.calls|];
    }
  }

  lemma {:induction false} EveryStoryNumbers(def: Definition, maxAttempts: nat, ms: seq<Move>)
    requires Legal(def, maxAttempts, ms)
    ensures Numbered(Told(def, maxAttempts, ms))
    decreases |ms|
  {
    if ms != [] {
      var n := |ms| - 1;
      PlayAt(def, maxAttempts, ms, n);
      EveryStoryKeeps(def, maxAttempts, ms[..n]);
      EveryStoryNumbers(def, maxAttempts, ms[..n]);
      PlayKeepsNumbers(def, maxAttempts, Told(def, maxAttempts, ms[..n]), ms[n]);
      assert ms[..n + 1] == ms;
    }
  }

  /** A compensation that failed; it ends the Run that made it. */
  predicate FailsCompensation(m: Move) {
    m.Finish? && m.phase.Compensation? && m.result.Errored?
  }

  /** The calls announced since a step was last finished or passed over. */
  function Tries(ms: seq<Move>): nat {
    if ms == [] then 0
    else
      var before, last := Tries(ms[..|ms| - 1]), ms[|ms| - 1];
      if last.Begin? then before + 1 else if FailsCompensation(last) then before else 0
  }

  /** The recorded attempt counts the tries at the step in hand, and nothing else. */
  lemma {:induction false} AttemptCountsTries(def: Definition, maxAttempts: nat, ms: seq<Move>)
    requires Legal(def, maxAttempts, ms)
    ensures Told(def, maxAttempts, ms).record.attempt == Tries(ms)
    decreases |ms|
  {
    if ms != [] {
      var n := |ms| - 1;
      PlayAt(def, maxAttempts, ms, n);
      AttemptCountsTries(def, maxAttempts, ms[..n]);
      EveryStoryKeeps(def, maxAttempts, ms[..n]);
      assert ms[..n + 1] == ms;
    }
  }

  /** A saga fails exactly when a compensation fails that has been tried at least MaxAttempts times. */
  lemma {:induction false} FailsExactlyWhenExhausted(def: Definition, maxAttempts: nat, ms: seq<Move>, m: Move)
    requires Legal(def, maxAttempts, ms) && Enabled(def, Told(def, maxAttempts, ms), m)
    ensures Play(def, maxAttempts, Told(def, maxAttempts, ms), m).record.status.Failed? <==>
      FailsCompensation(m) && Tries(ms) >= maxAttempts
  {
    EveryStoryKeeps(def, maxAttempts, ms);
    AttemptCountsTries(def, maxAttempts, ms);
  }
}
