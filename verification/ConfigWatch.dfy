/**
 Publishing configuration (config/config.go): the watch loop merges the latest snapshot of every source,
 skips candidates whose combined revision is already published, and keeps the last good snapshot otherwise.
 */
module ConfigWatch {
  import opened Wrappers
  import opened ConfigMerge
  import Revisions
  import Text

  /** Whether the schema and the validators accept a snapshot at a given attempt. */
  type Verdict = (nat, Snapshot) -> bool

  datatype State = State(current: Option<Snapshot>, attempts: nat)

  datatype Outcome = Skipped | Refused | Published

  function OutcomeOf(accepts: Verdict, m: State, candidate: Snapshot): Outcome {
    if m.current.Some? && m.current.value.revision == candidate.revision then Skipped
    else if accepts(m.attempts, candidate) then Published
    else Refused
  }

  function Publish(accepts: Verdict, m: State, candidate: Snapshot): State {
    match OutcomeOf(accepts, m, candidate)
    case Skipped => m
    case Refused => State(m.current, m.attempts + 1)
    case Published => State(Some(candidate), m.attempts + 1)
  }

  /** The watch loop between two events: the last accepted snapshot of every source. */
  datatype Watch = Watch(manager: State, sources: seq<Snapshot>)

  /** A changed source, or a Load of all sources called by someone else during the watch. */
  datatype Event = Changed(index: nat, snapshot: Snapshot) | Load(loaded: seq<Snapshot>)

  /** The watch starts with one load; None if it is refused. */
  function Open(accepts: Verdict, m: State, loaded: seq<Snapshot>): Option<Watch> {
    var merged := MergeOf(loaded);
    if merged.None? || OutcomeOf(accepts, m, merged.value).Refused? then None
    else Some(Watch(Publish(accepts, m, merged.value), loaded))
  }

  function Step(accepts: Verdict, w: Watch, e: Event): Watch {
    match e
    case Changed(index, snapshot) =>
      if index >= |w.sources| then w
      else
        var candidate := w.sources[index := snapshot];
        var merged := MergeOf(candidate);
        if merged.None? then w
        else
          Watch(Publish(accepts, w.manager, merged.value),
                if OutcomeOf(accepts, w.manager, merged.value).Published? then candidate else w.sources)
    case Load(loaded) =>
      var merged := MergeOf(loaded);
      if |loaded| != |w.sources| || merged.None? then w
      else w.(manager := Publish(accepts, w.manager, merged.value))
  }

  function Run(accepts: Verdict, w: Watch, es: seq<Event>): Watch {
    if es == [] then w else Step(accepts, Run(accepts, w, es[..|es| - 1]), es[|es| - 1])
  }

  lemma RunNext(accepts: Verdict, w: Watch, es: seq<Event>, e: Event)
    ensures Run(accepts, w, es + [e]) == Step(accepts, Run(accepts, w, es), e)
  {
    assert (es + [e])[..|es|] == es;
  }

  ghost predicate NoLoads(es: seq<Event>) {
    forall i | 0 <= i < |es| :: es[i].Changed?
  }

  // ---------------------------------------------------------------------------
  // A matching revision means matching sources
  // ---------------------------------------------------------------------------

  /** A candidate is skipped only if every single source has the revision it was published with. */
  lemma SkipIsSound(published: seq<Snapshot>, candidate: seq<Snapshot>)
    requires |published| == |candidate| && MergeOf(published).Some? && MergeOf(candidate).Some?
    requires MergeOf(published).value.revision == MergeOf(candidate).value.revision
    ensures RevisionsOf(published) == RevisionsOf(candidate)
  {
    Revisions.CombinedIsInjective(RevisionsOf(published), RevisionsOf(candidate));
  }

  // ---------------------------------------------------------------------------
  // What is published is the merge of the accepted sources
  // ---------------------------------------------------------------------------

  /** The published snapshot was accepted at some attempt so far. */
  ghost predicate Validated(accepts: Verdict, m: State) {
    m.current.Some? ==> exists n | 0 <= n < m.attempts :: accepts(n, m.current.value)
  }

  /** What is published is the validated merge of the accepted sources themselves. */
  ghost predicate Faithful(accepts: Verdict, w: Watch) {
    w.manager.current.Some? && w.manager.current == MergeOf(w.sources) && Validated(accepts, w.manager)
  }

  lemma PublishKeepsValidated(accepts: Verdict, m: State, candidate: Snapshot)
    requires Validated(accepts, m)
    ensures Validated(accepts, Publish(accepts, m, candidate))
  {
    if OutcomeOf(accepts, m, candidate).Published? {
      assert accepts(m.attempts, candidate);
    } else if m.current.Some? {
      var n :| 0 <= n < m.attempts && accepts(n, m.current.value);
      assert n < Publish(accepts, m, candidate).attempts;
    }
  }

  lemma {:induction false} StaysFaithful(accepts: Verdict, w: Watch, es: seq<Event>)
    requires Faithful(accepts, w) && NoLoads(es)
    ensures Faithful(accepts, Run(accepts, w, es)) && |Run(accepts, w, es).sources| == |w.sources|
  {
    if es != [] {
      var init, e := es[..|es| - 1], es[|es| - 1];
      StaysFaithful(accepts, w, init);
      var before := Run(accepts, w, init);
      if e.index < |before.sources| && MergeOf(before.sources[e.index := e.snapshot]).Some? {
        PublishKeepsValidated(accepts, before.manager, MergeOf(before.sources[e.index := e.snapshot]).value);
      }
    }
  }

  /** Nothing was published before, or another revision, or exactly the merge that the watch loads. */
  predicate OpensAnew(m: State, merged: Snapshot) {
    m.current.None? || m.current.value.revision != merged.revision || m.current == Some(merged)
  }

  lemma OpeningIsFaithfulIff(accepts: Verdict, m: State, loaded: seq<Snapshot>)
    requires Validated(accepts, m) && Open(accepts, m, loaded).Some?
    ensures Faithful(accepts, Open(accepts, m, loaded).value) <==> OpensAnew(m, MergeOf(loaded).value)
  {
    PublishKeepsValidated(accepts, m, MergeOf(loaded).value);
  }

  /**
   Whatever was loaded before, the watch publishes only validated merges of its own sources, over every run
   without a concurrent Load, if and only if it does not begin by skipping other content under the same revision.
   */
  lemma {:induction false} WatchIsFaithfulIff(accepts: Verdict, m: State, loaded: seq<Snapshot>)
    requires Validated(accepts, m) && Open(accepts, m, loaded).Some?
    ensures (forall es | NoLoads(es) :: Faithful(accepts, Run(accepts, Open(accepts, m, loaded).value, es))) <==>
      OpensAnew(m, MergeOf(loaded).value)
  {
    var w := Open(accepts, m, loaded).value;
    OpeningIsFaithfulIff(accepts, m, loaded);
    if OpensAnew(m, MergeOf(loaded).value) {
      forall es | NoLoads(es) ensures Faithful(accepts, Run(accepts, w, es)) {
        StaysFaithful(accepts, w, es);
      }
    } else {
      assert NoLoads([]) && Run(accepts, w, []) == w;
    }
  }

  function OneField(revision: string, key: string, text: string): Snapshot {
    Snapshot(revision, Object(map[key := Scalar(text)]))
  }

  lemma MergeOfOneField(revision: string, key: string, text: string)
    requires Text.Trim(revision) != "" && key != ""
    ensures MergeOf([OneField(revision, key, text)]) == Some(OneField(revision, key, text))
  {
    var s := OneField(revision, key, text);
    var sources := [s];
    var values := s.values;
    assert Valid(Scalar(text), true) && Valid(Scalar(text), false);
    assert Valid(values, true) && Valid(values, false);
    assert Overlay(EMPTY, values) == values;
    assert ValuesOf(sources) == [values];
    assert [values][..0] == [];
    assert MergeAll([]) == EMPTY;
    assert MergeAll([values]) == Overlay(MergeAll([values][..0]), [values][0]);
    assert RevisionsOf(sources) == [revision];
  }

  /** Load, then watch a source that has changed its content but not its revision: the old content stays published. */
  lemma SameRevisionHidesContent(accepts: Verdict)
    requires accepts(0, OneField("r", "k", "1"))
    ensures var m := State(MergeOf([OneField("r", "k", "1")]), 1);
            var opening := Open(accepts, m, [OneField("r", "k", "2")]);
            && Validated(accepts, m) && opening.Some?
            && opening.value.manager.current == Some(OneField("r", "k", "1"))
            && !Faithful(accepts, opening.value)
  {
    assert Text.Trim("r") == "r";
    MergeOfOneField("r", "k", "1");
    MergeOfOneField("r", "k", "2");
    var m := State(MergeOf([OneField("r", "k", "1")]), 1);
    assert accepts(0, m.current.value);
    var one, two := OneField("r", "k", "1"), OneField("r", "k", "2");
    assert one.values.fields["k"] != two.values.fields["k"];
  }

  // ---------------------------------------------------------------------------
  // The same up to revisions, whatever was published before
  // ---------------------------------------------------------------------------

  /** What is published is the merge of sources with the revisions of the accepted ones. */
  ghost predicate MergedFrom(w: Watch, x: seq<Snapshot>) {
    MergeOf(x).Some? && w.manager.current == MergeOf(x) && RevisionsOf(x) == RevisionsOf(w.sources)
  }

  ghost predicate Tracks(w: Watch) {
    exists x :: MergedFrom(w, x)
  }

  lemma StepTracks(accepts: Verdict, w: Watch, e: Event)
    requires Tracks(w) && e.Changed?
    ensures Tracks(Step(accepts, w, e))
  {
    var w' := Step(accepts, w, e);
    if w'.sources == w.sources && w'.manager.current == w.manager.current {
      var x :| MergedFrom(w, x);
      assert MergedFrom(w', x);
    } else {
      assert MergedFrom(w', w'.sources);
    }
  }

  lemma {:induction false} RunTracks(accepts: Verdict, w: Watch, es: seq<Event>)
    requires Tracks(w) && NoLoads(es)
    ensures Tracks(Run(accepts, w, es))
  {
    if es != [] {
      RunTracks(accepts, w, es[..|es| - 1]);
      StepTracks(accepts, Run(accepts, w, es[..|es| - 1]), es[|es| - 1]);
    }
  }

  lemma StepKeepsValidated(accepts: Verdict, w: Watch, e: Event)
    requires Validated(accepts, w.manager)
    ensures Validated(accepts, Step(accepts, w, e).manager)
  {
    var candidate := if e.Load? then e.loaded
                     else if e.index < |w.sources| then w.sources[e.index := e.snapshot] else [];
    if MergeOf(candidate).Some? {
      PublishKeepsValidated(accepts, w.manager, MergeOf(candidate).value);
    }
  }

  lemma {:induction false} RunKeepsValidated(accepts: Verdict, w: Watch, es: seq<Event>)
    requires Validated(accepts, w.manager)
    ensures Validated(accepts, Run(accepts, w, es).manager)
  {
    if es != [] {
      RunKeepsValidated(accepts, w, es[..|es| - 1]);
      StepKeepsValidated(accepts, Run(accepts, w, es[..|es| - 1]), es[|es| - 1]);
    }
  }

  /** Whatever an earlier load of as many sources published, the watch stays on track with a validated snapshot. */
  lemma {:induction false} WatchTracks(
      accepts: Verdict, m: State, earlier: seq<Snapshot>, loaded: seq<Snapshot>, es: seq<Event>)
    requires Validated(accepts, m)
    requires m.current.Some? ==> m.current == MergeOf(earlier) && |earlier| == |loaded|
    requires Open(accepts, m, loaded).Some? && NoLoads(es)
    ensures var w := Run(accepts, Open(accepts, m, loaded).value, es);
            Tracks(w) && Validated(accepts, w.manager)
  {
    var w := Open(accepts, m, loaded).value;
    if OutcomeOf(accepts, m, MergeOf(loaded).value).Skipped? {
      SkipIsSound(earlier, loaded);
      assert MergedFrom(w, earlier);
    } else {
      assert MergedFrom(w, loaded);
    }
    RunTracks(accepts, w, es);
    PublishKeepsValidated(accepts, m, MergeOf(loaded).value);
    RunKeepsValidated(accepts, w, es);
  }

  /** A tracking watch has published the combined revision of its accepted sources. */
  lemma TrackedRevision(w: Watch)
    requires Tracks(w)
    ensures w.manager.current.Some? && w.manager.current.value.revision == Revisions.Combined(RevisionsOf(w.sources))
  {
    var x :| MergedFrom(w, x);
  }

  lemma OtherRevisions(a: seq<Snapshot>, b: seq<Snapshot>, index: nat)
    requires |a| == |b| && index < |a| && a[index].revision != b[index].revision
    ensures Revisions.Combined(RevisionsOf(a)) != Revisions.Combined(RevisionsOf(b))
  {
    assert RevisionsOf(a)[index] != RevisionsOf(b)[index];
    if Revisions.Combined(RevisionsOf(a)) == Revisions.Combined(RevisionsOf(b)) {
      Revisions.CombinedIsInjective(RevisionsOf(a), RevisionsOf(b));
      assert false;
    }
  }

  /** No update is lost: a source that really changed is published as soon as the merge is accepted. */
  lemma ChangesArePublished(accepts: Verdict, w: Watch, index: nat, snapshot: Snapshot)
    requires Tracks(w) && index < |w.sources| && snapshot.revision != w.sources[index].revision
    requires MergeOf(w.sources[index := snapshot]).Some?
    requires accepts(w.manager.attempts, MergeOf(w.sources[index := snapshot]).value)
    ensures var w' := Step(accepts, w, Changed(index, snapshot));
            w'.sources == w.sources[index := snapshot] && w'.manager.current == MergeOf(w'.sources)
  {
    TrackedRevision(w);
    OtherRevisions(w.sources, w.sources[index := snapshot], index);
  }

  // ---------------------------------------------------------------------------
  // A Load during the watch
  // ---------------------------------------------------------------------------

  /** The Load reads the revisions the watch has accepted, or sources that do not merge or are not accepted. */
  predicate Harmless(accepts: Verdict, w: Watch, loaded: seq<Snapshot>) {
    || |loaded| != |w.sources|
    || MergeOf(loaded).None?
    || RevisionsOf(loaded) == RevisionsOf(w.sources)
    || !accepts(w.manager.attempts, MergeOf(loaded).value)
  }

  /** A Load during the watch leaves it on track if and only if it is harmless. */
  lemma LoadKeepsTrackIff(accepts: Verdict, w: Watch, loaded: seq<Snapshot>)
    requires Tracks(w)
    ensures Tracks(Step(accepts, w, Load(loaded))) <==> Harmless(accepts, w, loaded)
  {
    var w' := Step(accepts, w, Load(loaded));
    TrackedRevision(w);
    if Harmless(accepts, w, loaded) {
      var x :| MergedFrom(w, x);
      assert MergedFrom(w', x);
    } else {
      if Revisions.Combined(RevisionsOf(loaded)) == Revisions.Combined(RevisionsOf(w.sources)) {
        Revisions.CombinedIsInjective(RevisionsOf(loaded), RevisionsOf(w.sources));
        assert false;
      }
      if Tracks(w') {
        TrackedRevision(w');
        assert false;
      }
    }
  }

  ghost predicate TracksAt(accepts: Verdict, w: Watch, es: seq<Event>, i: nat)
    requires i <= |es|
  {
    Tracks(Run(accepts, w, es[..i]))
  }

  ghost predicate AlwaysTracks(accepts: Verdict, w: Watch, es: seq<Event>) {
    forall i | 0 <= i <= |es| :: TracksAt(accepts, w, es, i)
  }

  lemma TracksAtPrefix(accepts: Verdict, w: Watch, es: seq<Event>, n: nat, i: nat)
    requires i <= n <= |es|
    ensures TracksAt(accepts, w, es[..n], i) <==> TracksAt(accepts, w, es, i)
  {
    assert es[..n][..i] == es[..i];
  }

  ghost predicate HarmlessAt(accepts: Verdict, w: Watch, es: seq<Event>, i: nat)
    requires i < |es|
  {
    es[i].Load? ==> Harmless(accepts, Run(accepts, w, es[..i]), es[i].loaded)
  }

  ghost predicate LoadsAreHarmless(accepts: Verdict, w: Watch, es: seq<Event>) {
    forall i | 0 <= i < |es| :: HarmlessAt(accepts, w, es, i)
  }

  lemma HarmlessAtPrefix(accepts: Verdict, w: Watch, es: seq<Event>, n: nat, i: nat)
    requires i < n <= |es|
    ensures HarmlessAt(accepts, w, es[..n], i) <==> HarmlessAt(accepts, w, es, i)
  {
    assert es[..n][..i] == es[..i];
  }

  lemma AlwaysTracksLast(accepts: Verdict, w: Watch, es: seq<Event>)
    requires es != []
    ensures AlwaysTracks(accepts, w, es) <==>
      AlwaysTracks(accepts, w, es[..|es| - 1]) && Tracks(Run(accepts, w, es))
  {
    var n := |es| - 1;
    forall i | 0 <= i <= n ensures TracksAt(accepts, w, es[..n], i) <==> TracksAt(accepts, w, es, i) {
      TracksAtPrefix(accepts, w, es, n, i);
    }
    assert es[..|es|] == es;
    assert TracksAt(accepts, w, es, |es|) <==> Tracks(Run(accepts, w, es));
  }

  lemma LoadsAreHarmlessLast(accepts: Verdict, w: Watch, es: seq<Event>)
    requires es != []
    ensures LoadsAreHarmless(accepts, w, es) <==>
      LoadsAreHarmless(accepts, w, es[..|es| - 1]) && HarmlessAt(accepts, w, es, |es| - 1)
  {
    var n := |es| - 1;
    forall i | 0 <= i < n ensures HarmlessAt(accepts, w, es[..n], i) <==> HarmlessAt(accepts, w, es, i) {
      HarmlessAtPrefix(accepts, w, es, n, i);
    }
  }

  /** Over every run, the watch is on track throughout if and only if every Load is harmless when it comes. */
  lemma {:induction false} AlwaysTracksIff(accepts: Verdict, w: Watch, es: seq<Event>)
    requires Tracks(w)
    ensures AlwaysTracks(accepts, w, es) <==> LoadsAreHarmless(accepts, w, es)
  {
    if es == [] {
      assert es[..0] == [] && TracksAt(accepts, w, es, 0);
    } else {
      var init, e := es[..|es| - 1], es[|es| - 1];
      AlwaysTracksIff(accepts, w, init);
      AlwaysTracksLast(accepts, w, es);
      LoadsAreHarmlessLast(accepts, w, es);
      if AlwaysTracks(accepts, w, init) {
        assert init[..|init|] == init;
        assert TracksAt(accepts, w, init, |init|);
        if e.Load? {
          LoadKeepsTrackIff(accepts, Run(accepts, w, init), e.loaded);
        } else {
          StepTracks(accepts, Run(accepts, w, init), e);
        }
      }
    }
  }

  /** The event is a change that is published. */
  predicate Publishes(accepts: Verdict, w: Watch, e: Event) {
    && e.Changed? && e.index < |w.sources|
    && MergeOf(w.sources[e.index := e.snapshot]).Some?
    && OutcomeOf(accepts, w.manager, MergeOf(w.sources[e.index := e.snapshot]).value).Published?
  }

  /** Events that publish no change leave the accepted sources alone, whatever a Load publishes. */
  lemma {:induction false} SourcesStay(accepts: Verdict, w: Watch, es: seq<Event>)
    requires forall i | 0 <= i < |es| :: !Publishes(accepts, Run(accepts, w, es[..i]), es[i])
    ensures Run(accepts, w, es).sources == w.sources
  {
    if es != [] {
      var init := es[..|es| - 1];
      assert forall i | 0 <= i < |init| :: init[..i] == es[..i] && init[i] == es[i];
      SourcesStay(accepts, w, init);
    }
  }

  /**
   The harm of any Load: whatever it published, the next change that is published is merged with the other
   sources as the watch had accepted them before.
   */
  lemma {:induction false} NextChangeForgetsLoad(
      accepts: Verdict, w: Watch, loaded: seq<Snapshot>, es: seq<Event>, j: nat, s: Snapshot)
    requires var w1 := Step(accepts, w, Load(loaded));
             && (forall i | 0 <= i < |es| :: !Publishes(accepts, Run(accepts, w1, es[..i]), es[i]))
             && Publishes(accepts, Run(accepts, w1, es), Changed(j, s))
    ensures var w1 := Step(accepts, w, Load(loaded));
            && j < |w.sources|
            && Step(accepts, Run(accepts, w1, es), Changed(j, s)).manager.current == MergeOf(w.sources[j := s])
  {
    SourcesStay(accepts, Step(accepts, w, Load(loaded)), es);
  }

  lemma ChangedLoadIsPublished(accepts: Verdict, w: Watch, k: nat, a: Snapshot)
    requires Tracks(w) && k < |w.sources| && a.revision != w.sources[k].revision
    requires MergeOf(w.sources[k := a]).Some? && accepts(w.manager.attempts, MergeOf(w.sources[k := a]).value)
    ensures var w' := Step(accepts, w, Load(w.sources[k := a]));
            && w' == Watch(State(MergeOf(w.sources[k := a]), w.manager.attempts + 1), w.sources)
            && Step(accepts, w', Changed(k, a)) == w'
  {
    TrackedRevision(w);
    OtherRevisions(w.sources, w.sources[k := a], k);
  }

  /**
   An old snapshot comes back, for any number of sources and any validators: a Load publishes a change of
   source k, the watch skips that change when it arrives, and the next accepted change of another source
   publishes source k as it was before.
   */
  lemma LoadBringsBackOldSource(accepts: Verdict, w: Watch, k: nat, a: Snapshot, j: nat, b: Snapshot)
    requires Tracks(w) && k < |w.sources| && j < |w.sources| && k != j && a.revision != w.sources[k].revision
    requires MergeOf(w.sources[k := a]).Some? && accepts(w.manager.attempts, MergeOf(w.sources[k := a]).value)
    requires MergeOf(w.sources[j := b]).Some? && accepts(w.manager.attempts + 1, MergeOf(w.sources[j := b]).value)
    ensures var loaded := Step(accepts, w, Load(w.sources[k := a]));
            var end := Step(accepts, loaded, Changed(j, b));
            && loaded.manager.current == MergeOf(w.sources[k := a])
            && Step(accepts, loaded, Changed(k, a)) == loaded
            && end.manager.current == MergeOf(end.sources) && end.sources[k] == w.sources[k]
  {
    ChangedLoadIsPublished(accepts, w, k, a);
    OtherRevisions(w.sources[j := b], w.sources[k := a], k);
  }

  // ---------------------------------------------------------------------------
  // The manager
  // ---------------------------------------------------------------------------

  /** The unknown-field check, where the policy asks for it, and every validator. */
  function AcceptsAll(known: Option<Snapshot -> bool>, validators: seq<Verdict>): Verdict {
    (n: nat, s: Snapshot) => (known.None? || known.value(s)) && forall i | 0 <= i < |validators| :: validators[i](n, s)
  }

  /** What the loop waits for: a change of one source, a failed watcher, or the end of the context. */
  datatype Signal = Change(event: Source) | WatcherFailed | ContextEnded

  type Source = e: Event | e.Changed? witness Changed(0, Snapshot("", EMPTY))

  /** How many changes come before anything else. */
  function Leading(signals: seq<Signal>): (n: nat)
    ensures n <= |signals| && forall i | 0 <= i < n :: signals[i].Change?
    ensures n < |signals| ==> !signals[n].Change?
  {
    if signals == [] || !signals[0].Change? then 0 else 1 + Leading(signals[1..])
  }

  function ChangesOf(signals: seq<Signal>, n: nat): seq<Event>
    requires n <= |signals| && forall i | 0 <= i < n :: signals[i].Change?
  {
    seq(n, i requires 0 <= i < n => signals[i].event)
  }

  lemma FollowsNext(accepts: Verdict, w: Watch, signals: seq<Signal>, i: nat)
    requires i < |signals| && forall j | 0 <= j <= i :: signals[j].Change?
    ensures Run(accepts, w, ChangesOf(signals, i + 1)) ==
            Step(accepts, Run(accepts, w, ChangesOf(signals, i)), signals[i].event)
  {
    RunNext(accepts, w, ChangesOf(signals, i), signals[i].event);
    assert ChangesOf(signals, i + 1) == ChangesOf(signals, i) + [signals[i].event];
  }

  class Manager {
    const known: Option<Snapshot -> bool>
    const validators: seq<Verdict>
    var current: Option<Snapshot>
    var attempts: nat
    var rejections: nat

    function View(): State
      reads this
    {
      State(current, attempts)
    }

    constructor (known: Option<Snapshot -> bool>, validators: seq<Verdict>)
      ensures this.known == known && this.validators == validators
      ensures View() == State(None, 0) && rejections == 0
    {
      this.known, this.validators := known, validators;
      current, attempts, rejections := None, 0, 0;
    }

    /** Publishes a new revision once every check has passed; anything else leaves the last good snapshot. */
    method TryPublish(candidate: Snapshot) returns (outcome: Outcome)
      modifies this
      ensures View() == Publish(AcceptsAll(known, validators), old(View()), candidate)
      ensures outcome == OutcomeOf(AcceptsAll(known, validators), old(View()), candidate)
      ensures rejections == old(rejections) + if outcome.Refused? then 1 else 0
    {
      if current.Some? && current.value.revision == candidate.revision {
        return Skipped;
      }
      var attempt := attempts;
      attempts := attempts + 1;
      if known.Some? && !known.value(candidate) {
        rejections := rejections + 1;
        return Refused;
      }
      for i := 0 to |validators|
        invariant current == old(current) && attempts == old(attempts) + 1 && rejections == old(rejections)
        invariant forall j | 0 <= j < i :: validators[j](attempt, candidate)
      {
        if !validators[i](attempt, candidate) {
          rejections := rejections + 1;
          return Refused;
        }
      }
      current := Some(candidate);
      return Published;
    }

    /** The watch loop over what its sources report, up to the first failed watcher or the end of the context. */
    method WatchSources(loaded: seq<Snapshot>, signals: seq<Signal>)
      returns (sources: Option<seq<Snapshot>>, stopped: Option<Signal>)
      modifies this
      ensures sources.None? <==> Open(AcceptsAll(known, validators), old(View()), loaded).None?
      ensures sources.Some? ==>
        var opening := Open(AcceptsAll(known, validators), old(View()), loaded).value;
        Watch(View(), sources.value) ==
          Run(AcceptsAll(known, validators), opening, ChangesOf(signals, Leading(signals)))
      ensures sources.Some? ==>
        stopped == if Leading(signals) < |signals| then Some(signals[Leading(signals)]) else None
    {
      var merged := Merge(loaded);
      if merged.None? {
        rejections := rejections + 1;
        return None, None;
      }
      var outcome := TryPublish(merged.value);
      if outcome.Refused? {
        return None, None;
      }
      var accepted;
      accepted, stopped := Follow(loaded, signals);
      sources := Some(accepted);
    }

    method Follow(first: seq<Snapshot>, signals: seq<Signal>)
      returns (sources: seq<Snapshot>, stopped: Option<Signal>)
      modifies this
      ensures Watch(View(), sources) ==
        Run(AcceptsAll(known, validators), Watch(old(View()), first), ChangesOf(signals, Leading(signals)))
      ensures stopped == if Leading(signals) < |signals| then Some(signals[Leading(signals)]) else None
    {
      ghost var accepts, start := AcceptsAll(known, validators), Watch(View(), first);
      ghost var reached := start;
      sources := first;
      var i := 0;
      while i < |signals| && signals[i].Change?
        invariant i <= |signals| && forall j | 0 <= j < i :: signals[j].Change?
        invariant reached == Watch(View(), sources) && reached == Run(accepts, start, ChangesOf(signals, i))
      {
        FollowsNext(accepts, start, signals, i);
        sources := Receive(signals[i].event, sources);
        reached, i := Watch(View(), sources), i + 1;
      }
      assert i == Leading(signals);
      stopped := if i < |signals| then Some(signals[i]) else None;
    }

    /** One change: the candidate sources replace the accepted ones only when their merge is published. */
    method Receive(change: Event, sources: seq<Snapshot>) returns (accepted: seq<Snapshot>)
      requires change.Changed?
      modifies this
      ensures Watch(View(), accepted) == Step(AcceptsAll(known, validators), Watch(old(View()), sources), change)
    {
      if change.index >= |sources| {
        return sources;
      }
      var candidate := sources[change.index := change.snapshot];
      var merged := Merge(candidate);
      if merged.None? {
        rejections := rejections + 1;
        return sources;
      }
      var outcome := TryPublish(merged.value);
      return if outcome.Published? then candidate else sources;
    }
  }
}
