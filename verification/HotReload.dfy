/**
 The hot-reload boundary of a typed component (config/typed.go): a new value is installed only if it differs
 from the active one in reloadable fields alone.
 */
module HotReload {
  import opened Wrappers
  import Sets

  /** A Go struct type; every other type is a leaf, compared as a whole. */
  datatype Schema = Leaf | Struct(fields: seq<Field>)

  datatype Field = Field(name: string, exported: bool, reload: bool, schema: Schema)

  datatype Data = Atom(text: string) | Record(values: seq<Data>)

  ghost predicate Conforms(s: Schema, d: Data)
    decreases s
  {
    match s
    case Leaf => d.Atom?
    case Struct(fields) =>
      && d.Record? && |d.values| == |fields|
      && forall i | 0 <= i < |fields| :: Conforms(fields[i].schema, d.values[i])
  }

  predicate Configured(f: Field) {
    f.exported && f.name != ""
  }

  function PathUnder(path: string, name: string): string {
    if path == "" then name else path + "." + name
  }

  predicate Covers(allowed: string, path: string) {
    path == allowed || allowed + "." <= path
  }

  predicate PathReloadable(path: string, reloadable: set<string>) {
    path != "" && exists allowed | allowed in reloadable :: Covers(allowed, path)
  }

  method IsPathReloadable(path: string, reloadable: set<string>) returns (covered: bool)
    ensures covered <==> PathReloadable(path, reloadable)
  {
    if path == "" {
      return false;
    }
    var rest := reloadable;
    while rest != {}
      invariant rest <= reloadable
      invariant forall allowed | allowed in reloadable && allowed !in rest :: !Covers(allowed, path)
      decreases |rest|
    {
      var allowed := Sets.Choose(rest);
      rest := rest - {allowed};
      if path == allowed || allowed + "." <= path {
        assert Covers(allowed, path);
        return true;
      }
    }
    return false;
  }

  /** The segments of a path that begins with `c` and goes on as `rest`. */
  function Prepend(c: char, rest: seq<string>): (r: seq<string>)
    requires |rest| > 0
    ensures |r| > 0
  {
    if c == '.' then [""] + rest else [[c] + rest[0]] + rest[1..]
  }

  /** The parts of a path between its dots. */
  function Segments(path: string): (r: seq<string>)
    ensures |r| > 0
  {
    if path == "" then [""] else Prepend(path[0], Segments(path[1..]))
  }

  function Joined(parts: seq<string>): string
    requires |parts| > 0
  {
    if |parts| == 1 then parts[0] else parts[0] + "." + Joined(parts[1..])
  }

  lemma PrependConcat(c: char, a: seq<string>, b: seq<string>)
    requires |a| > 0
    ensures Prepend(c, a + b) == Prepend(c, a) + b
  {
  }

  lemma {:induction false} SegmentsConcat(a: string, b: string)
    ensures Segments(a + "." + b) == Segments(a) + Segments(b)
    decreases |a|
  {
    if a == "" {
      assert (a + "." + b)[1..] == b;
    } else {
      SegmentsConcat(a[1..], b);
      PrependConcat(a[0], Segments(a[1..]), Segments(b));
      assert (a + "." + b)[1..] == a[1..] + "." + b;
    }
  }

  lemma {:induction false} JoinedConcat(a: seq<string>, b: seq<string>)
    requires |a| > 0 && |b| > 0
    ensures Joined(a + b) == Joined(a) + "." + Joined(b)
    decreases |a|
  {
    if |a| == 1 {
      assert (a + b)[1..] == b;
    } else {
      JoinedConcat(a[1..], b);
      assert (a + b)[1..] == a[1..] + b;
    }
  }

  lemma {:induction false} JoinedPrepend(c: char, rest: seq<string>)
    requires |rest| > 0
    ensures Joined(Prepend(c, rest)) == [c] + Joined(rest)
  {
    var r := Prepend(c, rest);
    if c == '.' {
      assert r[1..] == rest;
    } else if |rest| > 1 {
      assert r[1..] == rest[1..];
      assert [c] + rest[0] + "." + Joined(rest[1..]) == [c] + (rest[0] + "." + Joined(rest[1..]));
    }
  }

  /** Splitting loses nothing. */
  lemma {:induction false} JoinedSegments(path: string)
    ensures Joined(Segments(path)) == path
  {
    if path != "" {
      JoinedSegments(path[1..]);
      JoinedPrepend(path[0], Segments(path[1..]));
    }
  }

  /** A reloadable path covers exactly itself and what lies below it, segment by segment. */
  lemma CoversIsBySegments(allowed: string, path: string)
    ensures Covers(allowed, path) <==> Segments(allowed) <= Segments(path)
  {
    var a, b := Segments(allowed), Segments(path);
    JoinedSegments(allowed);
    JoinedSegments(path);
    if allowed + "." <= path {
      SegmentsConcat(allowed, path[|allowed| + 1..]);
      assert path == allowed + "." + path[|allowed| + 1..];
    }
    if a <= b && a != b {
      JoinedConcat(a, b[|a|..]);
      assert b == a + b[|a|..];
    }
  }

  // ---------------------------------------------------------------------------
  // The fields whose change needs a restart
  // ---------------------------------------------------------------------------

  function Changes(s: Schema, a: Data, b: Data, path: string, reloadable: set<string>): seq<string>
    requires Conforms(s, a) && Conforms(s, b)
    decreases s
  {
    if a == b then []
    else if s.Leaf? then (if PathReloadable(path, reloadable) then [] else [path])
    else ChangesUpTo(s, a, b, path, reloadable, |s.fields|)
  }

  function FieldChanges(s: Schema, a: Data, b: Data, path: string, reloadable: set<string>, i: nat): seq<string>
    requires Conforms(s, a) && Conforms(s, b) && s.Struct? && i < |s.fields|
    decreases s, 0
  {
    var f := s.fields[i];
    if !Configured(f) || f.reload || PathReloadable(PathUnder(path, f.name), reloadable) then []
    else Changes(f.schema, a.values[i], b.values[i], PathUnder(path, f.name), reloadable)
  }

  function ChangesUpTo(s: Schema, a: Data, b: Data, path: string, reloadable: set<string>, n: nat): seq<string>
    requires Conforms(s, a) && Conforms(s, b) && s.Struct? && n <= |s.fields|
    decreases s, 1, n
  {
    if n == 0 then []
    else ChangesUpTo(s, a, b, path, reloadable, n - 1) + FieldChanges(s, a, b, path, reloadable, n - 1)
  }

  /** Appends the changes to a list that the caller passes along. */
  method CollectRestartChanges(
      s: Schema, a: Data, b: Data, path: string, reloadable: set<string>, changed: seq<string>)
    returns (all: seq<string>)
    requires Conforms(s, a) && Conforms(s, b)
    ensures all == changed + Changes(s, a, b, path, reloadable)
    decreases s
  {
    all := changed;
    if a == b {
      return;
    }
    if s.Leaf? {
      var covered := IsPathReloadable(path, reloadable);
      if !covered {
        all := all + [path];
      }
      return;
    }
    for i := 0 to |s.fields|
      invariant all == changed + ChangesUpTo(s, a, b, path, reloadable, i)
    {
      var f := s.fields[i];
      var covered := IsPathReloadable(PathUnder(path, f.name), reloadable);
      if Configured(f) && !f.reload && !covered {
        all := CollectRestartChanges(f.schema, a.values[i], b.values[i], PathUnder(path, f.name), reloadable, all);
      }
    }
  }

  // ---------------------------------------------------------------------------
  // What they mean
  // ---------------------------------------------------------------------------

  /** The way to a leaf, by field positions, through configured fields without a reload tag. */
  predicate Route(s: Schema, r: seq<nat>)
    decreases |r|
  {
    if r == [] then s.Leaf?
    else
      && s.Struct? && r[0] < |s.fields|
      && Configured(s.fields[r[0]]) && !s.fields[r[0]].reload
      && Route(s.fields[r[0]].schema, r[1..])
  }

  function PathOf(s: Schema, r: seq<nat>, path: string): string
    requires Route(s, r)
    decreases |r|
  {
    if r == [] then path else PathOf(s.fields[r[0]].schema, r[1..], PathUnder(path, s.fields[r[0]].name))
  }

  function LeafAt(s: Schema, d: Data, r: seq<nat>): Data
    requires Conforms(s, d) && Route(s, r)
    decreases |r|
  {
    if r == [] then d else LeafAt(s.fields[r[0]].schema, d.values[r[0]], r[1..])
  }

  /** The names along a route, in segments. */
  function Named(s: Schema, r: seq<nat>): seq<string>
    requires Route(s, r)
    decreases |r|
  {
    if r == [] then [] else Segments(s.fields[r[0]].name) + Named(s.fields[r[0]].schema, r[1..])
  }

  /** The path of a leaf lists the names on its way, with dots between them. */
  lemma {:induction false} PathListsNames(s: Schema, r: seq<nat>, path: string)
    requires Route(s, r)
    ensures path != "" ==> Segments(PathOf(s, r, path)) == Segments(path) + Named(s, r)
    ensures path == "" && r != [] ==> Segments(PathOf(s, r, path)) == Named(s, r)
    decreases |r|
  {
    if r != [] {
      var name := s.fields[r[0]].name;
      PathListsNames(s.fields[r[0]].schema, r[1..], PathUnder(path, name));
      SegmentsConcat(path, name);
    }
  }

  /** A leaf fixed until a restart: neither a tag on its way nor a reloadable path covers it. */
  predicate Fixed(s: Schema, r: seq<nat>, path: string, reloadable: set<string>) {
    Route(s, r) && !PathReloadable(PathOf(s, r, path), reloadable)
  }

  lemma CoversBelow(allowed: string, path: string, name: string)
    requires path != "" && Covers(allowed, path)
    ensures Covers(allowed, PathUnder(path, name))
  {
    if path == allowed {
      assert PathUnder(path, name)[..|allowed| + 1] == allowed + ".";
    } else {
      assert PathUnder(path, name)[..|allowed| + 1] == path[..|allowed| + 1];
    }
  }

  /** A reloadable path makes its complete subtree reloadable. */
  lemma {:induction false} ReloadableBelow(s: Schema, r: seq<nat>, path: string, reloadable: set<string>)
    requires Route(s, r) && PathReloadable(path, reloadable)
    ensures PathReloadable(PathOf(s, r, path), reloadable)
    decreases |r|
  {
    if r != [] {
      var name := s.fields[r[0]].name;
      var allowed :| allowed in reloadable && Covers(allowed, path);
      CoversBelow(allowed, path, name);
      assert PathUnder(path, name) != "";
      ReloadableBelow(s.fields[r[0]].schema, r[1..], PathUnder(path, name), reloadable);
    }
  }

  lemma {:induction false} InChangesUpTo(
      s: Schema, a: Data, b: Data, path: string, reloadable: set<string>, n: nat, i: nat, p: string)
    requires Conforms(s, a) && Conforms(s, b) && s.Struct? && i < n <= |s.fields|
    requires p in FieldChanges(s, a, b, path, reloadable, i)
    ensures p in ChangesUpTo(s, a, b, path, reloadable, n)
  {
    if i < n - 1 {
      InChangesUpTo(s, a, b, path, reloadable, n - 1, i, p);
    }
  }

  lemma {:induction false} FromChangesUpTo(
      s: Schema, a: Data, b: Data, path: string, reloadable: set<string>, n: nat, p: string) returns (i: nat)
    requires Conforms(s, a) && Conforms(s, b) && s.Struct? && n <= |s.fields|
    requires p in ChangesUpTo(s, a, b, path, reloadable, n)
    ensures i < n && p in FieldChanges(s, a, b, path, reloadable, i)
  {
    if p in FieldChanges(s, a, b, path, reloadable, n - 1) {
      return n - 1;
    }
    i := FromChangesUpTo(s, a, b, path, reloadable, n - 1, p);
  }

  /** Every fixed leaf that differs is reported. */
  lemma {:induction false} FixedLeavesAreReported(
      s: Schema, a: Data, b: Data, path: string, reloadable: set<string>, r: seq<nat>)
    requires Conforms(s, a) && Conforms(s, b)
    requires Fixed(s, r, path, reloadable) && LeafAt(s, a, r) != LeafAt(s, b, r)
    ensures PathOf(s, r, path) in Changes(s, a, b, path, reloadable)
    decreases |r|
  {
    if r != [] {
      var f := s.fields[r[0]];
      var under := PathUnder(path, f.name);
      if PathReloadable(under, reloadable) {
        ReloadableBelow(f.schema, r[1..], under, reloadable);
        assert false;
      }
      FixedLeavesAreReported(f.schema, a.values[r[0]], b.values[r[0]], under, reloadable, r[1..]);
      InChangesUpTo(s, a, b, path, reloadable, |s.fields|, r[0], PathOf(s, r, path));
    }
  }

  /** Whatever is reported is a fixed leaf that differs. */
  lemma {:induction false} ReportsAreFixedLeaves(
      s: Schema, a: Data, b: Data, path: string, reloadable: set<string>, p: string) returns (r: seq<nat>)
    requires Conforms(s, a) && Conforms(s, b) && p in Changes(s, a, b, path, reloadable)
    ensures Fixed(s, r, path, reloadable) && PathOf(s, r, path) == p && LeafAt(s, a, r) != LeafAt(s, b, r)
    decreases s
  {
    if s.Leaf? {
      return [];
    }
    var i := FromChangesUpTo(s, a, b, path, reloadable, |s.fields|, p);
    var f := s.fields[i];
    var rest := ReportsAreFixedLeaves(f.schema, a.values[i], b.values[i], PathUnder(path, f.name), reloadable, p);
    r := [i] + rest;
    assert r[1..] == rest;
  }

  /** Every fixed leaf has the same value in both. */
  ghost predicate Agree(s: Schema, a: Data, b: Data, reloadable: set<string>)
    requires Conforms(s, a) && Conforms(s, b)
  {
    forall r | Fixed(s, r, "", reloadable) :: LeafAt(s, a, r) == LeafAt(s, b, r)
  }

  /** No restart is needed if and only if every fixed leaf keeps its value. */
  lemma NoChangesIffAgree(s: Schema, a: Data, b: Data, reloadable: set<string>)
    requires Conforms(s, a) && Conforms(s, b)
    ensures Changes(s, a, b, "", reloadable) == [] <==> Agree(s, a, b, reloadable)
  {
    var changes := Changes(s, a, b, "", reloadable);
    if changes != [] {
      var r := ReportsAreFixedLeaves(s, a, b, "", reloadable, changes[0]);
    } else {
      forall r | Fixed(s, r, "", reloadable) ensures LeafAt(s, a, r) == LeafAt(s, b, r) {
        if LeafAt(s, a, r) != LeafAt(s, b, r) {
          FixedLeavesAreReported(s, a, b, "", reloadable, r);
          assert false;
        }
      }
    }
  }

  // ---------------------------------------------------------------------------
  // The component over any sequence of calls
  // ---------------------------------------------------------------------------

  datatype Version = Version(revision: string, value: Data)

  datatype State = State(
    current: Option<Version>,
    validated: Option<Version>,
    pendingRevision: string,
    restartFields: seq<string>)

  /** `decoded` is what decoding and validating the snapshot yields; `applied` the answer of the apply callback. */
  datatype Call =
    | Validate(revision: string, decoded: Option<Data>)
    | Apply(cancelled: bool, revision: string, decoded: Option<Data>, applied: bool)

  datatype Verdict = Cancelled | DecodeFailed | RestartRequired | ApplyFailed | Installed

  /** A value validated under the same revision is taken as it is. */
  function Candidate(st: State, c: Call): Option<Data>
    requires c.Apply?
  {
    if st.validated.Some? && st.validated.value.revision == c.revision then Some(st.validated.value.value)
    else c.decoded
  }

  ghost predicate Typed(s: Schema, st: State) {
    && (st.current.Some? ==> Conforms(s, st.current.value.value))
    && (st.validated.Some? ==> Conforms(s, st.validated.value.value))
  }

  ghost predicate TypedCall(s: Schema, c: Call) {
    c.decoded.Some? ==> Conforms(s, c.decoded.value)
  }

  function VerdictOf(s: Schema, reloadable: set<string>, st: State, c: Call): Verdict
    requires Typed(s, st) && TypedCall(s, c) && c.Apply?
  {
    var next := Candidate(st, c);
    if c.cancelled then Cancelled
    else if next.None? then DecodeFailed
    else if st.current.Some? && Changes(s, st.current.value.value, next.value, "", reloadable) != [] then
      RestartRequired
    else if !c.applied then ApplyFailed
    else Installed
  }

  function Step(s: Schema, reloadable: set<string>, st: State, c: Call): State
    requires Typed(s, st) && TypedCall(s, c)
  {
    match c
    case Validate(revision, decoded) =>
      st.(validated := if decoded.Some? then Some(Version(revision, decoded.value)) else None)
    case Apply(_, revision, _, _) =>
      match VerdictOf(s, reloadable, st, c)
      case RestartRequired =>
        st.(pendingRevision := revision,
            restartFields := Changes(s, st.current.value.value, Candidate(st, c).value, "", reloadable))
      case Installed =>
        State(Some(Version(revision, Candidate(st, c).value)), st.validated, "", [])
      case _ => st
  }

  ghost predicate TypedCalls(s: Schema, cs: seq<Call>) {
    forall i | 0 <= i < |cs| :: TypedCall(s, cs[i])
  }

  function Run(s: Schema, reloadable: set<string>, st: State, cs: seq<Call>): (end: State)
    requires Typed(s, st) && TypedCalls(s, cs)
    ensures Typed(s, end)
    decreases |cs|
  {
    if cs == [] then st else Run(s, reloadable, Step(s, reloadable, st, cs[0]), cs[1..])
  }

  /**
   An Apply installs its candidate exactly when its context is live, the candidate decodes and keeps every
   fixed leaf of the active value, and the callback agrees; otherwise the active value and its revision stay.
   */
  lemma ApplyInstallsExactly(s: Schema, reloadable: set<string>, st: State, c: Call)
    requires Typed(s, st) && TypedCall(s, c) && c.Apply?
    ensures var next := Candidate(st, c);
            var may := !c.cancelled && next.Some? && c.applied &&
              (st.current.Some? ==> Agree(s, st.current.value.value, next.value, reloadable));
            Step(s, reloadable, st, c).current == if may then Some(Version(c.revision, next.value)) else st.current
  {
    var next := Candidate(st, c);
    if next.Some? && st.current.Some? {
      NoChangesIffAgree(s, st.current.value.value, next.value, reloadable);
    }
  }

  /** Each verdict, by its cause; a failure or a cancellation leaves the restart report alone, an install clears it. */
  lemma VerdictIsExact(s: Schema, reloadable: set<string>, st: State, c: Call)
    requires Typed(s, st) && TypedCall(s, c) && c.Apply?
    ensures var next, verdict, st' := Candidate(st, c), VerdictOf(s, reloadable, st, c), Step(s, reloadable, st, c);
            && (verdict == Cancelled <==> c.cancelled)
            && (verdict == DecodeFailed <==> !c.cancelled && next.None?)
            && (verdict == RestartRequired <==>
              && !c.cancelled && next.Some? && st.current.Some?
              && !Agree(s, st.current.value.value, next.value, reloadable))
            && (verdict == Installed <==> !c.cancelled && next.Some? && verdict != RestartRequired && c.applied)
            && (verdict == RestartRequired ==> st'.pendingRevision == c.revision && st'.restartFields != [])
            && (verdict == Installed ==> st'.pendingRevision == "" && st'.restartFields == [])
            && (verdict != RestartRequired && verdict != Installed ==> st' == st)
  {
    var next := Candidate(st, c);
    if next.Some? && st.current.Some? {
      NoChangesIffAgree(s, st.current.value.value, next.value, reloadable);
    }
  }

  ghost predicate Differs(s: Schema, reloadable: set<string>, a: Data, b: Data, p: string, r: seq<nat>)
    requires Conforms(s, a) && Conforms(s, b)
  {
    Fixed(s, r, "", reloadable) && PathOf(s, r, "") == p && LeafAt(s, a, r) != LeafAt(s, b, r)
  }

  /** The restart report names exactly the fixed leaves in which the refused value differs. */
  lemma ReportIsExact(s: Schema, reloadable: set<string>, st: State, c: Call, p: string)
    requires Typed(s, st) && TypedCall(s, c) && c.Apply?
    requires VerdictOf(s, reloadable, st, c) == RestartRequired
    ensures p in Step(s, reloadable, st, c).restartFields <==>
      exists r :: Differs(s, reloadable, st.current.value.value, Candidate(st, c).value, p, r)
  {
    var a, b := st.current.value.value, Candidate(st, c).value;
    if p in Changes(s, a, b, "", reloadable) {
      var r := ReportsAreFixedLeaves(s, a, b, "", reloadable, p);
      assert Differs(s, reloadable, a, b, p, r);
    }
    if r :| Differs(s, reloadable, a, b, p, r) {
      FixedLeavesAreReported(s, a, b, "", reloadable, r);
    }
  }

  /** What is applied after a validation of the same revision is what was validated, whatever decoding yields then. */
  lemma ValidatedIsApplied(s: Schema, reloadable: set<string>, st: State, revision: string, decoded: Option<Data>,
                           c: Call)
    requires Typed(s, st) && TypedCall(s, c) && c.Apply? && TypedCall(s, Validate(revision, decoded))
    ensures var st' := Step(s, reloadable, st, Validate(revision, decoded));
            && st'.current == st.current
            && Candidate(st', c) == if c.revision == revision && decoded.Some? then decoded else c.decoded
  {
  }

  lemma StepKeepsFixed(s: Schema, reloadable: set<string>, st: State, c: Call)
    requires Typed(s, st) && TypedCall(s, c) && st.current.Some?
    ensures var st' := Step(s, reloadable, st, c);
            st'.current.Some? && Agree(s, st.current.value.value, st'.current.value.value, reloadable)
  {
    if c.Apply? && Candidate(st, c).Some? {
      NoChangesIffAgree(s, st.current.value.value, Candidate(st, c).value, reloadable);
    }
  }

  /** Once a value is installed, no sequence of calls changes a fixed leaf. */
  lemma {:induction false} FixedForever(s: Schema, reloadable: set<string>, st: State, cs: seq<Call>)
    requires Typed(s, st) && TypedCalls(s, cs) && st.current.Some?
    ensures var end := Run(s, reloadable, st, cs);
            end.current.Some? && Agree(s, st.current.value.value, end.current.value.value, reloadable)
    decreases |cs|
  {
    if cs != [] {
      var st' := Step(s, reloadable, st, cs[0]);
      StepKeepsFixed(s, reloadable, st, cs[0]);
      FixedForever(s, reloadable, st', cs[1..]);
      var end := Run(s, reloadable, st', cs[1..]);
      forall r | Fixed(s, r, "", reloadable)
        ensures LeafAt(s, st.current.value.value, r) == LeafAt(s, end.current.value.value, r)
      {
        assert LeafAt(s, st.current.value.value, r) == LeafAt(s, st'.current.value.value, r);
      }
    }
  }

  class Component {
    const schema: Schema
    const reloadable: set<string>
    var current: Option<Version>
    var validated: Option<Version>
    var pendingRevision: string
    var restartFields: seq<string>
    var failed: bool

    function View(): State
      reads this
    {
      State(current, validated, pendingRevision, restartFields)
    }

    constructor (schema: Schema, reloadable: set<string>)
      ensures this.schema == schema && this.reloadable == reloadable
      ensures View() == State(None, None, "", []) && Typed(schema, View()) && !failed
    {
      this.schema, this.reloadable := schema, reloadable;
      current, validated, pendingRevision, restartFields, failed := None, None, "", [], false;
    }

    method ValidateSnapshot(revision: string, decoded: Option<Data>) returns (ok: bool)
      requires Typed(schema, View()) && TypedCall(schema, Validate(revision, decoded))
      modifies this
      ensures View() == Step(schema, reloadable, old(View()), Validate(revision, decoded))
      ensures Typed(schema, View()) && ok == decoded.Some? && failed == decoded.None?
    {
      ok := decoded.Some?;
      validated := if ok then Some(Version(revision, decoded.value)) else None;
      failed := !ok;
    }

    method ApplySnapshot(cancelled: bool, revision: string, decoded: Option<Data>, applied: bool)
      returns (verdict: Verdict)
      requires Typed(schema, View()) && TypedCall(schema, Apply(cancelled, revision, decoded, applied))
      modifies this
      ensures var c := Apply(cancelled, revision, decoded, applied);
              && View() == Step(schema, reloadable, old(View()), c)
              && verdict == VerdictOf(schema, reloadable, old(View()), c)
      ensures Typed(schema, View())
      ensures failed == if verdict.Cancelled? then old(failed) else !verdict.Installed?
    {
      if cancelled {
        return Cancelled;
      }
      var next := decoded;
      if validated.Some? && validated.value.revision == revision {
        next := Some(validated.value.value);
      }
      if next.None? {
        failed := true;
        return DecodeFailed;
      }
      if current.Some? {
        var changed := CollectRestartChanges(schema, current.value.value, next.value, "", reloadable, []);
        if changed != [] {
          pendingRevision, restartFields, failed := revision, changed, true;
          return RestartRequired;
        }
      }
      if !applied {
        failed := true;
        return ApplyFailed;
      }
      current := Some(Version(revision, next.value));
      pendingRevision, restartFields, failed := "", [], false;
      return Installed;
    }
  }
}
