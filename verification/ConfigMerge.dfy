/**
 Merging configuration trees (config/merge.go, config/snapshot.go): sources are overlaid from low to high
 priority, and a deletion marker under a key removes what lower sources put there.
 */
module ConfigMerge {
  import opened Wrappers
  import Revisions
  import Sets
  import Text

  /** A configuration value; `Unsupported` stands for every Go value that is not JSON-like. */
  datatype Value =
    | Null
    | Scalar(text: string)
    | Array(items: seq<Value>)
    | Object(fields: map<string, Value>)
    | Delete
    | Unsupported

  type Tree = v: Value | v.Object? witness Object(map[])

  const EMPTY: Tree := Object(map[])

  /** The object under a key, or an empty one if there is something else or nothing there. */
  function Under(t: Tree, key: string): Tree {
    if key in t.fields && t.fields[key].Object? then t.fields[key] else EMPTY
  }

  /** The target after one overlay. */
  function Overlay(t: Tree, o: Tree): (r: Tree)
    decreases o
  {
    Object(map key | key in t.fields.Keys + o.fields.Keys && !(key in o.fields && o.fields[key].Delete?) ::
      if key !in o.fields then t.fields[key]
      else if o.fields[key].Object? then Overlay(Under(t, key), o.fields[key])
      else o.fields[key])
  }

  // ---------------------------------------------------------------------------
  // What a tree says about a path
  // ---------------------------------------------------------------------------

  /** A tree leaves a path open, rules it out, puts a leaf there, or makes it an object. */
  datatype Effect = Silent | Absent | Leaf(value: Value) | Branch

  type Path = p: seq<string> | p != [] witness [""]

  function EffectAt(t: Tree, p: Path): Effect
    decreases |p|
  {
    if p[0] !in t.fields then Silent
    else
      var v := t.fields[p[0]];
      if v.Delete? then Absent
      else if !v.Object? then (if |p| == 1 then Leaf(v) else Absent)
      else if |p| == 1 then Branch
      else EffectAt(v, p[1..])
  }

  /** What a reader finds at a path: a leaf, an object or nothing. */
  function View(t: Tree, p: Path): Effect {
    var e := EffectAt(t, p);
    if e.Silent? then Absent else e
  }

  /** No deletion marker is the value of a key, at any depth of objects. */
  ghost predicate Clean(t: Tree)
    decreases t
  {
    forall key | key in t.fields :: !t.fields[key].Delete? && (t.fields[key].Object? ==> Clean(t.fields[key]))
  }

  /** An overlay decides the paths it speaks about and leaves the others as they were. */
  lemma {:induction false} OverlayDecides(t: Tree, o: Tree, p: Path)
    ensures View(Overlay(t, o), p) == if EffectAt(o, p).Silent? then View(t, p) else EffectAt(o, p)
    decreases |p|
  {
    var key := p[0];
    if key in o.fields && o.fields[key].Object? && |p| > 1 {
      OverlayDecides(Under(t, key), o.fields[key], p[1..]);
    }
  }

  lemma {:induction false} OverlayIsClean(t: Tree, o: Tree)
    requires Clean(t)
    ensures Clean(Overlay(t, o))
    decreases o
  {
    var r := Overlay(t, o);
    forall key | key in r.fields ensures !r.fields[key].Delete? && (r.fields[key].Object? ==> Clean(r.fields[key])) {
      if key in o.fields && o.fields[key].Object? {
        OverlayIsClean(Under(t, key), o.fields[key]);
      }
    }
  }

  /** The value found by walking down a path. */
  function ValueAt(v: Value, path: seq<string>): Option<Value>
    decreases |path|
  {
    if path == [] then Some(v)
    else if v.Object? && path[0] in v.fields then ValueAt(v.fields[path[0]], path[1..])
    else None
  }

  /** In a clean tree the view of a path is what a lookup finds there. */
  lemma {:induction false} ViewIsLookup(t: Tree, p: Path)
    requires Clean(t)
    ensures View(t, p) == match ValueAt(t, p)
                          case None => Absent
                          case Some(v) => if v.Object? then Branch else Leaf(v)
    decreases |p|
  {
    if p[0] in t.fields && t.fields[p[0]].Object? && |p| > 1 {
      ViewIsLookup(t.fields[p[0]], p[1..]);
    }
  }

  /** Clean trees that look the same at every path are the same. */
  lemma {:induction false} ViewsDetermine(t: Tree, u: Tree)
    requires Clean(t) && Clean(u)
    requires forall p: Path :: View(t, p) == View(u, p)
    ensures t == u
    decreases t
  {
    forall key ensures key in t.fields <==> key in u.fields {
      assert View(t, [key]) == View(u, [key]);
    }
    forall key | key in t.fields ensures t.fields[key] == u.fields[key] {
      var a, b := t.fields[key], u.fields[key];
      assert View(t, [key]) == View(u, [key]);
      if a.Object? {
        forall p: Path ensures View(a, p) == View(b, p) {
          var q := [key] + p;
          assert q[1..] == p;
          assert View(t, q) == View(u, q);
        }
        ViewsDetermine(a, b);
      }
    }
  }

  /** Overlaying the same source twice is overlaying it once. */
  lemma OverlayIsIdempotent(t: Tree, o: Tree)
    requires Clean(t)
    ensures Overlay(Overlay(t, o), o) == Overlay(t, o)
  {
    var once := Overlay(t, o);
    OverlayIsClean(t, o);
    OverlayIsClean(once, o);
    forall p: Path ensures View(Overlay(once, o), p) == View(once, p) {
      OverlayDecides(t, o, p);
      OverlayDecides(once, o, p);
    }
    ViewsDetermine(Overlay(once, o), once);
  }

  // ---------------------------------------------------------------------------
  // Several sources
  // ---------------------------------------------------------------------------

  function MergeAll(sources: seq<Tree>): Tree {
    if sources == [] then EMPTY else Overlay(MergeAll(sources[..|sources| - 1]), sources[|sources| - 1])
  }

  /** The source at position `i` is the highest one that speaks about the path. */
  ghost predicate Decides(sources: seq<Tree>, i: nat, p: Path) {
    && i < |sources| && !EffectAt(sources[i], p).Silent?
    && forall j | i < j < |sources| :: EffectAt(sources[j], p).Silent?
  }

  lemma {:induction false} MergedIsClean(sources: seq<Tree>)
    ensures Clean(MergeAll(sources))
  {
    if sources != [] {
      MergedIsClean(sources[..|sources| - 1]);
      OverlayIsClean(MergeAll(sources[..|sources| - 1]), sources[|sources| - 1]);
    }
  }

  /** At every path the merged tree shows what the highest source that speaks about it says. */
  lemma {:induction false} HighestSourceDecides(sources: seq<Tree>, i: nat, p: Path)
    requires Decides(sources, i, p)
    ensures View(MergeAll(sources), p) == EffectAt(sources[i], p)
    decreases |sources|
  {
    var init := sources[..|sources| - 1];
    OverlayDecides(MergeAll(init), sources[|sources| - 1], p);
    if i < |init| {
      assert forall j | 0 <= j < |init| :: init[j] == sources[j];
      HighestSourceDecides(init, i, p);
    }
  }

  /** A path no source speaks about is absent. */
  lemma {:induction false} NobodyDecides(sources: seq<Tree>, p: Path)
    requires forall i | 0 <= i < |sources| :: EffectAt(sources[i], p).Silent?
    ensures View(MergeAll(sources), p) == Absent
  {
    if sources != [] {
      NobodyDecides(sources[..|sources| - 1], p);
      OverlayDecides(MergeAll(sources[..|sources| - 1]), sources[|sources| - 1], p);
    }
  }

  /** Either some source decides a path or none speaks about it. */
  lemma {:induction false} SomeoneDecides(sources: seq<Tree>, p: Path) returns (i: nat)
    requires exists j | 0 <= j < |sources| :: !EffectAt(sources[j], p).Silent?
    ensures Decides(sources, i, p)
    decreases |sources|
  {
    i := |sources| - 1;
    if EffectAt(sources[i], p).Silent? {
      var init := sources[..i];
      var j :| 0 <= j < |sources| && !EffectAt(sources[j], p).Silent?;
      assert init[j] == sources[j];
      var k := SomeoneDecides(init, p);
      forall j | k < j < |sources| ensures EffectAt(sources[j], p).Silent? {
        assert j < |init| ==> sources[j] == init[j];
      }
      i := k;
    }
  }

  // ---------------------------------------------------------------------------
  // Validity and failure
  // ---------------------------------------------------------------------------

  /** What cloneValue accepts. */
  predicate Valid(v: Value, allowDelete: bool)
    decreases v
  {
    match v
    case Null => true
    case Scalar(_) => true
    case Array(items) => forall i | 0 <= i < |items| :: Valid(items[i], allowDelete)
    case Object(fields) => forall key | key in fields :: key != "" && Valid(fields[key], allowDelete)
    case Delete => allowDelete
    case Unsupported => false
  }

  /** There is a deletion marker somewhere inside. */
  ghost predicate HoldsMarker(v: Value)
    decreases v
  {
    match v
    case Array(items) => exists i | 0 <= i < |items| :: HoldsMarker(items[i])
    case Object(fields) => exists key | key in fields :: HoldsMarker(fields[key])
    case Delete => true
    case _ => false
  }

  lemma {:induction false} MarkersAreTheDifference(v: Value)
    requires Valid(v, true)
    ensures Valid(v, false) <==> !HoldsMarker(v)
    decreases v
  {
    match v {
      case Array(items) =>
        forall i | 0 <= i < |items| ensures Valid(items[i], false) <==> !HoldsMarker(items[i]) {
          MarkersAreTheDifference(items[i]);
        }
      case Object(fields) =>
        forall key | key in fields ensures Valid(fields[key], false) <==> !HoldsMarker(fields[key]) {
          MarkersAreTheDifference(fields[key]);
        }
      case _ =>
    }
  }

  lemma {:induction false} OverlayIsValid(t: Tree, o: Tree)
    requires Valid(t, true) && Valid(o, true)
    ensures Valid(Overlay(t, o), true)
    decreases o
  {
    var r := Overlay(t, o);
    forall key | key in r.fields ensures key != "" && Valid(r.fields[key], true) {
      if key in o.fields && o.fields[key].Object? {
        OverlayIsValid(Under(t, key), o.fields[key]);
      }
    }
  }

  ghost predicate AllValid(sources: seq<Tree>) {
    forall i | 0 <= i < |sources| :: Valid(sources[i], true)
  }

  lemma {:induction false} MergedIsValid(sources: seq<Tree>)
    requires AllValid(sources)
    ensures Valid(MergeAll(sources), true)
  {
    if sources != [] {
      MergedIsValid(sources[..|sources| - 1]);
      OverlayIsValid(MergeAll(sources[..|sources| - 1]), sources[|sources| - 1]);
    }
  }

  /** In a clean tree markers can only hide inside a leaf, that is an array. */
  lemma {:induction false} MarkersHideInLeaves(t: Tree) returns (p: Path)
    requires Clean(t) && HoldsMarker(t)
    ensures View(t, p).Leaf? && View(t, p).value.Array? && HoldsMarker(View(t, p).value)
    decreases t
  {
    var key :| key in t.fields && HoldsMarker(t.fields[key]);
    if t.fields[key].Object? {
      var q := MarkersHideInLeaves(t.fields[key]);
      p := [key] + q;
      assert p[1..] == q;
    } else {
      p := [key];
    }
  }

  lemma {:induction false} LeavesShowMarkers(t: Tree, p: Path)
    requires View(t, p).Leaf? && HoldsMarker(View(t, p).value)
    ensures HoldsMarker(t)
    decreases |p|
  {
    if |p| > 1 {
      LeavesShowMarkers(t.fields[p[0]], p[1..]);
    }
    assert HoldsMarker(t.fields[p[0]]);
  }

  /** A source that decides some path puts an array with a deletion marker there. */
  ghost predicate MarkerSurvives(sources: seq<Tree>, i: nat, p: Path) {
    Decides(sources, i, p) && EffectAt(sources[i], p).Leaf? && HoldsMarker(EffectAt(sources[i], p).value)
  }

  /** The merge of valid sources is refused exactly when an array that survives it holds a deletion marker. */
  lemma MergeFailsOnMarkers(sources: seq<Tree>)
    requires AllValid(sources)
    ensures !Valid(MergeAll(sources), false) <==> exists i, p :: MarkerSurvives(sources, i, p)
  {
    var merged := MergeAll(sources);
    MergedIsClean(sources);
    MergedIsValid(sources);
    MarkersAreTheDifference(merged);
    if HoldsMarker(merged) {
      var p := MarkersHideInLeaves(merged);
      if forall j | 0 <= j < |sources| :: EffectAt(sources[j], p).Silent? {
        NobodyDecides(sources, p);
      } else {
        var i := SomeoneDecides(sources, p);
        HighestSourceDecides(sources, i, p);
        assert MarkerSurvives(sources, i, p);
      }
    }
    if exists i, p :: MarkerSurvives(sources, i, p) {
      var i, p :| MarkerSurvives(sources, i, p);
      HighestSourceDecides(sources, i, p);
      LeavesShowMarkers(merged, p);
    }
  }

  // ---------------------------------------------------------------------------
  // The operations
  // ---------------------------------------------------------------------------

  datatype Snapshot = Snapshot(revision: string, values: Tree)

  predicate ValidSnapshot(s: Snapshot) {
    Text.Trim(s.revision) != "" && Valid(s.values, true)
  }

  /** A deep copy, refused where the value is not valid. */
  method CloneValue(v: Value, allowDelete: bool) returns (copy: Option<Value>)
    ensures copy == if Valid(v, allowDelete) then Some(v) else None
    decreases v
  {
    match v {
      case Delete => return if allowDelete then Some(Delete) else None;
      case Unsupported => return None;
      case Array(items) =>
        var result: seq<Value> := [];
        for i := 0 to |items|
          invariant result == items[..i] && forall j | 0 <= j < i :: Valid(items[j], allowDelete)
        {
          var cloned := CloneValue(items[i], allowDelete);
          if cloned.None? {
            return None;
          }
          result := result + [cloned.value];
        }
        assert items[..|items|] == items;
        return Some(Array(result));
      case Object(_) =>
        var cloned := CloneMap(v, allowDelete);
        return if cloned.None? then None else Some(cloned.value);
      case _ => return Some(v);
    }
  }

  /** Copies the entries of an object in any order. */
  method CloneMap(v: Tree, allowDelete: bool) returns (copy: Option<Tree>)
    ensures copy == if Valid(v, allowDelete) then Some(v) else None
    decreases v, 0
  {
    var todo, clone := v.fields.Keys, map[];
    while todo != {}
      invariant todo <= v.fields.Keys
      invariant forall key :: key in clone <==> key in v.fields && key !in todo
      invariant forall key | key in clone ::
        clone[key] == v.fields[key] && key != "" && Valid(v.fields[key], allowDelete)
      decreases |todo|
    {
      var key := Sets.Choose(todo);
      todo := todo - {key};
      if key == "" {
        return None;
      }
      var cloned := CloneValue(v.fields[key], allowDelete);
      if cloned.None? {
        return None;
      }
      clone := clone[key := cloned.value];
    }
    assert clone == v.fields;
    return Some(Object(clone));
  }

  function Entry(fields: map<string, Value>, key: string): Option<Value> {
    if key in fields then Some(fields[key]) else None
  }

  /** The entries in `todo` are still those of the target, all others those of the goal. */
  ghost predicate Halfway(target: Tree, goal: Tree, todo: set<string>, fields: map<string, Value>) {
    forall key :: Entry(fields, key) == Entry(if key in todo then target.fields else goal.fields, key)
  }

  lemma HalfwayStarts(target: Tree, overlay: Tree)
    ensures Halfway(target, Overlay(target, overlay), overlay.fields.Keys, target.fields)
  {
  }

  lemma HalfwayGoes(target: Tree, goal: Tree, todo: set<string>, fields: map<string, Value>, key: string,
                    next: map<string, Value>)
    requires Halfway(target, goal, todo, fields) && key in todo
    requires Entry(next, key) == Entry(goal.fields, key)
    requires forall k | k != key :: Entry(next, k) == Entry(fields, k)
    ensures Halfway(target, goal, todo - {key}, next)
  {
  }

  lemma HalfwayEnds(target: Tree, goal: Tree, fields: map<string, Value>)
    requires Halfway(target, goal, {}, fields)
    ensures fields == goal.fields
  {
    forall key ensures key in fields <==> key in goal.fields {
      assert Entry(fields, key) == Entry(goal.fields, key);
    }
    forall key | key in fields ensures fields[key] == goal.fields[key] {
      assert Entry(fields, key) == Entry(goal.fields, key);
    }
  }

  /** Walks down the path and copies what it finds; the empty path finds the whole tree. */
  method Lookup(t: Tree, path: seq<string>) returns (found: Option<Value>)
    ensures found == match ValueAt(t, path)
                     case None => None
                     case Some(v) => if Valid(v, true) then Some(v) else None
  {
    var current: Value := t;
    var i := 0;
    while i < |path|
      invariant i <= |path| && ValueAt(t, path) == ValueAt(current, path[i..])
    {
      if !current.Object? || path[i] !in current.fields {
        return None;
      }
      current := current.fields[path[i]];
      assert path[i..][1..] == path[i + 1..];
      i := i + 1;
    }
    found := CloneValue(current, true);
  }

  /** Overlays the entries of a valid source in any order. */
  method MergeMap(target: Tree, overlay: Tree) returns (merged: Tree)
    requires Valid(overlay, true)
    ensures merged == Overlay(target, overlay)
    decreases overlay
  {
    var todo, fields := overlay.fields.Keys, target.fields;
    ghost var goal := Overlay(target, overlay);
    HalfwayStarts(target, overlay);
    while todo != {}
      invariant todo <= overlay.fields.Keys && Halfway(target, goal, todo, fields)
      decreases |todo|
    {
      var key := Sets.Choose(todo);
      ghost var before := fields;
      assert Entry(fields, key) == Entry(target.fields, key);
      fields := MergeEntry(target, overlay, key, fields);
      HalfwayGoes(target, goal, todo, before, key, fields);
      todo := todo - {key};
    }
    HalfwayEnds(target, goal, fields);
    return Object(fields);
  }

  /** One turn of the loop: the entry of the source under one key. */
  method MergeEntry(ghost target: Tree, overlay: Tree, key: string, fields: map<string, Value>)
    returns (next: map<string, Value>)
    requires Valid(overlay, true) && key in overlay.fields && Entry(fields, key) == Entry(target.fields, key)
    ensures Entry(next, key) == Entry(Overlay(target, overlay).fields, key)
    ensures forall k | k != key :: Entry(next, k) == Entry(fields, k)
    decreases overlay, 0
  {
    var v := overlay.fields[key];
    if v.Delete? {
      next := fields - {key};
    } else if v.Object? {
      var current := if key in fields && fields[key].Object? then fields[key] else EMPTY;
      assert current == Under(target, key);
      var inner := MergeMap(current, v);
      next := fields[key := inner];
    } else {
      var cloned := CloneValue(v, true);
      next := fields[key := cloned.value];
    }
  }

  function ValuesOf(snapshots: seq<Snapshot>): seq<Tree> {
    seq(|snapshots|, i requires 0 <= i < |snapshots| => snapshots[i].values)
  }

  function RevisionsOf(snapshots: seq<Snapshot>): seq<string> {
    seq(|snapshots|, i requires 0 <= i < |snapshots| => snapshots[i].revision)
  }

  /** The merge of snapshots from low to high priority, or a refusal. */
  function MergeOf(snapshots: seq<Snapshot>): Option<Snapshot> {
    if snapshots == [] || exists i | 0 <= i < |snapshots| :: !ValidSnapshot(snapshots[i]) then None
    else if !Valid(MergeAll(ValuesOf(snapshots)), false) then None
    else Some(Snapshot(Revisions.Combined(RevisionsOf(snapshots)), MergeAll(ValuesOf(snapshots))))
  }

  lemma MergeOneMore(snapshots: seq<Snapshot>, i: nat)
    requires i < |snapshots|
    ensures MergeAll(ValuesOf(snapshots[..i + 1])) == Overlay(MergeAll(ValuesOf(snapshots[..i])), snapshots[i].values)
    ensures RevisionsOf(snapshots[..i + 1]) == RevisionsOf(snapshots[..i]) + [snapshots[i].revision]
  {
    assert ValuesOf(snapshots[..i + 1])[..i] == ValuesOf(snapshots[..i]);
  }

  method Merge(snapshots: seq<Snapshot>) returns (result: Option<Snapshot>)
    ensures result == MergeOf(snapshots)
  {
    if snapshots == [] {
      return None;
    }
    var merged := EMPTY;
    var revisions: seq<string> := [];
    for i := 0 to |snapshots|
      invariant merged == MergeAll(ValuesOf(snapshots[..i]))
      invariant revisions == RevisionsOf(snapshots[..i])
      invariant forall j | 0 <= j < i :: ValidSnapshot(snapshots[j])
    {
      if !ValidSnapshot(snapshots[i]) {
        return None;
      }
      MergeOneMore(snapshots, i);
      revisions := revisions + [snapshots[i].revision];
      merged := MergeMap(merged, snapshots[i].values);
    }
    assert snapshots[..|snapshots|] == snapshots;
    var values := CloneMap(merged, false);
    if values.None? {
      return None;
    }
    var revision := Revisions.CombineRevisions(revisions);
    return Some(Snapshot(revision, values.value));
  }

  /** A successful merge holds no deletion marker anywhere. */
  lemma MergeHoldsNoMarker(snapshots: seq<Snapshot>)
    requires MergeOf(snapshots).Some?
    ensures !HoldsMarker(MergeOf(snapshots).value.values)
  {
    assert AllValid(ValuesOf(snapshots));
    MergedIsValid(ValuesOf(snapshots));
    MarkersAreTheDifference(MergeAll(ValuesOf(snapshots)));
  }

  /** What a successful merge shows at every path. */
  lemma MergeShows(snapshots: seq<Snapshot>, i: nat, p: Path)
    requires MergeOf(snapshots).Some? && Decides(ValuesOf(snapshots), i, p)
    ensures View(MergeOf(snapshots).value.values, p) == EffectAt(snapshots[i].values, p)
  {
    HighestSourceDecides(ValuesOf(snapshots), i, p);
  }

  /** Merging valid snapshots is refused exactly for want of sources or for a surviving marker. */
  lemma MergeIsRefused(snapshots: seq<Snapshot>)
    requires forall i | 0 <= i < |snapshots| :: ValidSnapshot(snapshots[i])
    ensures MergeOf(snapshots).None? <==> snapshots == [] || exists i, p :: MarkerSurvives(ValuesOf(snapshots), i, p)
  {
    assert AllValid(ValuesOf(snapshots));
    MergeFailsOnMarkers(ValuesOf(snapshots));
  }
}
