/**
 Component ordering (app/component.go): a depth-first topological sort of the components of an
 application by their declared dependencies.
 */
module Components {
  import opened Wrappers
  import Text

  datatype Component = Component(name: string, dependencies: seq<string>)

  datatype Defect =
    | InvalidName(component: nat)
    | DuplicateComponent(component: nat)
    | InvalidDependency(component: nat, position: nat)
    | SelfDependency(component: nat, position: nat)
    | UnknownDependency(component: nat, position: nat)
    | RepeatedDependency(component: nat, position: nat)
    | DependencyCycle(names: seq<string>)

  datatype Sorting = Sorted(order: seq<Component>) | Rejected(defect: Defect)

  // ---------------------------------------------------------------------------
  // What is asked of the declarations
  // ---------------------------------------------------------------------------

  /** Not empty, and trimming does not change it. */
  predicate ValidName(name: string) {
    Text.Trim(name) != "" && Text.Trim(name) == name
  }

  /** A valid name has something in it and no white space at either end. */
  lemma ValidNameMeans(name: string)
    ensures ValidName(name) <==> name != "" && !Text.IsSpace(name[0]) && !Text.IsSpace(name[|name| - 1])
  {
    Text.TrimTrims(name);
  }

  ghost predicate ValidNames(cs: seq<Component>) {
    && (forall i | 0 <= i < |cs| :: ValidName(cs[i].name))
    && (forall i, j | 0 <= i < j < |cs| :: cs[i].name != cs[j].name)
  }

  ghost predicate Known(cs: seq<Component>, name: string) {
    exists j | 0 <= j < |cs| :: cs[j].name == name
  }

  ghost predicate ValidDependency(cs: seq<Component>, i: nat, k: nat)
    requires i < |cs| && k < |cs[i].dependencies|
  {
    var name := cs[i].dependencies[k];
    && ValidName(name) && name != cs[i].name && Known(cs, name)
    && name !in cs[i].dependencies[..k]
  }

  ghost predicate ValidDependencies(cs: seq<Component>) {
    forall i, k | 0 <= i < |cs| && 0 <= k < |cs[i].dependencies| :: ValidDependency(cs, i, k)
  }

  predicate DependsOn(cs: seq<Component>, i: nat, j: nat) {
    i < |cs| && j < |cs| && cs[j].name in cs[i].dependencies
  }

  ghost predicate Path(cs: seq<Component>, p: seq<nat>) {
    forall k | 0 <= k < |p| - 1 :: DependsOn(cs, p[k], p[k + 1])
  }

  ghost predicate Cycle(cs: seq<Component>, p: seq<nat>) {
    |p| >= 2 && p[0] == p[|p| - 1] && Path(cs, p)
  }

  /** The shape of a reported cycle: the search path up to the component it meets again. */
  ghost predicate EndsInCycle(cs: seq<Component>, p: seq<nat>) {
    exists from | 0 <= from < |p| :: Cycle(cs, p[from..])
  }

  ghost predicate Acyclic(cs: seq<Component>) {
    forall p :: !Cycle(cs, p)
  }

  // ---------------------------------------------------------------------------
  // What a good order is
  // ---------------------------------------------------------------------------

  ghost predicate Distinct(s: seq<nat>) {
    forall i, j | 0 <= i < j < |s| :: s[i] != s[j]
  }

  /** Everything a listed component depends on is listed before it. */
  ghost predicate DependenciesFirst(cs: seq<Component>, order: seq<nat>) {
    forall k, d: nat | 0 <= k < |order| && DependsOn(cs, order[k], d) :: d in order[..k]
  }

  /** Every component once, dependencies first. */
  ghost predicate GoodOrder(cs: seq<Component>, order: seq<nat>) {
    && Distinct(order)
    && (forall i :: i in order <==> 0 <= i < |cs|)
    && DependenciesFirst(cs, order)
  }

  function Listed(cs: seq<Component>, order: seq<nat>): seq<Component>
    requires forall i | i in order :: i < |cs|
  {
    seq(|order|, k requires 0 <= k < |order| => assert order[k] in order; cs[order[k]])
  }

  lemma AppendLast(cs: seq<Component>, order: seq<nat>, i: nat)
    requires DependenciesFirst(cs, order) && forall d: nat | DependsOn(cs, i, d) :: d in order
    ensures DependenciesFirst(cs, order + [i])
  {
    var longer := order + [i];
    forall k, d: nat | 0 <= k < |longer| && DependsOn(cs, longer[k], d) ensures d in longer[..k] {
      assert longer[..k] == order[..k];
    }
    assert order[..|order|] == order;
  }

  lemma OneStepBack(cs: seq<Component>, order: seq<nat>, k: nat, d: nat) returns (j: nat)
    requires DependenciesFirst(cs, order) && k < |order| && DependsOn(cs, order[k], d)
    ensures j < k && order[j] == d
  {
    assert d in order[..k];
    j :| 0 <= j < k && order[..k][j] == d;
  }

  /** Along a path every step goes strictly back in a good order. */
  lemma {:induction false} PathsGoBack(cs: seq<Component>, order: seq<nat>, p: seq<nat>, k: nat) returns (j: nat)
    requires DependenciesFirst(cs, order) && |p| >= 2 && Path(cs, p) && k < |order| && order[k] == p[0]
    ensures j < k && order[j] == p[|p| - 1]
    decreases |p|
  {
    assert DependsOn(cs, p[0], p[0 + 1]);
    j := OneStepBack(cs, order, k, p[1]);
    if |p| > 2 {
      var rest := p[1..];
      forall i | 0 <= i < |rest| - 1 ensures DependsOn(cs, rest[i], rest[i + 1]) {
        assert DependsOn(cs, p[i + 1], p[i + 1 + 1]);
      }
      j := PathsGoBack(cs, order, rest, j);
    }
  }

  /** Where a good order exists there is no cycle. */
  lemma OrderedIsAcyclic(cs: seq<Component>, order: seq<nat>)
    requires GoodOrder(cs, order)
    ensures Acyclic(cs)
  {
    forall p | Cycle(cs, p) ensures false {
      assert DependsOn(cs, p[0], p[0 + 1]);
      assert p[0] in order;
      var k :| 0 <= k < |order| && order[k] == p[0];
      var j := PathsGoBack(cs, order, p, k);
    }
  }

  // ---------------------------------------------------------------------------
  // Validation
  // ---------------------------------------------------------------------------

  /** The index holds exactly the first `n` components, under their names. */
  ghost predicate Indexes(cs: seq<Component>, byName: map<string, nat>, n: nat)
    requires n <= |cs|
  {
    && (forall i | 0 <= i < n :: cs[i].name in byName && byName[cs[i].name] == i)
    && (forall name | name in byName :: byName[name] < n && cs[byName[name]].name == name)
  }

  method IndexNames(cs: seq<Component>) returns (byName: map<string, nat>, defect: Option<Defect>)
    ensures defect.None? <==> ValidNames(cs)
    ensures defect.None? ==> Indexes(cs, byName, |cs|)
    ensures defect.Some? ==> !defect.value.DependencyCycle?
  {
    byName := map[];
    for i := 0 to |cs|
      invariant Indexes(cs, byName, i)
      invariant forall k | 0 <= k < i :: ValidName(cs[k].name)
      invariant forall j, k | 0 <= j < k < i :: cs[j].name != cs[k].name
    {
      if !ValidName(cs[i].name) {
        return byName, Some(InvalidName(i));
      }
      if cs[i].name in byName {
        return byName, Some(DuplicateComponent(i));
      }
      byName := byName[cs[i].name := i];
    }
    return byName, None;
  }

  method CheckDependencies(cs: seq<Component>, byName: map<string, nat>) returns (defect: Option<Defect>)
    requires Indexes(cs, byName, |cs|)
    ensures defect.None? <==> ValidDependencies(cs)
    ensures defect.Some? ==> !defect.value.DependencyCycle?
  {
    for i := 0 to |cs|
      invariant forall j, k | 0 <= j < i && 0 <= k < |cs[j].dependencies| :: ValidDependency(cs, j, k)
    {
      var required := cs[i].dependencies;
      var seen: set<string> := {};
      for k := 0 to |required|
        invariant forall m | 0 <= m < k :: ValidDependency(cs, i, m)
        invariant forall name :: name in seen <==> name in required[..k]
      {
        var name := required[k];
        assert ValidDependencies(cs) ==> ValidDependency(cs, i, k);
        if !ValidName(name) {
          return Some(InvalidDependency(i, k));
        }
        if name == cs[i].name {
          return Some(SelfDependency(i, k));
        }
        if name !in byName {
          return Some(UnknownDependency(i, k));
        }
        if name in seen {
          return Some(RepeatedDependency(i, k));
        }
        assert cs[byName[name]].name == name;
        seen := seen + {name};
        assert required[..k + 1] == required[..k] + [name];
      }
    }
    return None;
  }

  // ---------------------------------------------------------------------------
  // The depth-first search
  // ---------------------------------------------------------------------------

  /** A component met again on the search path closes a cycle. */
  lemma ClosesCycle(cs: seq<Component>, stack: seq<nat>, index: nat)
    requires Path(cs, stack) && index in stack && DependsOn(cs, stack[|stack| - 1], index)
    ensures EndsInCycle(cs, stack + [index])
  {
    var from :| 0 <= from < |stack| && stack[from] == index;
    var p := stack + [index];
    var cycle := p[from..];
    forall k | 0 <= k < |cycle| - 1 ensures DependsOn(cs, cycle[k], cycle[k + 1]) {
      if k < |cycle| - 2 {
        assert DependsOn(cs, stack[from + k], stack[from + k + 1]);
      }
    }
    assert Cycle(cs, cycle);
  }

  function NamesOf(cs: seq<Component>, p: seq<nat>): seq<string>
    requires forall i | i in p :: i < |cs|
  {
    seq(|p|, k requires 0 <= k < |p| => assert p[k] in p; cs[p[k]].name)
  }

  datatype Mark = Unvisited | Visiting | Visited

  /** A moment of the search: `order` is finished, `stack` is the path being searched. */
  datatype Search = Search(states: seq<Mark>, stack: seq<nat>, order: seq<nat>)

  ghost predicate Consistent(cs: seq<Component>, s: Search) {
    && |s.states| == |cs|
    && (forall i :: i in s.order <==> 0 <= i < |cs| && s.states[i].Visited?)
    && (forall i :: i in s.stack <==> 0 <= i < |cs| && s.states[i].Visiting?)
    && Distinct(s.order) && DependenciesFirst(cs, s.order)
    && Path(cs, s.stack)
  }

  function Entered(s: Search, i: nat): Search
    requires i < |s.states|
  {
    Search(s.states[i := Visiting], s.stack + [i], s.order)
  }

  function Left(s: Search, i: nat): Search
    requires i < |s.states| && s.stack != []
  {
    Search(s.states[i := Visited], s.stack[..|s.stack| - 1], s.order + [i])
  }

  lemma EnteredIsConsistent(cs: seq<Component>, s: Search, i: nat)
    requires Consistent(cs, s) && i < |cs| && s.states[i].Unvisited?
    requires s.stack != [] ==> DependsOn(cs, s.stack[|s.stack| - 1], i)
    ensures Consistent(cs, Entered(s, i))
  {
    var stack := Entered(s, i).stack;
    forall k | 0 <= k < |stack| - 1 ensures DependsOn(cs, stack[k], stack[k + 1]) {
      if k < |stack| - 2 {
        assert DependsOn(cs, s.stack[k], s.stack[k + 1]);
      }
    }
  }

  lemma Popped(stack: seq<nat>, top: nat, i: nat)
    requires top !in stack
    ensures i in stack <==> i in stack + [top] && i != top
  {
  }

  lemma LeftIsConsistent(cs: seq<Component>, s: Search, below: seq<nat>, i: nat)
    requires Consistent(cs, s) && i < |cs| && s.stack == below + [i] && i !in below
    requires forall d: nat | DependsOn(cs, i, d) :: d in s.order
    ensures Consistent(cs, Left(s, i))
  {
    var s' := Left(s, i);
    assert s'.stack == below;
    assert i in s.stack;
    forall j ensures j in s'.stack <==> 0 <= j < |cs| && s'.states[j].Visiting? {
      if j >= 0 { Popped(below, i, j); }
    }
    forall k | 0 <= k < |below| - 1 ensures DependsOn(cs, below[k], below[k + 1]) {
      assert DependsOn(cs, s.stack[k], s.stack[k + 1]);
    }
    AppendLast(cs, s.order, i);
  }

  ghost function Unreached(states: seq<Mark>): set<nat> {
    set i | 0 <= i < |states| && states[i].Unvisited?
  }

  lemma MarkingReaches(states: seq<Mark>, i: nat, m: Mark)
    requires i < |states| && !m.Unvisited?
    ensures Unreached(states[i := m]) == Unreached(states) - {i}
  {
  }

  class Visitor {
    const cs: seq<Component>
    const byName: map<string, nat>
    var states: seq<Mark>
    var stack: seq<nat>
    var order: seq<nat>

    ghost function View(): Search
      reads this
    {
      Search(states, stack, order)
    }

    ghost predicate Valid()
      reads this
    {
      Indexes(cs, byName, |cs|) && ValidDependencies(cs) && Consistent(cs, View())
    }

    constructor (cs: seq<Component>, byName: map<string, nat>)
      requires Indexes(cs, byName, |cs|) && ValidDependencies(cs)
      ensures Valid() && this.cs == cs && stack == [] && order == []
    {
      this.cs, this.byName := cs, byName;
      states, stack, order := seq(|cs|, i => Unvisited), [], [];
    }

    /** Visits a component after everything it depends on, or reports a cycle through it. */
    method Visit(index: nat) returns (cycle: Option<seq<nat>>)
      requires Valid() && index < |cs|
      requires stack != [] ==> DependsOn(cs, stack[|stack| - 1], index)
      modifies this
      ensures Valid()
      ensures Unreached(states) <= Unreached(old(states))
      ensures cycle.None? ==> stack == old(stack) && states[index].Visited?
      ensures forall i | i in old(order) :: i in order
      ensures cycle.Some? ==> (forall i | i in cycle.value :: i < |cs|) && EndsInCycle(cs, cycle.value)
      decreases Unreached(states), 0
    {
      match states[index] {
        case Visited => return None;
        case Visiting =>
          ClosesCycle(cs, stack, index);
          return Some(stack + [index]);
        case Unvisited =>
      }
      Enter(index);
      cycle := VisitAll(index, old(stack));
      if cycle.None? {
        Leave(index, old(stack));
      }
    }

    method Enter(index: nat)
      requires Valid() && index < |cs| && states[index].Unvisited?
      requires stack != [] ==> DependsOn(cs, stack[|stack| - 1], index)
      modifies this
      ensures Valid() && View() == Entered(old(View()), index)
      ensures Unreached(states) < Unreached(old(states))
    {
      EnteredIsConsistent(cs, View(), index);
      MarkingReaches(states, index, Visiting);
      assert index in Unreached(states);
      states := states[index := Visiting];
      stack := stack + [index];
    }

    method Leave(index: nat, ghost below: seq<nat>)
      requires Valid() && index < |cs| && stack == below + [index] && index !in below
      requires forall d: nat | DependsOn(cs, index, d) :: d in order
      modifies this
      ensures Valid() && View() == Left(old(View()), index) && stack == below
      ensures Unreached(states) <= Unreached(old(states))
    {
      LeftIsConsistent(cs, View(), below, index);
      MarkingReaches(states, index, Visited);
      stack := stack[..|stack| - 1];
      states := states[index := Visited];
      order := order + [index];
    }

    /** Visits everything the component on top of the stack depends on, in the order of its list. */
    method VisitAll(index: nat, ghost below: seq<nat>) returns (cycle: Option<seq<nat>>)
      requires Valid() && index < |cs| && stack == below + [index]
      modifies this
      ensures Valid()
      ensures Unreached(states) <= Unreached(old(states))
      ensures cycle.None? ==> stack == below + [index] && forall d: nat | DependsOn(cs, index, d) :: d in order
      ensures forall i | i in old(order) :: i in order
      ensures cycle.Some? ==> (forall i | i in cycle.value :: i < |cs|) && EndsInCycle(cs, cycle.value)
      decreases Unreached(states), 1
    {
      var required := cs[index].dependencies;
      for k := 0 to |required|
        invariant Valid() && stack == below + [index]
        invariant Unreached(states) <= Unreached(old(states))
        invariant forall i | i in old(order) :: i in order
        invariant forall m | 0 <= m < k :: required[m] in byName && byName[required[m]] in order
      {
        assert ValidDependency(cs, index, k);
        cycle := Visit(byName[required[k]]);
        if cycle.Some? {
          return;
        }
        assert byName[required[k]] in order;
      }
      forall d: nat | DependsOn(cs, index, d) ensures d in order {
        assert byName[cs[d].name] == d;
      }
      return None;
    }
  }

  /**
   Succeeds exactly on valid declarations without a cycle, with every component once and dependencies
   first; a reported cycle is a real one. `nodes` are the indices behind the result.
   */
  method SortComponents(cs: seq<Component>) returns (sorting: Sorting, ghost nodes: seq<nat>)
    ensures sorting.Sorted? <==> ValidNames(cs) && ValidDependencies(cs) && Acyclic(cs)
    ensures sorting.Sorted? ==> GoodOrder(cs, nodes) && sorting.order == Listed(cs, nodes)
    ensures sorting.Rejected? && sorting.defect.DependencyCycle? ==>
      (forall i | i in nodes :: i < |cs|) && EndsInCycle(cs, nodes) && sorting.defect.names == NamesOf(cs, nodes)
  {
    var byName, badName := IndexNames(cs);
    if badName.Some? {
      return Rejected(badName.value), [];
    }
    var badDependency := CheckDependencies(cs, byName);
    if badDependency.Some? {
      return Rejected(badDependency.value), [];
    }
    var v := new Visitor(cs, byName);
    for i := 0 to |cs|
      invariant v.Valid() && v.cs == cs && v.stack == []
      invariant forall j | 0 <= j < i :: v.states[j].Visited?
    {
      var cycle := v.Visit(i);
      if cycle.Some? {
        return Rejected(DependencyCycle(NamesOf(cs, cycle.value))), cycle.value;
      }
    }
    OrderedIsAcyclic(cs, v.order);
    return Sorted(Listed(cs, v.order)), v.order;
  }
}
