/**
 Smooth weighted round-robin (selector/weighted.go).

 A node is named by its rank in the byte order of `node.key()`, the order in which
 `Select` visits eligible nodes and breaks ties.
 */
module WeightedRoundRobin {
  import Sets

  type Key = int

  const MAXIMUM_NODE_WEIGHT := 1_000_000

  datatype NodeState = NodeState(weight: int, current: int)

  type Nodes = map<Key, NodeState>

  /** The weight metadata of a discovered node: absent, not an integer, or an integer. */
  datatype Advertised = Missing | Malformed | Parsed(value: int)

  /** A registry snapshot and the nodes built from it; `valid` is the registry's own validation. */
  datatype Snapshot = Snapshot(valid: bool, service: string, revision: string, nodes: map<Key, Advertised>)

  // ---------------------------------------------------------------------------
  // Sums over duplicate-free key lists
  // ---------------------------------------------------------------------------

  ghost predicate Distinct(keys: seq<Key>) {
    forall i, j | 0 <= i < j < |keys| :: keys[i] != keys[j]
  }

  predicate Ascending(keys: seq<Key>) {
    forall i, j | 0 <= i < j < |keys| :: keys[i] < keys[j]
  }

  ghost function Sum(keys: seq<Key>, f: Key -> int): int {
    if keys == [] then 0 else Sum(keys[..|keys| - 1], f) + f(keys[|keys| - 1])
  }

  lemma {:induction false} SumAgree(keys: seq<Key>, f: Key -> int, g: Key -> int)
    requires forall y | y in keys :: f(y) == g(y)
    ensures Sum(keys, f) == Sum(keys, g)
  {
    if keys != [] {
      var last := keys[|keys| - 1];
      SumAgree(keys[..|keys| - 1], f, g);
      assert last in keys;
    }
  }

  /** Changing one summand of a duplicate-free list changes the sum by the same amount. */
  lemma {:induction false} SumPoint(keys: seq<Key>, f: Key -> int, g: Key -> int, x: Key)
    requires Distinct(keys) && x in keys
    requires forall y | y in keys && y != x :: f(y) == g(y)
    ensures Sum(keys, g) == Sum(keys, f) + g(x) - f(x)
  {
    var init, last := keys[..|keys| - 1], keys[|keys| - 1];
    if last == x {
      assert x !in init;
      SumAgree(init, f, g);
    } else {
      SumPoint(init, f, g, x);
    }
  }

  lemma {:induction false} SumAtMostZero(keys: seq<Key>, f: Key -> int)
    requires forall y | y in keys :: f(y) <= 0
    ensures Sum(keys, f) <= 0
  {
    if keys != [] {
      var last := keys[|keys| - 1];
      SumAtMostZero(keys[..|keys| - 1], f);
      assert last in keys;
    }
  }

  /** A pointwise bound summed up. */
  lemma {:induction false} SumLowerBound(keys: seq<Key>, f: Key -> int, low: int)
    requires forall y | y in keys :: low <= f(y)
    ensures |keys| * low <= Sum(keys, f)
  {
    if keys != [] {
      var last := keys[|keys| - 1];
      SumLowerBound(keys[..|keys| - 1], f, low);
      assert last in keys;
      assert |keys| * low == (|keys| - 1) * low + low;
    }
  }

  lemma {:induction false} SumAllButOne(keys: seq<Key>, f: Key -> int, low: int, x: Key)
    requires Distinct(keys) && x in keys
    requires forall y | y in keys && y != x :: low <= f(y)
    ensures (|keys| - 1) * low + f(x) <= Sum(keys, f)
  {
    var init, last := keys[..|keys| - 1], keys[|keys| - 1];
    if last == x {
      assert x !in init;
      SumLowerBound(init, f, low);
    } else {
      SumAllButOne(init, f, low, x);
      assert (|keys| - 1) * low == (|init| - 1) * low + low;
    }
  }

  /** f <= g everywhere and equal sums leave no room for a difference. */
  lemma {:induction false} SumSqueeze(keys: seq<Key>, f: Key -> int, g: Key -> int)
    requires forall y | y in keys :: f(y) <= g(y)
    ensures Sum(keys, f) <= Sum(keys, g)
    ensures Sum(keys, f) == Sum(keys, g) ==> forall y | y in keys :: f(y) == g(y)
  {
    if keys != [] {
      var init, last := keys[..|keys| - 1], keys[|keys| - 1];
      SumSqueeze(init, f, g);
      assert forall y | y in keys :: y in init || y == last;
    }
  }

  // ---------------------------------------------------------------------------
  // One Select
  // ---------------------------------------------------------------------------

  function ChargeOne(nodes: Nodes, k: Key): Nodes {
    if k in nodes then nodes[k := nodes[k].(current := nodes[k].current + nodes[k].weight)] else nodes
  }

  /** Every eligible node that is still known gains its weight. */
  function Charge(nodes: Nodes, eligible: seq<Key>): Nodes {
    if eligible == [] then nodes
    else ChargeOne(Charge(nodes, eligible[..|eligible| - 1]), eligible[|eligible| - 1])
  }

  function WeightOf(nodes: Nodes, k: Key): int {
    if k in nodes then nodes[k].weight else 0
  }

  function CurrentOf(nodes: Nodes, k: Key): int {
    if k in nodes then nodes[k].current else 0
  }

  function TotalWeight(nodes: Nodes, eligible: seq<Key>): int {
    if eligible == [] then 0
    else TotalWeight(nodes, eligible[..|eligible| - 1]) + WeightOf(nodes, eligible[|eligible| - 1])
  }

  /** `k` is chosen: eligible, known, of largest charged value, the smallest such key. */
  ghost predicate IsLeader(charged: Nodes, eligible: seq<Key>, k: Key) {
    && k in eligible && k in charged
    && forall y | y in eligible && y in charged ::
      charged[y].current < charged[k].current || (charged[y].current == charged[k].current && k <= y)
  }

  ghost predicate NoneKnown(nodes: Nodes, eligible: seq<Key>) {
    forall y | y in eligible :: y !in nodes
  }

  function Pay(nodes: Nodes, k: Key, total: int): Nodes
    requires k in nodes
  {
    nodes[k := nodes[k].(current := nodes[k].current - total)]
  }

  lemma {:induction false} ChargeEffect(nodes: Nodes, eligible: seq<Key>)
    requires Distinct(eligible)
    ensures Charge(nodes, eligible).Keys == nodes.Keys
    ensures forall y | y in nodes ::
      Charge(nodes, eligible)[y] ==
      nodes[y].(current := nodes[y].current + if y in eligible then nodes[y].weight else 0)
  {
    if eligible != [] {
      var init, last := eligible[..|eligible| - 1], eligible[|eligible| - 1];
      ChargeEffect(nodes, init);
      assert last !in init;
      assert eligible == init + [last];
    }
  }

  lemma {:induction false} TotalWeightIsSum(nodes: Nodes, eligible: seq<Key>)
    ensures TotalWeight(nodes, eligible) == Sum(eligible, k => WeightOf(nodes, k))
  {
    if eligible != [] {
      TotalWeightIsSum(nodes, eligible[..|eligible| - 1]);
    }
  }

  lemma {:induction false} ChargeSum(nodes: Nodes, eligible: seq<Key>, all: seq<Key>)
    requires Distinct(eligible) && Distinct(all)
    requires forall y | y in eligible && y in nodes :: y in all
    ensures Sum(all, k => CurrentOf(Charge(nodes, eligible), k))
         == Sum(all, k => CurrentOf(nodes, k)) + TotalWeight(nodes, eligible)
  {
    if eligible != [] {
      var init, last := eligible[..|eligible| - 1], eligible[|eligible| - 1];
      ChargeSum(nodes, init, all);
      ChargeEffect(nodes, init);
      assert last !in init;
      var before, after := Charge(nodes, init), Charge(nodes, eligible);
      assert after == ChargeOne(before, last);
      if last in nodes {
        SumPoint(all, k => CurrentOf(before, k), k => CurrentOf(after, k), last);
      }
    }
  }

  /** One successful Select: `k` leads after charging, and pays what everyone was charged. */
  ghost predicate Selects(nodes: Nodes, eligible: seq<Key>, nodes': Nodes, k: Key) {
    var charged := Charge(nodes, eligible);
    IsLeader(charged, eligible, k) && nodes' == Pay(charged, k, TotalWeight(nodes, eligible))
  }

  /**
   Conservation: whatever subset of the nodes is eligible, one Select leaves the sum of `current`
   over all nodes (listed in any order) unchanged.
   */
  lemma SelectConservesCurrent(nodes: Nodes, eligible: seq<Key>, nodes': Nodes, k: Key, all: seq<Key>)
    requires Distinct(eligible) && Selects(nodes, eligible, nodes', k)
    requires Distinct(all) && forall x :: x in all <==> x in nodes
    ensures Sum(all, x => CurrentOf(nodes', x)) == Sum(all, x => CurrentOf(nodes, x))
  {
    ChargeEffect(nodes, eligible);
    ChargeSum(nodes, eligible, all);
    var charged := Charge(nodes, eligible);
    SumPoint(all, x => CurrentOf(charged, x), x => CurrentOf(nodes', x), k);
  }

  // ---------------------------------------------------------------------------
  // Many Selects with a fixed eligible set, from an all-zero state
  // ---------------------------------------------------------------------------

  /** A fixed eligible set: known nodes, each of positive weight. */
  ghost predicate Fixed(nodes: Nodes, eligible: seq<Key>) {
    && eligible != []
    && Distinct(eligible)
    && forall k | k in eligible :: k in nodes && nodes[k].weight > 0
  }

  ghost predicate Zeroed(nodes: Nodes, eligible: seq<Key>) {
    forall k | k in eligible :: CurrentOf(nodes, k) == 0
  }

  ghost predicate SameWeights(nodes: Nodes, nodes': Nodes) {
    nodes.Keys == nodes'.Keys && forall k | k in nodes :: nodes'[k].weight == nodes[k].weight
  }

  /** `states` and `picks` are the history of |picks| Selects, all with the same eligible set. */
  ghost predicate History(states: seq<Nodes>, picks: seq<Key>, eligible: seq<Key>) {
    && |states| == |picks| + 1
    && Fixed(states[0], eligible) && Zeroed(states[0], eligible)
    && forall i | 0 <= i < |picks| :: Selects(states[i], eligible, states[i + 1], picks[i])
  }

  ghost function Count(picks: seq<Key>, x: Key): nat {
    if picks == [] then 0
    else Count(picks[..|picks| - 1], x) + if picks[|picks| - 1] == x then 1 else 0
  }

  lemma {:induction false} CountConcat(a: seq<Key>, b: seq<Key>, x: Key)
    ensures Count(a + b, x) == Count(a, x) + Count(b, x)
  {
    if b == [] {
      assert a + b == a;
    } else {
      assert (a + b)[..|a + b| - 1] == a + b[..|b| - 1];
      CountConcat(a, b[..|b| - 1], x);
    }
  }

  lemma {:induction false} SumOfZeros(keys: seq<Key>, f: Key -> int)
    requires forall y | y in keys :: f(y) == 0
    ensures Sum(keys, f) == 0
  {
    SumAtMostZero(keys, f);
    SumLowerBound(keys, f, 0);
  }

  lemma {:induction false} CountsSumToLength(picks: seq<Key>, eligible: seq<Key>)
    requires Distinct(eligible) && forall i | 0 <= i < |picks| :: picks[i] in eligible
    ensures Sum(eligible, x => Count(picks, x)) == |picks|
  {
    if picks == [] {
      SumOfZeros(eligible, x => Count(picks, x));
    } else {
      var init, last := picks[..|picks| - 1], picks[|picks| - 1];
      CountsSumToLength(init, eligible);
      SumPoint(eligible, x => Count(init, x), x => Count(picks, x), last);
    }
  }

  lemma {:induction false} TotalWeightIsPositive(nodes: Nodes, eligible: seq<Key>)
    requires Fixed(nodes, eligible)
    ensures TotalWeight(nodes, eligible) > 0
  {
    var init := eligible[..|eligible| - 1];
    assert eligible[|eligible| - 1] in eligible;
    if init != [] {
      TotalWeightIsPositive(nodes, init);
    }
  }

  lemma {:induction false} SameWeightsSameTotal(nodes: Nodes, nodes': Nodes, eligible: seq<Key>)
    requires SameWeights(nodes, nodes')
    ensures TotalWeight(nodes', eligible) == TotalWeight(nodes, eligible)
  {
    if eligible != [] {
      SameWeightsSameTotal(nodes, nodes', eligible[..|eligible| - 1]);
    }
  }

  /** The whole effect of one Select on the values, with the recursion of charging resolved. */
  ghost predicate Moved(nodes: Nodes, eligible: seq<Key>, nodes': Nodes, k: Key, W: int) {
    && SameWeights(nodes, nodes') && Fixed(nodes', eligible) && k in eligible
    && (forall x | x in eligible ::
      CurrentOf(nodes', x) == CurrentOf(nodes, x) + WeightOf(nodes, x) - if x == k then W else 0)
    && (forall x | x in nodes && x !in eligible :: nodes'[x] == nodes[x])
  }

  lemma SelectMoves(nodes: Nodes, eligible: seq<Key>, nodes': Nodes, k: Key)
    requires Fixed(nodes, eligible) && Selects(nodes, eligible, nodes', k)
    ensures Moved(nodes, eligible, nodes', k, TotalWeight(nodes, eligible))
  {
    ChargeEffect(nodes, eligible);
  }

  /** Values that sum to zero keep summing to zero, and the node that pays W was above zero before. */
  lemma SelectKeepsBalance(nodes: Nodes, eligible: seq<Key>, nodes': Nodes, k: Key)
    requires Fixed(nodes, eligible) && Selects(nodes, eligible, nodes', k)
    requires Sum(eligible, x => CurrentOf(nodes, x)) == 0
    ensures Sum(eligible, x => CurrentOf(nodes', x)) == 0
    ensures CurrentOf(nodes', k) > -TotalWeight(nodes, eligible)
  {
    ChargeEffect(nodes, eligible);
    ChargeSum(nodes, eligible, eligible);
    TotalWeightIsPositive(nodes, eligible);
    var charged := Charge(nodes, eligible);
    SumPoint(eligible, x => CurrentOf(charged, x), x => CurrentOf(nodes', x), k);
    if charged[k].current <= 0 {
      SumAtMostZero(eligible, x => CurrentOf(charged, x));
      assert false;
    }
  }

  /** After i picks a node is owed exactly i * weight - W * picks, and none has fallen to -W. */
  ghost predicate Owed(start: Nodes, r: Nodes, eligible: seq<Key>, picks: seq<Key>, W: int) {
    && SameWeights(start, r) && Fixed(r, eligible)
    && (forall x | x in start && x !in eligible :: r[x] == start[x])
    && Sum(eligible, x => CurrentOf(r, x)) == 0
    && (forall i | 0 <= i < |picks| :: picks[i] in eligible)
    && (forall x | x in eligible ::
      CurrentOf(r, x) == |picks| * start[x].weight - W * Count(picks, x) > -W)
  }

  lemma {:induction false} Debt(states: seq<Nodes>, picks: seq<Key>, eligible: seq<Key>, i: nat)
    requires History(states, picks, eligible) && i <= |picks|
    ensures Owed(states[0], states[i], eligible, picks[..i], TotalWeight(states[0], eligible))
  {
    var start, W := states[0], TotalWeight(states[0], eligible);
    if i == 0 {
      TotalWeightIsPositive(start, eligible);
      SumOfZeros(eligible, x => CurrentOf(start, x));
    } else {
      Debt(states, picks, eligible, i - 1);
      var r, r', k := states[i - 1], states[i], picks[i - 1];
      SameWeightsSameTotal(start, r, eligible);
      SelectMoves(r, eligible, r', k);
      SelectKeepsBalance(r, eligible, r', k);
      TotalWeightIsPositive(start, eligible);
      DebtStep(start, r, r', eligible, picks[..i - 1], k, W);
      assert picks[..i - 1] + [k] == picks[..i];
    }
  }

  lemma DebtStep(start: Nodes, r: Nodes, r': Nodes, eligible: seq<Key>, picks: seq<Key>, k: Key, W: int)
    requires Fixed(start, eligible) && W > 0
    requires Owed(start, r, eligible, picks, W) && Moved(r, eligible, r', k, W)
    requires Sum(eligible, x => CurrentOf(r', x)) == 0 && CurrentOf(r', k) > -W
    ensures Owed(start, r', eligible, picks + [k], W)
  {
    forall x | x in eligible
      ensures CurrentOf(r', x) == (|picks| + 1) * start[x].weight - W * Count(picks + [k], x) > -W
    {
      assert (picks + [k])[..|picks|] == picks;
      var hit := if x == k then 1 else 0;
      assert W * (Count(picks, x) + hit) == W * Count(picks, x) + W * hit;
      assert (|picks| + 1) * start[x].weight == |picks| * start[x].weight + start[x].weight;
    }
  }

  /**
   No node runs ahead of or behind its share: after any k picks, a node of weight w out of W, among
   n eligible nodes, has been picked c times with  k*w - (n-1)*(W-1) <= W*c < k*w + W.
   */
  lemma ShareBounds(states: seq<Nodes>, picks: seq<Key>, eligible: seq<Key>, x: Key)
    requires History(states, picks, eligible) && x in eligible
    ensures var W, c, w, k := TotalWeight(states[0], eligible), Count(picks, x), states[0][x].weight, |picks|;
            k * w - (|eligible| - 1) * (W - 1) <= W * c < k * w + W
  {
    var W := TotalWeight(states[0], eligible);
    Debt(states, picks, eligible, |picks|);
    assert picks[..|picks|] == picks;
    OthersBoundOne(states[|picks|], eligible, x, W);
  }

  lemma OthersBoundOne(r: Nodes, eligible: seq<Key>, x: Key, W: int)
    requires Distinct(eligible) && x in eligible
    requires Sum(eligible, y => CurrentOf(r, y)) == 0
    requires forall y | y in eligible :: CurrentOf(r, y) > -W
    ensures CurrentOf(r, x) <= (|eligible| - 1) * (W - 1)
  {
    SumAllButOne(eligible, y => CurrentOf(r, y), 1 - W, x);
    assert (|eligible| - 1) * (1 - W) == -((|eligible| - 1) * (W - 1));
  }

  /** After W picks every node has been picked exactly as often as its weight and is back at zero. */
  lemma ExactPeriod(states: seq<Nodes>, picks: seq<Key>, eligible: seq<Key>)
    requires History(states, picks, eligible) && |picks| == TotalWeight(states[0], eligible)
    ensures forall x | x in eligible :: Count(picks, x) == states[0][x].weight
    ensures states[|picks|] == states[0]
  {
    var start, W := states[0], |picks|;
    Debt(states, picks, eligible, W);
    assert picks[..W] == picks;
    var r := states[W];
    OwedNothing(start, r, eligible, picks);
    forall x | x in start ensures r[x] == start[x] {
      if x in eligible {
        assert CurrentOf(r, x) == 0;
      }
    }
  }

  /** W picks, none of which overdrew its node, must have been dealt out exactly by weight. */
  lemma OwedNothing(start: Nodes, r: Nodes, eligible: seq<Key>, picks: seq<Key>)
    requires Fixed(start, eligible) && |picks| == TotalWeight(start, eligible)
    requires Owed(start, r, eligible, picks, |picks|)
    ensures forall x | x in eligible :: Count(picks, x) == start[x].weight && CurrentOf(r, x) == 0
  {
    var W := |picks|;
    TotalWeightIsPositive(start, eligible);
    forall x | x in eligible ensures Count(picks, x) <= WeightOf(start, x) {
      CancelFactor(W, Count(picks, x), start[x].weight);
    }
    CountsSumToLength(picks, eligible);
    TotalWeightIsSum(start, eligible);
    SumSqueeze(eligible, x => Count(picks, x), x => WeightOf(start, x));
    forall x | x in eligible ensures Count(picks, x) == start[x].weight {
      assert Count(picks, x) == WeightOf(start, x);
    }
  }

  lemma CancelFactor(W: int, c: int, w: int)
    requires W > 0 && W * w - W * c > -W
    ensures c <= w
  {
    ProductSign(W, w - c + 1);
    assert W * (w - c + 1) == W * w - W * c + W;
  }

  lemma ProductSign(a: int, b: int)
    requires a > 0
    ensures b <= 0 ==> a * b <= 0
  {
  }

  lemma SelectIsDeterministic(nodes: Nodes, eligible: seq<Key>, a: Nodes, k: Key, b: Nodes, l: Key)
    requires Selects(nodes, eligible, a, k) && Selects(nodes, eligible, b, l)
    ensures a == b && k == l
  {
  }

  lemma {:induction false} Periodic(states: seq<Nodes>, picks: seq<Key>, eligible: seq<Key>, i: nat)
    requires History(states, picks, eligible)
    requires TotalWeight(states[0], eligible) > 0 && i + TotalWeight(states[0], eligible) <= |picks|
    ensures states[i + TotalWeight(states[0], eligible)] == states[i]
  {
    var W := TotalWeight(states[0], eligible);
    if i == 0 {
      assert History(states[..W + 1], picks[..W], eligible);
      ExactPeriod(states[..W + 1], picks[..W], eligible);
    } else {
      Periodic(states, picks, eligible, i - 1);
      SelectIsDeterministic(states[i - 1], eligible, states[i], picks[i - 1],
                            states[i - 1 + W + 1], picks[i - 1 + W]);
    }
  }

  /** Exact proportionality of every window: any W consecutive Selects pick node x weight(x) times. */
  lemma EveryWindowIsExact(states: seq<Nodes>, picks: seq<Key>, eligible: seq<Key>, from: nat, x: Key)
    requires History(states, picks, eligible) && x in eligible
    requires from <= |picks| == from + TotalWeight(states[0], eligible)
    ensures Count(picks[from..], x) == states[0][x].weight
  {
    var W := TotalWeight(states[0], eligible);
    TotalWeightIsPositive(states[0], eligible);
    Periodic(states, picks, eligible, from);
    Debt(states, picks, eligible, from);
    Debt(states, picks, eligible, from + W);
    assert picks[..from + W] == picks;
    OwedTwice(states[0], states[from], eligible, picks, from, W, x);
  }

  /** Between two visits of the same state, W picks apart, a node is picked by weight. */
  lemma OwedTwice(start: Nodes, r: Nodes, eligible: seq<Key>, picks: seq<Key>, from: nat, W: int, x: Key)
    requires Fixed(start, eligible) && x in eligible && W > 0 && from <= |picks| == from + W
    requires Owed(start, r, eligible, picks[..from], W) && Owed(start, r, eligible, picks, W)
    ensures Count(picks[from..], x) == start[x].weight
  {
    assert picks == picks[..from] + picks[from..];
    CountConcat(picks[..from], picks[from..], x);
    WindowShare(W, start[x].weight, from, Count(picks[..from], x), Count(picks[from..], x));
  }

  lemma WindowShare(W: int, w: int, from: int, before: int, window: int)
    requires W > 0 && from * w - W * before == (from + W) * w - W * (before + window)
    ensures window == w
  {
    assert (from + W) * w == from * w + W * w;
    assert W * (before + window) == W * before + W * window;
    assert W * (window - w) == W * window - W * w == 0;
  }

  // ---------------------------------------------------------------------------
  // The selector object
  // ---------------------------------------------------------------------------

  datatype SelectError = ServiceMismatch | NoNodes
  datatype Selection = Selected(key: Key) | Refused(error: SelectError)

  predicate ValidWeight(a: Advertised) {
    a.Missing? || (a.Parsed? && 0 < a.value <= MAXIMUM_NODE_WEIGHT)
  }

  function NodeWeight(a: Advertised): int
    requires ValidWeight(a)
  {
    if a.Missing? then 1 else a.value
  }

  class Selector {
    var service: string
    var revision: string
    var nodes: Nodes

    constructor ()
      ensures service == "" && revision == "" && nodes == map[]
    {
      service, revision, nodes := "", "", map[];
    }

    /** Replaces the node set; a surviving node keeps its scheduling state. */
    method Update(snapshot: Snapshot) returns (ok: bool)
      modifies this
      ensures ok <==> snapshot.valid && forall k | k in snapshot.nodes ::
        snapshot.nodes[k].Missing? || (snapshot.nodes[k].Parsed? && 0 < snapshot.nodes[k].value <= 1_000_000)
      ensures !ok || (old(service) == snapshot.service && old(revision) == snapshot.revision) ==>
        service == old(service) && revision == old(revision) && nodes == old(nodes)
      ensures ok && !(old(service) == snapshot.service && old(revision) == snapshot.revision) ==>
        && service == snapshot.service && revision == snapshot.revision
        && nodes.Keys == snapshot.nodes.Keys
        && (forall k | k in snapshot.nodes :: nodes[k].current == if k in old(nodes) then old(nodes[k].current) else 0)
        && (forall k | k in snapshot.nodes && snapshot.nodes[k].Missing? :: nodes[k].weight == 1)
        && (forall k | k in snapshot.nodes && snapshot.nodes[k].Parsed? ::
              nodes[k].weight == snapshot.nodes[k].value)
    {
      if !snapshot.valid {
        return false;
      }
      var weights: map<Key, int> := map[];
      var rest := snapshot.nodes.Keys;
      while rest != {}
        modifies {}
        invariant rest <= snapshot.nodes.Keys
        invariant weights.Keys == snapshot.nodes.Keys - rest
        invariant forall k | k in weights ::
          ValidWeight(snapshot.nodes[k]) && weights[k] == NodeWeight(snapshot.nodes[k])
        decreases rest
      {
        var k := Sets.Choose(rest);
        if !ValidWeight(snapshot.nodes[k]) {
          return false;
        }
        weights := weights[k := NodeWeight(snapshot.nodes[k])];
        rest := rest - {k};
      }
      if service == snapshot.service && revision == snapshot.revision {
        return true;
      }
      var next: Nodes := map[];
      rest := snapshot.nodes.Keys;
      while rest != {}
        modifies {}
        invariant rest <= snapshot.nodes.Keys
        invariant next.Keys == snapshot.nodes.Keys - rest
        invariant forall k | k in next :: next[k] == NodeState(weights[k], CurrentOf(nodes, k))
        decreases rest
      {
        var k := Sets.Choose(rest);
        next := next[k := NodeState(weights[k], CurrentOf(nodes, k))];
        rest := rest - {k};
      }
      service, revision, nodes := snapshot.service, snapshot.revision, next;
      return true;
    }

    /** One turn of the selection loop: charge the node, then compare it with the candidate. */
    method Consider(k: Key, chosen: Selection, total: int) returns (chosen': Selection, total': int)
      requires chosen.Selected? ==> chosen.key in nodes
      modifies this`nodes
      ensures nodes == ChargeOne(old(nodes), k) && total' == total + WeightOf(old(nodes), k)
      ensures chosen' == if TakesLead(nodes, k, chosen) then Selected(k) else chosen
    {
      chosen', total' := chosen, total;
      if k in nodes {
        nodes := nodes[k := nodes[k].(current := nodes[k].current + nodes[k].weight)];
        total' := total + nodes[k].weight;
        if chosen.Refused?
          || nodes[k].current > nodes[chosen.key].current
          || (nodes[k].current == nodes[chosen.key].current && k < chosen.key) {
          chosen' := Selected(k);
        }
      }
    }

    /**
     One selection. `eligible` is the ascending list left by filters, observers and preference
     tiers; nodes removed since it was computed are skipped.
     */
    method Select(operationService: string, eligible: seq<Key>) returns (result: Selection)
      requires Ascending(eligible)
      modifies this`nodes
      ensures result == Refused(ServiceMismatch) <==> service != "" && operationService != service
      ensures result == Refused(NoNodes) <==>
        (service == "" || operationService == service) && NoneKnown(old(nodes), eligible)
      ensures result.Refused? <==> result == Refused(ServiceMismatch) || result == Refused(NoNodes)
      ensures result.Refused? ==> nodes == old(nodes)
      ensures result.Selected? ==> Selects(old(nodes), eligible, nodes, result.key)
    {
      if service != "" && operationService != service {
        return Refused(ServiceMismatch);
      }
      ghost var start := nodes;
      var chosen: Selection := Refused(NoNodes);
      var total := 0;
      var i := 0;
      while i < |eligible|
        invariant 0 <= i <= |eligible|
        invariant nodes == Charge(start, eligible[..i])
        invariant total == TotalWeight(start, eligible[..i])
        invariant Leading(nodes, eligible[..i], chosen)
      {
        ChargeStep(start, eligible, i);
        LeadingStep(nodes, eligible[..i], eligible[i], chosen);
        assert eligible[..i + 1] == eligible[..i] + [eligible[i]];
        chosen, total := Consider(eligible[i], chosen, total);
        i := i + 1;
      }
      assert eligible[..i] == eligible;
      ChargeEffect(start, eligible);
      if chosen.Refused? {
        UnknownChargeNothing(start, eligible);
        return chosen;
      }
      nodes := nodes[chosen.key := nodes[chosen.key].(current := nodes[chosen.key].current - total)];
      return chosen;
    }
  }

  /** What a node asked for: one by default, otherwise its own figure. */
  ghost function Share(nodes: map<Key, Advertised>, k: Key): int {
    if k !in nodes || nodes[k].Malformed? then 0 else if nodes[k].Missing? then 1 else nodes[k].value
  }

  lemma {:induction false} SharesAreWeights(asked: map<Key, Advertised>, nodes: Nodes, eligible: seq<Key>)
    requires forall k | k in eligible :: k in nodes && nodes[k].weight == Share(asked, k)
    ensures TotalWeight(nodes, eligible) == Sum(eligible, k => Share(asked, k))
  {
    TotalWeightIsSum(nodes, eligible);
    SumAgree(eligible, k => WeightOf(nodes, k), k => Share(asked, k));
  }

  lemma WindowIsAsAsked(states: seq<Nodes>, picks: seq<Key>, eligible: seq<Key>, asked: map<Key, Advertised>,
                        from: nat, to: nat, k: Key)
    requires History(states, picks, eligible) && k in eligible && from <= to <= |picks|
    requires forall y | y in eligible :: states[0][y].weight == Share(asked, y)
    requires to - from == Sum(eligible, y => Share(asked, y))
    ensures Count(picks[from..to], k) == Share(asked, k)
  {
    SharesAreWeights(asked, states[0], eligible);
    assert History(states[..to + 1], picks[..to], eligible);
    EveryWindowIsExact(states[..to + 1], picks[..to], eligible, from, k);
    assert picks[..to][from..] == picks[from..to];
  }

  /**
   A new selector given one accepted snapshot and asked again and again over nodes of it: each stretch of
   picks as long as the shares together picks every node exactly as often as it asked for. A snapshot that
   passes the registry's validation names its service.
   */
  method Deal(snapshot: Snapshot, eligible: seq<Key>, n: nat) returns (ok: bool, picks: seq<Key>)
    requires snapshot.valid ==> snapshot.service != ""
    requires Ascending(eligible) && eligible != [] && forall k | k in eligible :: k in snapshot.nodes
    ensures ok <==> snapshot.valid && forall k | k in snapshot.nodes ::
      snapshot.nodes[k].Missing? || (snapshot.nodes[k].Parsed? && 0 < snapshot.nodes[k].value <= 1_000_000)
    ensures ok ==> |picks| == n
    ensures ok ==> forall from, to, k | 0 <= from <= to <= n && k in eligible
                && to - from == Sum(eligible, y => Share(snapshot.nodes, y)) ::
      Count(picks[from..to], k) == Share(snapshot.nodes, k)
  {
    ghost var first := eligible[0];
    assert first in eligible && first in snapshot.nodes;
    var selector := new Selector();
    ok := selector.Update(snapshot);
    picks := [];
    if ok {
      ghost var states := [selector.nodes];
      assert forall k | k in eligible :: Share(snapshot.nodes, k) > 0;
      while |picks| < n
        invariant fresh(selector) && |picks| <= n && selector.service == snapshot.service
        invariant selector.nodes.Keys == snapshot.nodes.Keys
        invariant History(states, picks, eligible) && states[|picks|] == selector.nodes
        invariant forall k | k in eligible :: states[0][k].weight == Share(snapshot.nodes, k)
        decreases n - |picks|
      {
        assert !NoneKnown(selector.nodes, eligible) by {
          assert first in eligible && first in selector.nodes;
        }
        ChargeEffect(selector.nodes, eligible);
        var result := selector.Select(snapshot.service, eligible);
        picks, states := picks + [result.key], states + [selector.nodes];
      }
      forall from, to, k | 0 <= from <= to <= n && k in eligible
                        && to - from == Sum(eligible, y => Share(snapshot.nodes, y))
        ensures Count(picks[from..to], k) == Share(snapshot.nodes, k)
      {
        WindowIsAsAsked(states, picks, eligible, snapshot.nodes, from, to, k);
      }
    }
  }

  /** The later node takes the lead if it has more, or as much and a smaller key. */
  predicate TakesLead(charged: Nodes, k: Key, chosen: Selection)
    requires chosen.Selected? ==> chosen.key in charged
  {
    && k in charged
    && (|| chosen.Refused?
        || charged[k].current > charged[chosen.key].current
        || (charged[k].current == charged[chosen.key].current && k < chosen.key))
  }

  /** What the selection loop knows about its candidate after a prefix of the eligible nodes. */
  ghost predicate Leading(charged: Nodes, prefix: seq<Key>, chosen: Selection) {
    match chosen
    case Selected(k) => IsLeader(charged, prefix, k)
    case Refused(error) => error == NoNodes && NoneKnown(charged, prefix)
  }

  lemma LeadingStep(nodes: Nodes, prefix: seq<Key>, k: Key, chosen: Selection)
    requires Leading(nodes, prefix, chosen) && forall y | y in prefix :: y < k
    ensures var after := ChargeOne(nodes, k);
            Leading(after, prefix + [k], if TakesLead(after, k, chosen) then Selected(k) else chosen)
  {
  }

  lemma ChargeStep(start: Nodes, eligible: seq<Key>, i: nat)
    requires i < |eligible| && Distinct(eligible)
    ensures Charge(start, eligible[..i + 1]) == ChargeOne(Charge(start, eligible[..i]), eligible[i])
    ensures TotalWeight(start, eligible[..i + 1])
         == TotalWeight(start, eligible[..i]) + WeightOf(Charge(start, eligible[..i]), eligible[i])
  {
    ChargeEffect(start, eligible[..i]);
    assert eligible[..i + 1][..i] == eligible[..i];
  }

  lemma {:induction false} UnknownChargeNothing(nodes: Nodes, eligible: seq<Key>)
    requires NoneKnown(nodes, eligible)
    ensures Charge(nodes, eligible) == nodes
  {
    if eligible != [] {
      UnknownChargeNothing(nodes, eligible[..|eligible| - 1]);
    }
  }
}
