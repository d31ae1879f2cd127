/**
 Feature flags (feature/store.go): definitions are compiled once, with every check made then, and evaluated
 against targeting facts without further checks.
 */
module Feature {
  import opened Wrappers

  const MAX_FLAGS: nat := 1024
  const MAX_VARIATIONS: nat := 64
  const MAX_RULES: nat := 64
  const MAX_CONDITIONS: nat := 16
  const MAX_VALUES: nat := 32
  const MAX_TEXT: nat := 65536
  const BASIS_POINTS: nat := 10000
  const TARGETING_KEY := "targeting_key"

  datatype Kind = BooleanKind | TextKind | IntegerKind | FloatKind | NoKind

  datatype Value = Boolean(flag: bool) | Text(text: string) | Integer(int) | Float(real) | Untyped

  function KindOf(v: Value): Kind {
    match v
    case Boolean(_) => BooleanKind
    case Text(_) => TextKind
    case Integer(_) => IntegerKind
    case Float(_) => FloatKind
    case Untyped => NoKind
  }

  predicate ValidValue(v: Value) {
    match v
    case Text(text) => |text| <= MAX_TEXT
    case Untyped => false
    case _ => true
  }

  datatype Operator = Exists | NotExists | Equals | NotEquals | OneOf | NotOneOf | Prefix | Suffix | Unsupported

  datatype Condition = Condition(attribute: string, operator: Operator, values: seq<string>)

  datatype Allocation = Allocation(variation: string, basisPoints: nat)

  datatype Rule = Rule(name: string, conditions: seq<Condition>, variation: string, rollout: seq<Allocation>)

  datatype Variation = Variation(name: string, value: Value)

  datatype Flag = Flag(key: string, defaultVariation: string, variations: seq<Variation>, rules: seq<Rule>)

  datatype Definition = Definition(revision: string, flags: seq<Flag>)

  /** The checks on the wording of identities, flag keys, attributes and comparison values. */
  datatype Wording = Wording(
    identity: string -> bool, flagKey: string -> bool, attribute: string -> bool, comparison: string -> bool)

  // ---------------------------------------------------------------------------
  // What a definition must satisfy
  // ---------------------------------------------------------------------------

  predicate HasValues(c: Condition) {
    match c.operator
    case Exists => c.values == []
    case NotExists => c.values == []
    case OneOf => c.values != []
    case NotOneOf => c.values != []
    case Unsupported => false
    case _ => |c.values| == 1
  }

  predicate ValidCondition(wd: Wording, c: Condition) {
    && (wd.attribute(c.attribute) || c.attribute == TARGETING_KEY)
    && |c.values| <= MAX_VALUES
    && (forall i | 0 <= i < |c.values| :: wd.comparison(c.values[i]))
    && HasValues(c)
  }

  function Total(rollout: seq<Allocation>): nat {
    if rollout == [] then 0 else rollout[0].basisPoints + Total(rollout[1..])
  }

  predicate ValidRollout(rollout: seq<Allocation>, variations: map<string, Value>) {
    && (forall i | 0 <= i < |rollout| :: rollout[i].basisPoints > 0 && rollout[i].variation in variations)
    && Total(rollout) == BASIS_POINTS
  }

  predicate ValidRule(wd: Wording, r: Rule, variations: map<string, Value>) {
    && wd.identity(r.name)
    && 1 <= |r.conditions| <= MAX_CONDITIONS
    && (r.variation == "" <==> r.rollout != [])
    && (forall i | 0 <= i < |r.conditions| :: ValidCondition(wd, r.conditions[i]))
    && (if r.variation != "" then r.variation in variations else ValidRollout(r.rollout, variations))
  }

  ghost predicate Unlike(names: seq<string>) {
    forall i, j | 0 <= i < j < |names| :: names[i] != names[j]
  }

  lemma UnlikeStep(names: seq<string>, i: nat)
    requires i < |names|
    ensures Unlike(names[..i + 1]) <==> Unlike(names[..i]) && names[i] !in names[..i]
    ensures Unlike(names) ==> Unlike(names[..i + 1])
  {
    var longer, shorter := names[..i + 1], names[..i];
    if Unlike(longer) {
      forall j, k | 0 <= j < k < |shorter| ensures shorter[j] != shorter[k] {
        assert longer[j] != longer[k];
      }
      forall j | 0 <= j < |shorter| ensures shorter[j] != names[i] {
        assert longer[j] != longer[i];
      }
    }
  }

  function VariationNames(vs: seq<Variation>): seq<string> {
    seq(|vs|, i requires 0 <= i < |vs| => vs[i].name)
  }

  function RuleNames(rs: seq<Rule>): seq<string> {
    seq(|rs|, i requires 0 <= i < |rs| => rs[i].name)
  }

  function FlagKeys(fs: seq<Flag>): seq<string> {
    seq(|fs|, i requires 0 <= i < |fs| => fs[i].key)
  }

  function VariationMap(vs: seq<Variation>): map<string, Value> {
    if vs == [] then map[] else VariationMap(vs[..|vs| - 1])[vs[|vs| - 1].name := vs[|vs| - 1].value]
  }

  predicate ValidVariation(wd: Wording, vs: seq<Variation>, i: nat)
    requires i < |vs|
  {
    wd.identity(vs[i].name) && ValidValue(vs[i].value) && KindOf(vs[i].value) == KindOf(vs[0].value)
  }

  ghost predicate ValidVariations(wd: Wording, vs: seq<Variation>) {
    Unlike(VariationNames(vs)) && forall i | 0 <= i < |vs| :: ValidVariation(wd, vs, i)
  }

  ghost predicate ValidRules(wd: Wording, rs: seq<Rule>, variations: map<string, Value>) {
    Unlike(RuleNames(rs)) && forall i | 0 <= i < |rs| :: ValidRule(wd, rs[i], variations)
  }

  ghost predicate ValidFlag(wd: Wording, f: Flag) {
    && 1 <= |f.variations| <= MAX_VARIATIONS && |f.rules| <= MAX_RULES
    && ValidVariations(wd, f.variations)
    && f.defaultVariation in VariationMap(f.variations)
    && ValidRules(wd, f.rules, VariationMap(f.variations))
  }

  ghost predicate ValidEntry(wd: Wording, f: Flag) {
    wd.flagKey(f.key) && ValidFlag(wd, f)
  }

  ghost predicate ValidEntries(wd: Wording, fs: seq<Flag>) {
    forall i | 0 <= i < |fs| :: ValidEntry(wd, fs[i])
  }

  ghost predicate ValidFlags(wd: Wording, fs: seq<Flag>) {
    Unlike(FlagKeys(fs)) && ValidEntries(wd, fs)
  }

  ghost predicate ValidDefinition(wd: Wording, d: Definition) {
    wd.identity(d.revision) && |d.flags| <= MAX_FLAGS && ValidFlags(wd, d.flags)
  }

  // ---------------------------------------------------------------------------
  // Compiled flags
  // ---------------------------------------------------------------------------

  datatype CompiledFlag = CompiledFlag(
    kind: Kind, defaultVariation: string, variations: map<string, Value>, rules: seq<Rule>)

  datatype Snapshot = Snapshot(revision: string, flags: map<string, CompiledFlag>)

  predicate SoundRule(r: Rule, variations: map<string, Value>) {
    && (forall i | 0 <= i < |r.conditions| :: HasValues(r.conditions[i]))
    && (if r.variation != "" then r.variation in variations else ValidRollout(r.rollout, variations))
  }

  /** Everything an evaluation may read is there and has the right kind. */
  predicate Sound(f: CompiledFlag) {
    && f.defaultVariation in f.variations
    && (forall name | name in f.variations :: ValidValue(f.variations[name]) && KindOf(f.variations[name]) == f.kind)
    && (forall i | 0 <= i < |f.rules| :: SoundRule(f.rules[i], f.variations))
  }

  predicate SoundSnapshot(s: Snapshot) {
    forall key | key in s.flags :: Sound(s.flags[key])
  }

  function FirstKind(vs: seq<Variation>): Kind {
    if vs == [] then NoKind else KindOf(vs[0].value)
  }

  function Compiled(f: Flag): CompiledFlag {
    CompiledFlag(FirstKind(f.variations), f.defaultVariation, VariationMap(f.variations), f.rules)
  }

  function CompiledFlags(fs: seq<Flag>): map<string, CompiledFlag> {
    if fs == [] then map[] else CompiledFlags(fs[..|fs| - 1])[fs[|fs| - 1].key := Compiled(fs[|fs| - 1])]
  }

  lemma {:induction false} VariationsAreListed(vs: seq<Variation>, name: string)
    ensures name in VariationMap(vs) <==> name in VariationNames(vs)
    ensures name in VariationMap(vs) ==>
      exists i | 0 <= i < |vs| :: vs[i].name == name && VariationMap(vs)[name] == vs[i].value
  {
    if vs != [] {
      var init, last := vs[..|vs| - 1], vs[|vs| - 1];
      VariationsAreListed(init, name);
      assert VariationNames(vs) == VariationNames(init) + [last.name];
      if name == last.name {
        assert vs[|vs| - 1].name == name;
      } else if name in VariationMap(init) {
        var i :| 0 <= i < |init| && init[i].name == name && VariationMap(init)[name] == init[i].value;
        assert vs[i] == init[i];
      }
    }
  }

  /** Exactly the listed flags are compiled, and with distinct keys each under its own. */
  lemma {:induction false} FlagsAreListed(fs: seq<Flag>, key: string)
    ensures key in CompiledFlags(fs) <==> key in FlagKeys(fs)
    ensures key in CompiledFlags(fs) ==>
      exists i | 0 <= i < |fs| :: fs[i].key == key && CompiledFlags(fs)[key] == Compiled(fs[i])
  {
    if fs != [] {
      var init, last := fs[..|fs| - 1], fs[|fs| - 1];
      FlagsAreListed(init, key);
      assert FlagKeys(fs) == FlagKeys(init) + [last.key];
      if key == last.key {
        assert fs[|fs| - 1].key == key;
      } else if key in CompiledFlags(init) {
        var i :| 0 <= i < |init| && init[i].key == key && CompiledFlags(init)[key] == Compiled(init[i]);
        assert fs[i] == init[i];
      }
    }
  }

  /** A valid flag compiles to a sound one. */
  lemma CompiledIsSound(wd: Wording, f: Flag)
    requires ValidFlag(wd, f)
    ensures Sound(Compiled(f))
  {
    var c := Compiled(f);
    forall name | name in c.variations ensures ValidValue(c.variations[name]) && KindOf(c.variations[name]) == c.kind {
      VariationsAreListed(f.variations, name);
      var i :| 0 <= i < |f.variations| && f.variations[i].name == name && c.variations[name] == f.variations[i].value;
      assert ValidVariation(wd, f.variations, i);
    }
  }

  lemma CompiledFlagsAreSound(wd: Wording, fs: seq<Flag>, key: string)
    requires ValidFlags(wd, fs) && key in CompiledFlags(fs)
    ensures Sound(CompiledFlags(fs)[key])
  {
    FlagsAreListed(fs, key);
    var i :| 0 <= i < |fs| && fs[i].key == key && CompiledFlags(fs)[key] == Compiled(fs[i]);
    assert ValidEntry(wd, fs[i]);
    CompiledIsSound(wd, fs[i]);
  }

  method ValidateCondition(wd: Wording, c: Condition) returns (ok: bool)
    ensures ok <==> ValidCondition(wd, c)
    ensures ok <==>
      && (wd.attribute(c.attribute) || c.attribute == "targeting_key")
      && (forall i | 0 <= i < |c.values| :: wd.comparison(c.values[i]))
      && match c.operator
         case Exists => |c.values| == 0
         case NotExists => |c.values| == 0
         case OneOf => 1 <= |c.values| <= 32
         case NotOneOf => 1 <= |c.values| <= 32
         case Unsupported => false
         case _ => |c.values| == 1
  {
    if !wd.attribute(c.attribute) && c.attribute != TARGETING_KEY {
      return false;
    }
    if |c.values| > MAX_VALUES {
      return false;
    }
    for i := 0 to |c.values|
      invariant forall j | 0 <= j < i :: wd.comparison(c.values[j])
    {
      if !wd.comparison(c.values[i]) {
        return false;
      }
    }
    match c.operator {
      case Exists => return |c.values| == 0;
      case NotExists => return |c.values| == 0;
      case Equals => return |c.values| == 1;
      case NotEquals => return |c.values| == 1;
      case Prefix => return |c.values| == 1;
      case Suffix => return |c.values| == 1;
      case OneOf => return |c.values| != 0;
      case NotOneOf => return |c.values| != 0;
      case Unsupported => return false;
    }
  }

  lemma {:induction false} TotalGrows(rollout: seq<Allocation>, i: nat)
    requires i < |rollout|
    ensures Total(rollout[..i + 1]) == Total(rollout[..i]) + rollout[i].basisPoints
    decreases i
  {
    if i == 0 {
      assert rollout[..1][1..] == [] && rollout[..0] == [];
    } else {
      assert rollout[..i + 1][1..] == rollout[1..][..i];
      assert rollout[..i][1..] == rollout[1..][..i - 1];
      TotalGrows(rollout[1..], i - 1);
    }
  }

  method CompileRule(wd: Wording, r: Rule, variations: map<string, Value>) returns (ok: bool)
    ensures ok <==> ValidRule(wd, r, variations)
    ensures ok <==>
      && wd.identity(r.name) && 1 <= |r.conditions| <= 16
      && (forall i | 0 <= i < |r.conditions| :: ValidCondition(wd, r.conditions[i]))
      && (if r.variation != "" then r.rollout == [] && r.variation in variations
          else
            && Total(r.rollout) == 10_000
            && forall i | 0 <= i < |r.rollout| :: r.rollout[i].basisPoints > 0 && r.rollout[i].variation in variations)
  {
    if !wd.identity(r.name) || |r.conditions| == 0 || |r.conditions| > MAX_CONDITIONS {
      return false;
    }
    if (r.variation == "") == (|r.rollout| == 0) {
      return false;
    }
    for i := 0 to |r.conditions|
      invariant forall j | 0 <= j < i :: ValidCondition(wd, r.conditions[j])
    {
      var valid := ValidateCondition(wd, r.conditions[i]);
      if !valid {
        return false;
      }
    }
    if r.variation != "" {
      return r.variation in variations;
    }
    var total := 0;
    for i := 0 to |r.rollout|
      invariant total == Total(r.rollout[..i])
      invariant forall j | 0 <= j < i :: r.rollout[j].basisPoints > 0 && r.rollout[j].variation in variations
    {
      if r.rollout[i].basisPoints == 0 || r.rollout[i].variation !in variations {
        return false;
      }
      TotalGrows(r.rollout, i);
      total := total + r.rollout[i].basisPoints;
    }
    assert r.rollout[..|r.rollout|] == r.rollout;
    return total == BASIS_POINTS;
  }

  method CompileVariations(wd: Wording, vs: seq<Variation>) returns (variations: Option<map<string, Value>>)
    requires vs != []
    ensures variations == if ValidVariations(wd, vs) then Some(VariationMap(vs)) else None
  {
    var result: map<string, Value> := map[];
    ghost var names := VariationNames(vs);
    for i := 0 to |vs|
      invariant result == VariationMap(vs[..i]) && Unlike(names[..i])
      invariant forall j | 0 <= j < i :: ValidVariation(wd, vs, j)
    {
      var v := vs[i];
      UnlikeStep(names, i);
      VariationsAreListed(vs[..i], v.name);
      assert VariationNames(vs[..i]) == names[..i];
      assert ValidVariations(wd, vs) ==> ValidVariation(wd, vs, i);
      if !wd.identity(v.name) || !ValidValue(v.value) {
        return None;
      }
      if v.name in result {
        return None;
      }
      if i > 0 && KindOf(v.value) != KindOf(vs[0].value) {
        return None;
      }
      result := result[v.name := v.value];
      assert vs[..i + 1][..i] == vs[..i];
    }
    assert vs[..|vs|] == vs && names[..|vs|] == names;
    return Some(result);
  }

  method CompileRules(wd: Wording, rs: seq<Rule>, variations: map<string, Value>) returns (ok: bool)
    ensures ok <==> ValidRules(wd, rs, variations)
  {
    var seen: set<string> := {};
    ghost var names := RuleNames(rs);
    for i := 0 to |rs|
      invariant Unlike(names[..i]) && forall name :: name in seen <==> name in names[..i]
      invariant forall j | 0 <= j < i :: ValidRule(wd, rs[j], variations)
    {
      UnlikeStep(names, i);
      assert ValidRules(wd, rs, variations) ==> ValidRule(wd, rs[i], variations);
      var valid := CompileRule(wd, rs[i], variations);
      if !valid || rs[i].name in seen {
        return false;
      }
      seen := seen + {rs[i].name};
      assert names[..i + 1] == names[..i] + [rs[i].name];
    }
    assert names[..|rs|] == names;
    return true;
  }

  method CompileFlag(wd: Wording, f: Flag) returns (compiled: Option<CompiledFlag>)
    ensures compiled.Some? <==> ValidFlag(wd, f)
    ensures compiled.Some? ==> compiled.value == Compiled(f)
  {
    if |f.variations| == 0 || |f.variations| > MAX_VARIATIONS || |f.rules| > MAX_RULES {
      return None;
    }
    var variations := CompileVariations(wd, f.variations);
    if variations.None? || f.defaultVariation !in variations.value {
      return None;
    }
    var ok := CompileRules(wd, f.rules, variations.value);
    if !ok {
      return None;
    }
    return Some(CompiledFlag(KindOf(f.variations[0].value), f.defaultVariation, variations.value, f.rules));
  }

  lemma NextEntry(wd: Wording, fs: seq<Flag>, i: nat)
    requires i < |fs|
    ensures ValidEntries(wd, fs[..i + 1]) <==> ValidEntries(wd, fs[..i]) && ValidEntry(wd, fs[i])
    ensures ValidEntries(wd, fs) ==> ValidEntries(wd, fs[..i + 1])
  {
    var longer, shorter := fs[..i + 1], fs[..i];
    assert longer == shorter + [fs[i]];
    if ValidEntries(wd, longer) {
      assert ValidEntry(wd, longer[i]);
      forall j | 0 <= j < i ensures ValidEntry(wd, shorter[j]) {
        assert ValidEntry(wd, longer[j]);
      }
    }
  }

  lemma NextKey(fs: seq<Flag>, i: nat)
    requires i < |fs|
    ensures CompiledFlags(fs[..i + 1]) == CompiledFlags(fs[..i])[fs[i].key := Compiled(fs[i])]
    ensures Unlike(FlagKeys(fs[..i + 1])) <==> Unlike(FlagKeys(fs[..i])) && fs[i].key !in CompiledFlags(fs[..i])
    ensures Unlike(FlagKeys(fs)) ==> Unlike(FlagKeys(fs[..i + 1]))
  {
    var keys := FlagKeys(fs);
    FlagsAreListed(fs[..i], fs[i].key);
    UnlikeStep(keys, i);
    assert FlagKeys(fs[..i]) == keys[..i] && FlagKeys(fs[..i + 1]) == keys[..i + 1];
    assert fs[..i + 1][..i] == fs[..i];
  }

  method CompileEntry(wd: Wording, f: Flag) returns (compiled: Option<CompiledFlag>)
    ensures compiled == if ValidEntry(wd, f) then Some(Compiled(f)) else None
  {
    if !wd.flagKey(f.key) {
      return None;
    }
    compiled := CompileFlag(wd, f);
  }

  method CompileFlags(wd: Wording, fs: seq<Flag>) returns (compiled: Option<map<string, CompiledFlag>>)
    ensures compiled == if ValidFlags(wd, fs) then Some(CompiledFlags(fs)) else None
  {
    var flags: map<string, CompiledFlag> := map[];
    for i := 0 to |fs|
      invariant flags == CompiledFlags(fs[..i]) && ValidFlags(wd, fs[..i])
    {
      NextKey(fs, i);
      NextEntry(wd, fs, i);
      var flag := CompileEntry(wd, fs[i]);
      if flag.None? || fs[i].key in flags {
        return None;
      }
      flags := flags[fs[i].key := flag.value];
    }
    assert fs[..|fs|] == fs;
    return Some(flags);
  }

  /** Accepts exactly the valid definitions; every flag of an accepted one is compiled and sound. */
  method CompileDefinition(wd: Wording, d: Definition) returns (snapshot: Option<Snapshot>)
    ensures snapshot == if ValidDefinition(wd, d) then Some(Snapshot(d.revision, CompiledFlags(d.flags))) else None
    ensures snapshot.Some? ==> SoundSnapshot(snapshot.value)
  {
    if !wd.identity(d.revision) || |d.flags| > MAX_FLAGS {
      return None;
    }
    var flags := CompileFlags(wd, d.flags);
    if flags.None? {
      return None;
    }
    forall key | key in flags.value ensures Sound(flags.value[key]) {
      CompiledFlagsAreSound(wd, d.flags, key);
    }
    return Some(Snapshot(d.revision, flags.value));
  }

  // ---------------------------------------------------------------------------
  // Percentage rollouts
  // ---------------------------------------------------------------------------

  /** The allocation that owns a bucket. */
  function Owner(rollout: seq<Allocation>, bucket: nat): (i: nat)
    requires bucket < Total(rollout)
    ensures i < |rollout|
  {
    if bucket < rollout[0].basisPoints then 0 else 1 + Owner(rollout[1..], bucket - rollout[0].basisPoints)
  }

  /** An allocation owns exactly the buckets after all earlier ones, as many as its basis points. */
  lemma {:induction false} OwnerOwnsInterval(rollout: seq<Allocation>, bucket: nat, i: nat)
    requires bucket < Total(rollout) && i < |rollout|
    ensures Owner(rollout, bucket) == i <==>
      Total(rollout[..i]) <= bucket < Total(rollout[..i]) + rollout[i].basisPoints
    decreases |rollout|
  {
    if i > 0 {
      assert rollout[..i][1..] == rollout[1..][..i - 1];
      if bucket >= rollout[0].basisPoints {
        OwnerOwnsInterval(rollout[1..], bucket - rollout[0].basisPoints, i - 1);
      }
    }
  }

  ghost function Interval(low: nat, high: nat): (s: set<nat>)
    requires low <= high
    ensures forall b :: b in s <==> low <= b < high
    ensures |s| == high - low
    decreases high - low
  {
    if low == high then {} else Interval(low, high - 1) + {high - 1}
  }

  /** The buckets that fall to one allocation. */
  ghost function Buckets(rollout: seq<Allocation>, i: nat): set<nat> {
    set b | b in Interval(0, Total(rollout)) && Owner(rollout, b) == i
  }

  lemma {:induction false} PrefixTotal(rollout: seq<Allocation>, i: nat)
    requires i <= |rollout|
    ensures Total(rollout[..i]) <= Total(rollout)
    decreases |rollout|
  {
    if i > 0 {
      assert rollout[..i][1..] == rollout[1..][..i - 1];
      PrefixTotal(rollout[1..], i - 1);
    }
  }

  /** Each allocation receives exactly its basis points of all the buckets. */
  lemma SharesAreExact(rollout: seq<Allocation>, i: nat)
    requires i < |rollout|
    ensures |Buckets(rollout, i)| == rollout[i].basisPoints
  {
    var low := Total(rollout[..i]);
    var high := low + rollout[i].basisPoints;
    TotalGrows(rollout, i);
    PrefixTotal(rollout, i + 1);
    forall b ensures b in Buckets(rollout, i) <==> b in Interval(low, high) {
      if 0 <= b < Total(rollout) {
        OwnerOwnsInterval(rollout, b, i);
      }
    }
    assert Buckets(rollout, i) == Interval(low, high);
  }

  /** The running upper bound always meets the bucket, so nothing is left over after the loop. */
  method RolloutVariation(rollout: seq<Allocation>, bucket: nat) returns (variation: string)
    requires Total(rollout) == BASIS_POINTS && bucket < BASIS_POINTS
    ensures variation == rollout[Owner(rollout, bucket)].variation
  {
    var upper, i := 0, 0;
    assert rollout[..|rollout|] == rollout;
    while i < |rollout|
      invariant i <= |rollout| && upper == Total(rollout[..i]) && upper <= bucket
    {
      TotalGrows(rollout, i);
      upper := upper + rollout[i].basisPoints;
      if bucket < upper {
        OwnerOwnsInterval(rollout, bucket, i);
        return rollout[i].variation;
      }
      i := i + 1;
    }
    assert false;
  }

  // ---------------------------------------------------------------------------
  // Evaluation
  // ---------------------------------------------------------------------------

  datatype Facts = Facts(targetingKey: string, attributes: map<string, string>)

  function Attribute(facts: Facts, key: string): Option<string> {
    if key == TARGETING_KEY then (if facts.targetingKey != "" then Some(facts.targetingKey) else None)
    else if key in facts.attributes then Some(facts.attributes[key])
    else None
  }

  /** The condition values read here are all present. */
  predicate Matches(c: Condition, v: Option<string>)
    requires HasValues(c)
  {
    match c.operator
    case Exists => v.Some?
    case NotExists => v.None?
    case Equals => v.Some? && v.value == c.values[0]
    case NotEquals => v.Some? && v.value != c.values[0]
    case Prefix => v.Some? && c.values[0] <= v.value
    case Suffix =>
      v.Some? && |c.values[0]| <= |v.value| && v.value[|v.value| - |c.values[0]|..] == c.values[0]
    case OneOf => v.Some? && v.value in c.values
    case NotOneOf => v.Some? && v.value !in c.values
    case Unsupported => false
  }

  /** The operators, each by what it says of the text; an absent attribute matches NotExists and nothing else. */
  lemma OperatorsMean(c: Condition, v: Option<string>)
    requires HasValues(c)
    ensures v.None? ==> (Matches(c, v) <==> c.operator == NotExists)
    ensures v.Some? ==>
      match c.operator
      case Exists => Matches(c, v)
      case NotExists => !Matches(c, v)
      case Equals => Matches(c, v) <==> [v.value] == c.values
      case NotEquals => Matches(c, v) <==> [v.value] != c.values
      case Prefix => Matches(c, v) <==> exists rest :: v.value == c.values[0] + rest
      case Suffix => Matches(c, v) <==> exists rest :: v.value == rest + c.values[0]
      case OneOf => Matches(c, v) <==> exists i :: 0 <= i < |c.values| && c.values[i] == v.value
      case NotOneOf => Matches(c, v) <==> forall i | 0 <= i < |c.values| :: c.values[i] != v.value
      case Unsupported => true
  {
    if v.Some? {
      match c.operator
      case Prefix =>
        if c.values[0] <= v.value {
          assert v.value == c.values[0] + v.value[|c.values[0]|..];
        }
      case Suffix =>
        var cut := |v.value| - |c.values[0]|;
        if cut >= 0 && v.value[cut..] == c.values[0] {
          assert v.value == v.value[..cut] + c.values[0];
        }
        if rest :| v.value == rest + c.values[0] {
          assert v.value[|rest|..] == c.values[0];
        }
      case _ =>
    }
  }

  /** The reserved name reads the targeting key, where an empty one is absent, and hides any attribute so called. */
  lemma ReservedAttribute(facts: Facts, key: string)
    ensures Attribute(facts, key) ==
      if key != "targeting_key" then (if key in facts.attributes then Some(facts.attributes[key]) else None)
      else if facts.targetingKey == "" then None
      else Some(facts.targetingKey)
  {
  }

  predicate Applies(r: Rule, variations: map<string, Value>, facts: Facts)
    requires SoundRule(r, variations)
  {
    && (forall i | 0 <= i < |r.conditions| :: Matches(r.conditions[i], Attribute(facts, r.conditions[i].attribute)))
    && (r.variation != "" || facts.targetingKey != "")
  }

  /** The bucket of a target; `digest` stands for the number read from the hash of the three names. */
  function Bucket(digest: (string, string, string) -> nat, key: string, r: Rule, facts: Facts): (b: nat)
    ensures b < BASIS_POINTS
  {
    digest(key, r.name, facts.targetingKey) % BASIS_POINTS
  }

  datatype Reason = Default | ByRule | Percentage | Fallback

  /** The first rule that applies decides; without one the default does. */
  ghost predicate Selects(
    digest: (string, string, string) -> nat, key: string, f: CompiledFlag, facts: Facts, i: nat,
    reason: Reason, variant: string)
    requires Sound(f)
  {
    && i <= |f.rules|
    && (forall j | 0 <= j < i :: !Applies(f.rules[j], f.variations, facts))
    && (if i == |f.rules| then reason == Default && variant == f.defaultVariation
        else
          var r := f.rules[i];
          && Applies(r, f.variations, facts)
          && (if r.variation != "" then reason == ByRule && variant == r.variation
              else
                && reason == Percentage
                && variant == r.rollout[Owner(r.rollout, Bucket(digest, key, r, facts))].variation))
  }

  /**
   A percentage rule gives a target the allocation whose stretch of the ten thousand buckets, laid end to end in
   order, holds the remainder of its digest.
   */
  lemma PercentageIsByDigest(digest: (string, string, string) -> nat, key: string, f: CompiledFlag, facts: Facts,
                             i: nat, n: nat, variant: string)
    requires Sound(f) && Selects(digest, key, f, facts, i, Percentage, variant) && n < |f.rules[i].rollout|
    requires var rollout := f.rules[i].rollout;
             Total(rollout[..n]) <= digest(key, f.rules[i].name, facts.targetingKey) % 10_000
               < Total(rollout[..n]) + rollout[n].basisPoints
    ensures facts.targetingKey != "" && variant == f.rules[i].rollout[n].variation
  {
    assert SoundRule(f.rules[i], f.variations);
    OwnerOwnsInterval(f.rules[i].rollout, Bucket(digest, key, f.rules[i], facts), n);
  }

  /** The selection is unique, names an existing variation and yields a valid value of the flag's kind. */
  lemma SelectionIsSound(
      digest: (string, string, string) -> nat, key: string, f: CompiledFlag, facts: Facts,
      i: nat, reason: Reason, variant: string, i': nat, reason': Reason, variant': string)
    requires Sound(f)
    requires Selects(digest, key, f, facts, i, reason, variant) && Selects(digest, key, f, facts, i', reason', variant')
    ensures i == i' && reason == reason' && variant == variant'
    ensures variant in f.variations && ValidValue(f.variations[variant]) && KindOf(f.variations[variant]) == f.kind
  {
  }

  /** Some condition of the rule does not match. */
  ghost predicate Unmet(r: Rule, variations: map<string, Value>, facts: Facts)
    requires SoundRule(r, variations)
  {
    exists k | 0 <= k < |r.conditions| :: !Matches(r.conditions[k], Attribute(facts, r.conditions[k].attribute))
  }

  /** Every rule passed over has an unmet condition or is a percentage rule without a target; the deciding one not. */
  lemma SelectionMeans(digest: (string, string, string) -> nat, key: string, f: CompiledFlag, facts: Facts, i: nat,
                       reason: Reason, variant: string)
    requires Sound(f) && Selects(digest, key, f, facts, i, reason, variant)
    ensures i == |f.rules| <==> reason == Default
    ensures forall j | 0 <= j < i ::
      Unmet(f.rules[j], f.variations, facts) || (f.rules[j].variation == "" && facts.targetingKey == "")
    ensures i < |f.rules| ==>
      !Unmet(f.rules[i], f.variations, facts) && (f.rules[i].variation == "" ==> facts.targetingKey != "")
  {
    forall j | 0 <= j < i
      ensures Unmet(f.rules[j], f.variations, facts) || (f.rules[j].variation == "" && facts.targetingKey == "")
    {
      assert !Applies(f.rules[j], f.variations, facts);
    }
  }

  method MatchesAll(r: Rule, variations: map<string, Value>, facts: Facts) returns (all: bool)
    requires SoundRule(r, variations)
    ensures all <==>
      forall i | 0 <= i < |r.conditions| :: Matches(r.conditions[i], Attribute(facts, r.conditions[i].attribute))
  {
    for i := 0 to |r.conditions|
      invariant forall j | 0 <= j < i :: Matches(r.conditions[j], Attribute(facts, r.conditions[j].attribute))
    {
      if !Matches(r.conditions[i], Attribute(facts, r.conditions[i].attribute)) {
        return false;
      }
    }
    return true;
  }

  method Select(digest: (string, string, string) -> nat, key: string, f: CompiledFlag, facts: Facts)
    returns (reason: Reason, variant: string)
    requires Sound(f)
    ensures exists i :: Selects(digest, key, f, facts, i, reason, variant)
  {
    for i := 0 to |f.rules|
      invariant forall j | 0 <= j < i :: !Applies(f.rules[j], f.variations, facts)
    {
      var r := f.rules[i];
      assert SoundRule(r, f.variations);
      var all := MatchesAll(r, f.variations, facts);
      if all && r.variation != "" {
        assert Selects(digest, key, f, facts, i, ByRule, r.variation);
        return ByRule, r.variation;
      }
      if all && facts.targetingKey != "" {
        variant := RolloutVariation(r.rollout, Bucket(digest, key, r, facts));
        assert Selects(digest, key, f, facts, i, Percentage, variant);
        return Percentage, variant;
      }
    }
    assert Selects(digest, key, f, facts, |f.rules|, Default, f.defaultVariation);
    return Default, f.defaultVariation;
  }

  // ---------------------------------------------------------------------------
  // The store
  // ---------------------------------------------------------------------------

  datatype ErrorCode = NoError | InvalidContext | FlagNotFound | TypeMismatch | NotReady | Canceled

  datatype Evaluation = Evaluation(value: Value, reason: Reason, variant: string, error: ErrorCode)

  datatype Context = NilContext | CanceledContext | Targeting(facts: Facts)

  datatype Counters = Counters(evaluations: nat, defaults: nat, rules: nat, percentages: nat, fallbacks: nat)

  function Counted(c: Counters, reason: Reason): Counters {
    match reason
    case Default => c.(defaults := c.defaults + 1)
    case ByRule => c.(rules := c.rules + 1)
    case Percentage => c.(percentages := c.percentages + 1)
    case Fallback => c.(fallbacks := c.fallbacks + 1)
  }

  function ErrorOf(s: Option<Snapshot>, ctx: Context, key: string, fallback: Value): ErrorCode {
    if s.None? then NotReady
    else if ctx.NilContext? then InvalidContext
    else if ctx.CanceledContext? then Canceled
    else if key !in s.value.flags then FlagNotFound
    else if !ValidValue(fallback) || KindOf(fallback) != s.value.flags[key].kind then TypeMismatch
    else NoError
  }

  class Store {
    const wording: Wording
    const digest: (string, string, string) -> nat
    var current: Option<Snapshot>
    var counters: Counters
    var updates: nat

    ghost predicate Valid()
      reads this
    {
      && (current.Some? ==> SoundSnapshot(current.value))
      && counters.evaluations == counters.defaults + counters.rules + counters.percentages + counters.fallbacks
    }

    constructor (wording: Wording, digest: (string, string, string) -> nat)
      ensures Valid() && this.wording == wording && this.digest == digest
      ensures current == None && counters == Counters(0, 0, 0, 0, 0) && updates == 0
    {
      this.wording, this.digest := wording, digest;
      current, counters, updates := None, Counters(0, 0, 0, 0, 0), 0;
    }

    /** An invalid definition leaves the current one, and a known revision is ignored. */
    method Update(d: Definition) returns (changed: bool)
      requires Valid()
      modifies this`current, this`updates
      ensures Valid()
      ensures changed <==>
        ValidDefinition(wording, d) && (old(current).None? || old(current).value.revision != d.revision)
      ensures current == if changed then Some(Snapshot(d.revision, CompiledFlags(d.flags))) else old(current)
      ensures updates == old(updates) + if changed then 1 else 0
    {
      if current.Some? && current.value.revision == d.revision {
        return false;
      }
      var next := CompileDefinition(wording, d);
      if next.None? {
        return false;
      }
      current := next;
      updates := updates + 1;
      return true;
    }

    /** Every evaluation of a ready store is counted under exactly one reason. */
    method Evaluate(ctx: Context, key: string, fallback: Value) returns (e: Evaluation)
      requires Valid()
      modifies this`counters
      ensures Valid()
      ensures e.error == ErrorOf(current, ctx, key, fallback)
      ensures e.error.NotReady? <==> current.None?
      ensures e.error.InvalidContext? <==> current.Some? && ctx.NilContext?
      ensures e.error.Canceled? <==> current.Some? && ctx.CanceledContext?
      ensures e.error.FlagNotFound? <==> current.Some? && ctx.Targeting? && key !in current.value.flags
      ensures e.error.TypeMismatch? <==>
        && current.Some? && ctx.Targeting? && key in current.value.flags
        && (|| fallback.Untyped? || (fallback.Text? && |fallback.text| > 65536)
            || KindOf(fallback) != current.value.flags[key].kind)
      ensures e.error.NoError? ==>
        var f := current.value.flags[key];
        && (exists i :: Selects(digest, key, f, ctx.facts, i, e.reason, e.variant))
        && e.variant in f.variations && e.value == f.variations[e.variant]
        && ValidValue(e.value) && KindOf(e.value) == KindOf(fallback)
      ensures !e.error.NoError? ==> e.value == fallback && e.reason == Fallback
      ensures counters == if e.error.NotReady? then old(counters)
                          else Counted(old(counters).(evaluations := old(counters).evaluations + 1), e.reason)
    {
      if current.None? {
        return Evaluation(fallback, Fallback, "", NotReady);
      }
      counters := counters.(evaluations := counters.evaluations + 1);
      var error := ErrorOf(current, ctx, key, fallback);
      if !error.NoError? {
        counters := Counted(counters, Fallback);
        return Evaluation(fallback, Fallback, "", error);
      }
      var f := current.value.flags[key];
      assert Sound(f);
      var reason, variant := Select(digest, key, f, ctx.facts);
      ghost var i :| Selects(digest, key, f, ctx.facts, i, reason, variant);
      SelectionIsSound(digest, key, f, ctx.facts, i, reason, variant, i, reason, variant);
      counters := Counted(counters, reason);
      return Evaluation(f.variations[variant], reason, variant, NoError);
    }
  }

  // ---------------------------------------------------------------------------
  // Concurrent evaluations
  // ---------------------------------------------------------------------------

  type Published = s: Snapshot | SoundSnapshot(s) witness Snapshot("", map[])

  datatype Question = Question(ctx: Context, key: string, fallback: Value)

  /** An evaluation in progress; `seen` is the snapshot it evaluates, once it has read it. */
  datatype Pending = Pending(asked: Question, seen: Option<Published>)

  datatype Answer = Answer(asked: Question, seen: Option<Published>, reason: Reason)

  datatype World = World(
    current: Option<Published>, counters: Counters, inside: map<nat, Pending>, answers: seq<Answer>)

  /** An update, or one of the steps of an evaluation: count it, read the snapshot, count its reason. */
  datatype Event = Publish(snapshot: Published) | Enter(id: nat, asked: Question) | Look(id: nat) | Leave(id: nat)

  function Start(): World {
    World(None, Counters(0, 0, 0, 0, 0), map[], [])
  }

  function FirstRule(f: CompiledFlag, facts: Facts, i: nat): (n: nat)
    requires Sound(f) && i <= |f.rules|
    ensures i <= n <= |f.rules|
    ensures forall j | i <= j < n :: !Applies(f.rules[j], f.variations, facts)
    ensures n < |f.rules| ==> Applies(f.rules[n], f.variations, facts)
    decreases |f.rules| - i
  {
    if i == |f.rules| || Applies(f.rules[i], f.variations, facts) then i else FirstRule(f, facts, i + 1)
  }

  /** The reason an evaluation of this snapshot is counted under. */
  function ReasonOf(s: Published, q: Question): Reason {
    if !ErrorOf(Some(s), q.ctx, q.key, q.fallback).NoError? then Fallback
    else
      var f := s.flags[q.key];
      var i := FirstRule(f, q.ctx.facts, 0);
      if i == |f.rules| then Default else if f.rules[i].variation != "" then ByRule else Percentage
  }

  /** An evaluation that fails on its context does not read the snapshot. */
  predicate CanLeave(p: Pending) {
    p.seen.Some? || !p.asked.ctx.Targeting?
  }

  function Step(w: World, e: Event): World {
    match e
    case Publish(snapshot) => w.(current := Some(snapshot))
    case Enter(id, asked) =>
      if w.current.None? || id in w.inside then w
      else w.(counters := w.counters.(evaluations := w.counters.evaluations + 1),
              inside := w.inside[id := Pending(asked, None)])
    case Look(id) =>
      if id !in w.inside || w.inside[id].seen.Some? then w
      else w.(inside := w.inside[id := Pending(w.inside[id].asked, w.current)])
    case Leave(id) =>
      if id !in w.inside || !CanLeave(w.inside[id]) then w
      else
        var p := w.inside[id];
        var reason := if p.seen.Some? then ReasonOf(p.seen.value, p.asked) else Fallback;
        w.(counters := Counted(w.counters, reason), inside := w.inside - {id},
           answers := w.answers + [Answer(p.asked, p.seen, reason)])
  }

  function Run(es: seq<Event>): World {
    if es == [] then Start() else Step(Run(es[..|es| - 1]), es[|es| - 1])
  }

  ghost function Given(answers: seq<Answer>, reason: Reason): nat {
    if answers == [] then 0
    else Given(answers[..|answers| - 1], reason) + if answers[|answers| - 1].reason == reason then 1 else 0
  }

  lemma GivenOneMore(answers: seq<Answer>, a: Answer, reason: Reason)
    ensures Given(answers + [a], reason) == Given(answers, reason) + if a.reason == reason then 1 else 0
  {
    assert (answers + [a])[..|answers|] == answers;
  }

  lemma {:induction false} EveryAnswerHasAReason(answers: seq<Answer>)
    ensures Given(answers, Default) + Given(answers, ByRule) + Given(answers, Percentage) + Given(answers, Fallback)
         == |answers|
  {
    if answers != [] {
      EveryAnswerHasAReason(answers[..|answers| - 1]);
    }
  }

  /** A fallback means an error; any other reason is the one the first applicable rule, or the default, calls for. */
  ghost predicate Right(digest: (string, string, string) -> nat, a: Answer) {
    if a.seen.None? then a.reason == Fallback && !a.asked.ctx.Targeting?
    else
      var s, q := a.seen.value, a.asked;
      var error := ErrorOf(Some(s), q.ctx, q.key, q.fallback);
      && (a.reason == Fallback <==> !error.NoError?)
      && (error.NoError? ==>
        exists i, variant :: Selects(digest, q.key, s.flags[q.key], q.ctx.facts, i, a.reason, variant))
  }

  lemma ReasonIsRight(digest: (string, string, string) -> nat, s: Published, q: Question)
    ensures Right(digest, Answer(q, Some(s), ReasonOf(s, q)))
  {
    if ErrorOf(Some(s), q.ctx, q.key, q.fallback).NoError? {
      var f := s.flags[q.key];
      var i := FirstRule(f, q.ctx.facts, 0);
      if i == |f.rules| {
        assert Selects(digest, q.key, f, q.ctx.facts, i, Default, f.defaultVariation);
      } else if f.rules[i].variation != "" {
        assert Selects(digest, q.key, f, q.ctx.facts, i, ByRule, f.rules[i].variation);
      } else {
        var r := f.rules[i];
        assert SoundRule(r, f.variations);
        var variant := r.rollout[Owner(r.rollout, Bucket(digest, q.key, r, q.ctx.facts))].variation;
        assert Selects(digest, q.key, f, q.ctx.facts, i, Percentage, variant);
      }
    }
  }

  ghost predicate Tallied(c: Counters, answers: seq<Answer>, inside: nat) {
    && c.evaluations == |answers| + inside
    && c.defaults == Given(answers, Default) && c.rules == Given(answers, ByRule)
    && c.percentages == Given(answers, Percentage) && c.fallbacks == Given(answers, Fallback)
  }

  lemma StepIsTallied(w: World, e: Event)
    requires Tallied(w.counters, w.answers, |w.inside|)
    ensures var w' := Step(w, e); Tallied(w'.counters, w'.answers, |w'.inside|)
  {
    if e.Leave? && e.id in w.inside && CanLeave(w.inside[e.id]) {
      var a := Step(w, e).answers[|w.answers|];
      GivenOneMore(w.answers, a, Default);
      GivenOneMore(w.answers, a, ByRule);
      GivenOneMore(w.answers, a, Percentage);
      GivenOneMore(w.answers, a, Fallback);
      assert (w.inside - {e.id}).Keys == w.inside.Keys - {e.id};
    } else if e.Look? && e.id in w.inside {
      assert Step(w, e).inside.Keys == w.inside.Keys;
    }
  }

  lemma {:induction false} EveryRunIsTallied(es: seq<Event>)
    ensures Tallied(Run(es).counters, Run(es).answers, |Run(es).inside|)
  {
    if es != [] {
      EveryRunIsTallied(es[..|es| - 1]);
      StepIsTallied(Run(es[..|es| - 1]), es[|es| - 1]);
    }
  }

  /** However evaluations and updates overlap, each evaluation is counted once begun and once under its reason. */
  lemma {:induction false} CountersBalance(es: seq<Event>)
    ensures var c := Run(es).counters;
            c.evaluations == c.defaults + c.rules + c.percentages + c.fallbacks + |Run(es).inside|
  {
    EveryRunIsTallied(es);
    EveryAnswerHasAReason(Run(es).answers);
  }

  /** Every evaluation that ended was counted under the reason its own snapshot calls for. */
  lemma {:induction false} ReasonsAreRight(digest: (string, string, string) -> nat, es: seq<Event>, n: nat)
    requires n < |Run(es).answers|
    ensures Right(digest, Run(es).answers[n])
  {
    var init, e := es[..|es| - 1], es[|es| - 1];
    var w := Run(init);
    if n < |w.answers| {
      ReasonsAreRight(digest, init, n);
    } else {
      var p := w.inside[e.id];
      if p.seen.Some? {
        ReasonIsRight(digest, p.seen.value, p.asked);
      }
    }
  }
}
