/**
 * The value-level rules behind the system capability: how a configuration
 * key is read, how a condition rule text is split and evaluated, how world
 * rules keep a backup of their first value, which event probability a
 * threat level steers, and how the time dilation follows `SetTimeScale`.
 */
module SystemRules {
  import opened Util
  import opened Text
  import opened NodeTypes

  // ---------------------------------------------------------------------
  // Configuration keys
  // ---------------------------------------------------------------------

  /** The configuration keys the system capability recognises. */
  datatype ConfigKey =
    | TimeScaleKey | MaxRelationsKey | SpawnRadiusKey | MaxGeneratedKey | ModifierKey
    | ConditionKey(condition: string) | RuleKey(rule: string) | ProbabilityKey(event: string)
    | OtherKey

  /**
   * How `ApplyConfigValue` reads a key: five field names compared as
   * `FString` compares them (ignoring case), then the Condition_, Rule_
   * and Probability_ prefixes, which are chopped off to leave the id.
   */
  function ConfigKeyOf(key: string): ConfigKey
  {
    if EqualsIgnoreCase(key, "TimeScale") then TimeScaleKey
    else if EqualsIgnoreCase(key, "MaxRelationships") then MaxRelationsKey
    else if EqualsIgnoreCase(key, "SpawnRadius") then SpawnRadiusKey
    else if EqualsIgnoreCase(key, "MaxGeneratedNodes") then MaxGeneratedKey
    else if EqualsIgnoreCase(key, "GlobalProbabilityModifier") then ModifierKey
    else if StartsWithIgnoreCase(key, "Condition_") then ConditionKey(RightChop(key, 10))
    else if StartsWithIgnoreCase(key, "Rule_") then RuleKey(RightChop(key, 5))
    else if StartsWithIgnoreCase(key, "Probability_") then ProbabilityKey(RightChop(key, 12))
    else OtherKey
  }

  /** Every field name selects its field, and each prefix hands over exactly the id after it. */
  lemma ConfigKeysSelect(key: string, id: string)
    ensures EqualsIgnoreCase(key, "TimeScale") ==> ConfigKeyOf(key) == TimeScaleKey
    ensures EqualsIgnoreCase(key, "MaxRelationships") ==> ConfigKeyOf(key) == MaxRelationsKey
    ensures EqualsIgnoreCase(key, "SpawnRadius") ==> ConfigKeyOf(key) == SpawnRadiusKey
    ensures EqualsIgnoreCase(key, "MaxGeneratedNodes") ==> ConfigKeyOf(key) == MaxGeneratedKey
    ensures EqualsIgnoreCase(key, "GlobalProbabilityModifier") ==> ConfigKeyOf(key) == ModifierKey
    ensures ConfigKeyOf("Condition_" + id) == ConditionKey(id)
    ensures ConfigKeyOf("Rule_" + id) == RuleKey(id)
    ensures ConfigKeyOf("Probability_" + id) == ProbabilityKey(id)
  {
    ConditionSelects(id);
    RuleSelects(id);
    ProbabilitySelects(id);
  }

  lemma ConditionSelects(id: string)
    ensures ConfigKeyOf("Condition_" + id) == ConditionKey(id)
  {
    var k := "Condition_" + id;
    ChopPrefix("Condition_", id);
    LetterApart(k, "Condition_", "TimeScale", 0);
    LetterApart(k, "Condition_", "MaxRelationships", 0);
    LetterApart(k, "Condition_", "SpawnRadius", 0);
    LetterApart(k, "Condition_", "MaxGeneratedNodes", 0);
    LetterApart(k, "Condition_", "GlobalProbabilityModifier", 0);
  }

  lemma RuleSelects(id: string)
    ensures ConfigKeyOf("Rule_" + id) == RuleKey(id)
  {
    var k := "Rule_" + id;
    ChopPrefix("Rule_", id);
    LetterApart(k, "Rule_", "TimeScale", 0);
    LetterApart(k, "Rule_", "MaxRelationships", 0);
    LetterApart(k, "Rule_", "SpawnRadius", 0);
    LetterApart(k, "Rule_", "MaxGeneratedNodes", 0);
    LetterApart(k, "Rule_", "GlobalProbabilityModifier", 0);
    LetterApart(k, "Rule_", "Condition_", 0);
  }

  lemma ProbabilitySelects(id: string)
    ensures ConfigKeyOf("Probability_" + id) == ProbabilityKey(id)
  {
    var k := "Probability_" + id;
    ChopPrefix("Probability_", id);
    LetterApart(k, "Probability_", "TimeScale", 0);
    LetterApart(k, "Probability_", "MaxRelationships", 0);
    LetterApart(k, "Probability_", "SpawnRadius", 0);
    LetterApart(k, "Probability_", "MaxGeneratedNodes", 0);
    LetterApart(k, "Probability_", "GlobalProbabilityModifier", 0);
    LetterApart(k, "Probability_", "Condition_", 0);
    LetterApart(k, "Probability_", "Rule_", 0);
  }

  // ---------------------------------------------------------------------
  // Splitting a rule text
  // ---------------------------------------------------------------------

  /** Whether `d` occurs in `s` at position `i`. */
  predicate MatchAt(s: string, d: string, i: int)
  {
    0 <= i && i + |d| <= |s| && s[i..i + |d|] == d
  }

  /**
   * The first position from `from` on at which `d` occurs in `s`, as
   * `FCString::Strstr` finds it (comparing exactly).
   */
  function FindFrom(s: string, d: string, from: nat): (r: Option<nat>)
    requires d != ""
    ensures r.Some? ==> from <= r.value && MatchAt(s, d, r.value)
    ensures r.Some? ==> forall i :: from <= i < r.value ==> !MatchAt(s, d, i)
    ensures r.None? ==> forall i :: from <= i ==> !MatchAt(s, d, i)
    decreases |s| - from
  {
    if from + |d| > |s| then None
    else if MatchAt(s, d, from) then Some(from)
    else FindFrom(s, d, from + 1)
  }

  /** A position holding a character other than the first of `d` is no match. */
  lemma NoMatchAt(s: string, d: string, i: int)
    requires d != "" && 0 <= i < |s| && s[i] != d[0]
    ensures !MatchAt(s, d, i)
  {
    if i + |d| <= |s| {
      assert s[i..i + |d|][0] == s[i];
    }
  }

  /** The pieces of `s` between the occurrences of `d`, empty ones included. */
  function Pieces(s: string, d: string): seq<string>
    requires d != ""
    decreases |s|
  {
    var at := FindFrom(s, d, 0);
    if at.None? then [s] else [s[..at.value]] + Pieces(s[at.value + |d|..], d)
  }

  /** `FString::ParseIntoArray(parts, d)` with the default culling of empty pieces. */
  function Split(s: string, d: string): seq<string>
    requires d != ""
  {
    NonEmpty(Pieces(s, d))
  }

  /** A text without the first character of `d` is one piece. */
  lemma OnePiece(b: string, d: string)
    requires d != "" && d[0] !in b
    ensures Pieces(b, d) == [b]
  {
    forall i | 0 <= i < |b|
      ensures !MatchAt(b, d, i)
    {
      NoMatchAt(b, d, i);
    }
  }

  /**
   * Two non-empty texts that do not contain the first character of `d`,
   * joined by `d`, split back into exactly those two texts.
   */
  lemma SplitAround(a: string, b: string, d: string)
    requires d != "" && a != "" && b != "" && d[0] !in a && d[0] !in b
    ensures Split(a + d + b, d) == [a, b]
  {
    var s := a + d + b;
    forall i | 0 <= i < |a|
      ensures !MatchAt(s, d, i)
    {
      assert s[i] == a[i];
      NoMatchAt(s, d, i);
    }
    assert s[|a|..|a| + |d|] == d;
    assert MatchAt(s, d, |a|);
    assert FindFrom(s, d, 0) == Some(|a|);
    assert s[..|a|] == a && s[|a| + |d|..] == b;
    OnePiece(b, d);
    assert Pieces(s, d) == [a, b];
    NonEmptyKeepsFull([a, b]);
  }

  /** A text with no white space at either end is left alone by trimming. */
  lemma TrimmedAlready(x: string)
    requires x != "" && !IsSpace(x[0]) && !IsSpace(x[|x| - 1])
    ensures Trim(x) == x
  {
  }

  /** Digits contain no character that is not a digit. */
  lemma DigitsLack(s: string, c: char)
    requires AllDigits(s) && !IsDigit(c)
    ensures c !in s
  {
    forall i | 0 <= i < |s|
      ensures s[i] != c
    {
      assert IsDigit(s[i]);
    }
  }

  /** A text whose first letter differs, up to case, from the first letter of `p` does not start with `p`. */
  lemma NotPrefixed(s: string, p: string)
    requires s != "" && p != "" && Lower(s[0]) != Lower(p[0])
    ensures !StartsWithIgnoreCase(s, p)
  {
    if |p| <= |s| {
      assert s[..|p|][0] == s[0];
    }
  }

  // ---------------------------------------------------------------------
  // Evaluating a condition rule
  // ---------------------------------------------------------------------

  /** Every stored event probability is a probability. */
  predicate ProbabilitiesInRange(probabilities: map<string, real>)
  {
    forall k :: k in probabilities ==> 0.0 <= probabilities[k] <= 1.0
  }

  /** `GetEventProbability`: the stored probability scaled by the global modifier, 0 when none is stored. */
  function Effective(probabilities: map<string, real>, modifier: real, id: string): (r: real)
    ensures id !in probabilities ==> r == 0.0
    ensures id in probabilities && 0.0 <= probabilities[id] <= 1.0 && 0.0 <= modifier ==> 0.0 <= r <= modifier
  {
    if id in probabilities then probabilities[id] * modifier else 0.0
  }

  /**
   * Whether a node in state `s` has the state that `static_cast` makes of
   * the number `n`: the enum's underlying type is 8 bits wide, so `n` is
   * taken modulo 256.
   */
  predicate StateIs(s: NodeState, n: int)
  {
    StateOrdinal(s) == n % 256
  }

  /** The part of a NodeState rule after its prefix: "<id>==<n>", the node registered and in state `n`. */
  predicate NodeStateHolds(body: string, nodes: map<string, NodeState>)
  {
    var parts := Split(body, "==");
    |parts| == 2 && Trim(parts[0]) in nodes && StateIs(nodes[Trim(parts[0])], Atoi(Trim(parts[1])))
  }

  /** A comparison rule "<a>><b>": the number `a` is larger than `b`. */
  predicate ComparisonHolds(rule: string)
  {
    var parts := Split(rule, ">");
    |parts| == 2 && Atof(Trim(parts[0])) > Atof(Trim(parts[1]))
  }

  /**
   * `EvaluateConditionRule`, with the manager's registered nodes given as
   * their states by id (empty without a manager) and `draw` the random
   * number a probability rule rolls:
   * - "NodeState:<id>==<n>": node `id` is registered and in state `n`;
   * - "Probability:<event>": the draw falls below the event's effective probability;
   * - "<a>><b>": the number `a` is larger than `b`;
   * anything else, and a NodeState rule that does not split in two, is false.
   */
  function RuleHolds(rule: string, nodes: map<string, NodeState>, probabilities: map<string, real>, modifier: real, draw: real): bool
  {
    if StartsWithIgnoreCase(rule, "NodeState:") then NodeStateHolds(RightChop(rule, 10), nodes)
    else if StartsWithIgnoreCase(rule, "Probability:") then draw < Effective(probabilities, modifier, RightChop(rule, 12))
    else if '>' in rule then ComparisonHolds(rule)
    else false
  }

  /**
   * A rule "NodeState:<id>==<digits>" holds exactly when node `id` is
   * registered and its state's ordinal is the number the digits spell
   * (modulo 256).
   */
  lemma NodeStateRule(id: string, digits: string, nodes: map<string, NodeState>, probabilities: map<string, real>, modifier: real, draw: real)
    requires id != "" && '=' !in id && !IsSpace(id[0]) && !IsSpace(id[|id| - 1])
    requires digits != "" && AllDigits(digits)
    ensures RuleHolds("NodeState:" + id + "==" + digits, nodes, probabilities, modifier, draw) <==>
      id in nodes && StateOrdinal(nodes[id]) == DigitsValue(digits) % 256
  {
    var body := id + "==" + digits;
    assert "NodeState:" + id + "==" + digits == "NodeState:" + body;
    ChopPrefix("NodeState:", body);
    DigitsLack(digits, '=');
    SplitAround(id, digits, "==");
    TrimmedAlready(id);
    TrimmedAlready(digits);
    ReadDigits(digits);
  }

  /** A digit string is its own trimmed form. */
  lemma DigitsTrimmed(x: string)
    requires x != "" && AllDigits(x)
    ensures Trim(x) == x
  {
    assert IsDigit(x[0]) && IsDigit(x[|x| - 1]);
    TrimmedAlready(x);
  }

  /** Two digit strings around '>' split back into the two. */
  lemma DigitsSplitAround(x: string, y: string)
    requires x != "" && AllDigits(x) && y != "" && AllDigits(y)
    ensures Split(x + ">" + y, ">") == [x, y]
  {
    DigitsLack(x, '>');
    DigitsLack(y, '>');
    SplitAround(x, y, ">");
  }

  /** Two digit strings around '>' compare as the numbers they spell. */
  lemma ComparisonOfDigits(x: string, y: string)
    requires x != "" && AllDigits(x) && y != "" && AllDigits(y)
    ensures ComparisonHolds(x + ">" + y) <==> DigitsValue(x) > DigitsValue(y)
  {
    var parts := Split(x + ">" + y, ">");
    assert parts == [x, y] by {
      DigitsSplitAround(x, y);
    }
    assert Atof(Trim(parts[0])) == DigitsValue(x) as real by {
      DigitsTrimmed(x);
      ReadDigitsReal(x);
    }
    assert Atof(Trim(parts[1])) == DigitsValue(y) as real by {
      DigitsTrimmed(y);
      ReadDigitsReal(y);
    }
  }

  /** A rule "<a>><b>" over two decimal numbers compares them. */
  lemma ComparisonRule(a: nat, b: nat, nodes: map<string, NodeState>, probabilities: map<string, real>, modifier: real, draw: real)
    ensures RuleHolds(DecimalString(a) + ">" + DecimalString(b), nodes, probabilities, modifier, draw) <==> a > b
  {
    var x, y := DecimalString(a), DecimalString(b);
    var rule := x + ">" + y;
    assert RuleHolds(rule, nodes, probabilities, modifier, draw) == ComparisonHolds(rule) by {
      assert rule[0] == x[0] && IsDigit(x[0]);
      NotPrefixed(rule, "NodeState:");
      NotPrefixed(rule, "Probability:");
      assert rule[|x|] == '>';
    }
    ComparisonOfDigits(x, y);
    DecimalStringValue(a);
    DecimalStringValue(b);
  }

  /** A rule in none of the three forms is false, whatever the nodes, probabilities and draw. */
  lemma UnrecognisedRuleFails(rule: string, nodes: map<string, NodeState>, probabilities: map<string, real>, modifier: real, draw: real)
    requires !StartsWithIgnoreCase(rule, "NodeState:") && !StartsWithIgnoreCase(rule, "Probability:") && '>' !in rule
    ensures !RuleHolds(rule, nodes, probabilities, modifier, draw)
  {
  }

  // ---------------------------------------------------------------------
  // World rules and their backup
  // ---------------------------------------------------------------------

  /** The world rules and the backup of their original values. */
  datatype Rules = Rules(world: map<string, string>, original: map<string, string>)

  /**
   * `ModifyWorldRule` on the rule tables: an existing rule without a
   * backup has its current value backed up, then the new value is stored.
   */
  function Modified(r: Rules, id: string, v: string): (m: Rules)
    ensures m.world == r.world[id := v]
    ensures id in r.original ==> m.original == r.original
    ensures id !in r.original && id in r.world ==> m.original == r.original[id := r.world[id]]
    ensures id !in r.original && id !in r.world ==> m.original == r.original
  {
    var backup := if id !in r.original && id in r.world then r.original[id := r.world[id]] else r.original;
    Rules(r.world[id := v], backup)
  }

  /**
   * `RestoreOriginalRule` on the rule tables: a backed-up rule gets its
   * original value back through `Modified`; the backup is dropped unless
   * changes may be permanent.
   */
  function Restored(r: Rules, id: string, permanent: bool): Rules
  {
    if id !in r.original then r
    else
      var m := Modified(r, id, r.original[id]);
      if permanent then m else m.(original := m.original - {id})
  }

  /** `ModifyWorldRule` called with each of `vs` in turn. */
  function ModifiedAll(r: Rules, id: string, vs: seq<string>): Rules
  {
    if vs == [] then r else Modified(ModifiedAll(r, id, vs[..|vs| - 1]), id, vs[|vs| - 1])
  }

  /**
   * However many changes an existing rule goes through, the backup holds
   * the value it had before the first one (or a backup it already had)
   * and no other rule's backup moves.
   */
  lemma {:induction false} BackupKeepsFirst(r: Rules, id: string, vs: seq<string>)
    requires id in r.world || id in r.original
    ensures var m := ModifiedAll(r, id, vs);
      id in m.world || id in m.original
    ensures vs != [] ==> ModifiedAll(r, id, vs).original == Modified(r, id, vs[0]).original
    ensures vs != [] ==> ModifiedAll(r, id, vs).world == r.world[id := vs[|vs| - 1]]
  {
    if vs != [] {
      var init := vs[..|vs| - 1];
      BackupKeepsFirst(r, id, init);
      if init != [] {
        assert init[0] == vs[0];
      }
    }
  }

  /** The backups once the rules in `done` have been applied again with their own values. */
  function BackedUpOn(world: map<string, string>, original: map<string, string>, done: set<string>): map<string, string>
  {
    (map k | k in world && k in done :: world[k]) + original
  }

  /** Applying a rule again with its own value backs it up unless it has a backup, and leaves the rules alone. */
  lemma BackedUpStep(world: map<string, string>, original: map<string, string>, done: set<string>, k: string)
    requires k in world
    ensures Modified(Rules(world, BackedUpOn(world, original, done)), k, world[k]) == Rules(world, BackedUpOn(world, original, done + {k}))
  {
    var m := Modified(Rules(world, BackedUpOn(world, original, done)), k, world[k]);
    assert m.world == world;
    assert m.original == BackedUpOn(world, original, done + {k});
  }

  /** Once every rule is applied again, each one has a backup: its old one, or its current value. */
  lemma BackedUpAll(world: map<string, string>, original: map<string, string>)
    ensures BackedUpOn(world, original, world.Keys) == world + original
    ensures BackedUpOn(world, original, {}) == original
  {
    assert forall k :: k in BackedUpOn(world, original, {}) <==> k in original;
  }

  /** The rules once the backups in `done` have been restored. */
  function RestoredOn(r: Rules, done: set<string>, permanent: bool): Rules
  {
    Rules(r.world + map k | k in r.original && k in done :: r.original[k],
          if permanent then r.original else map k | k in r.original && k !in done :: r.original[k])
  }

  /** Restoring one more backed-up rule puts its backup back, and drops the backup unless changes are permanent. */
  lemma RestoredStep(r: Rules, done: set<string>, k: string, permanent: bool)
    requires k in r.original && k !in done
    ensures Restored(RestoredOn(r, done, permanent), k, permanent) == RestoredOn(r, done + {k}, permanent)
  {
    var before := RestoredOn(r, done, permanent);
    assert k in before.original && before.original[k] == r.original[k];
    var m := Modified(before, k, r.original[k]);
    assert m.world == RestoredOn(r, done + {k}, permanent).world;
    assert m.original == before.original;
    if !permanent {
      assert m.original - {k} == RestoredOn(r, done + {k}, permanent).original;
    }
  }

  /** Once every backup is restored, each backed-up rule has its first value and only permanent backups remain. */
  lemma RestoredAll(r: Rules, permanent: bool)
    ensures RestoredOn(r, r.original.Keys, permanent) == Rules(r.world + r.original, if permanent then r.original else map[])
    ensures RestoredOn(r, {}, permanent) == r
  {
    var none := RestoredOn(r, {}, permanent);
    assert forall k :: k in none.world <==> k in r.world;
    assert forall k :: k in none.original <==> k in r.original;
  }

  /**
   * Changing an existing rule that has no backup any number of times and
   * then restoring it gives back exactly the tables it started from; with
   * permanent changes the backup stays.
   */
  lemma RestoreUndoes(r: Rules, id: string, vs: seq<string>)
    requires id in r.world && id !in r.original && vs != []
    ensures Restored(ModifiedAll(r, id, vs), id, false) == r
    ensures Restored(ModifiedAll(r, id, vs), id, true) == Rules(r.world, r.original[id := r.world[id]])
  {
    BackupKeepsFirst(r, id, vs);
    var m := ModifiedAll(r, id, vs);
    assert m.original == r.original[id := r.world[id]];
    assert m.world[id := r.world[id]] == r.world;
    assert r.original[id := r.world[id]] - {id} == r.original;
  }

  // ---------------------------------------------------------------------
  // Threats
  // ---------------------------------------------------------------------

  /** The active threat ids and the threat levels. */
  datatype Threats = Threats(active: seq<string>, levels: map<string, real>)

  /** `RegisterThreat`: a new id is listed, and given level 0.5 unless it already has a level. */
  function Registered(t: Threats, id: string): (r: Threats)
    ensures id in r.active && (id !in t.active ==> id in r.levels)
    ensures id in t.active ==> r == t
    ensures id in t.levels ==> r.levels == t.levels
    ensures id !in t.active && id !in t.levels ==> r.levels == t.levels[id := 0.5]
  {
    if id in t.active then t
    else Threats(t.active + [id], if id in t.levels then t.levels else t.levels[id := 0.5])
  }

  /** Every level is in [0, 1], and every listed id is listed once and has a level. */
  predicate ThreatsWellFormed(t: Threats)
  {
    NoDup(t.active) && (forall i :: 0 <= i < |t.active| ==> t.active[i] in t.levels) &&
    (forall k :: k in t.levels ==> 0.0 <= t.levels[k] <= 1.0)
  }

  /** Registering a threat twice is registering it once, and keeps the threats well formed. */
  lemma RegisteredIdempotent(t: Threats, id: string)
    ensures Registered(Registered(t, id), id) == Registered(t, id)
    ensures ThreatsWellFormed(t) ==> ThreatsWellFormed(Registered(t, id))
  {
    if ThreatsWellFormed(t) && id !in t.active {
      NoDupSnoc(t.active, id);
    }
  }

  /** The active threats that still have a level, as the threat timer keeps them. */
  function StillThreatened(active: seq<string>, levels: map<string, real>): (r: seq<string>)
    ensures forall i :: 0 <= i < |r| ==> r[i] in active && r[i] in levels
    ensures forall i :: 0 <= i < |active| && active[i] in levels ==> active[i] in r
    ensures |r| <= |active|
  {
    if active == [] then []
    else
      var k := active[|active| - 1];
      StillThreatened(active[..|active| - 1], levels) + (if k in levels then [k] else [])
  }

  /** In well-formed threats every listed id has a level, so the timer drops none. */
  lemma {:induction false} WellFormedThreatsStay(active: seq<string>, levels: map<string, real>)
    requires forall i :: 0 <= i < |active| ==> active[i] in levels
    ensures StillThreatened(active, levels) == active
  {
    if active != [] {
      var init := active[..|active| - 1];
      assert forall i :: 0 <= i < |init| ==> init[i] == active[i];
      WellFormedThreatsStay(init, levels);
      assert init + [active[|active| - 1]] == active;
    }
  }

  /**
   * The event probability `ProcessThreatUpdate` sets for a threat at
   * `level`: HighThreat_ to 0.9 above 0.8, MediumThreat_ to 0.5 above 0.5,
   * LowThreat_ to 0.2 otherwise.
   */
  function ThreatMark(id: string, level: real): (m: (string, real))
    ensures 0.0 <= m.1 <= 1.0
  {
    if level > 0.8 then ("HighThreat_" + id, 0.9)
    else if level > 0.5 then ("MediumThreat_" + id, 0.5)
    else ("LowThreat_" + id, 0.2)
  }

  /** Two different threats never mark the same event, whatever their levels. */
  lemma ThreatMarksApart(a: string, la: real, b: string, lb: real)
    requires a != b
    ensures ThreatMark(a, la).0 != ThreatMark(b, lb).0
  {
    var x, y := ThreatMark(a, la).0, ThreatMark(b, lb).0;
    var p := if la > 0.8 then "HighThreat_" else if la > 0.5 then "MediumThreat_" else "LowThreat_";
    var q := if lb > 0.8 then "HighThreat_" else if lb > 0.5 then "MediumThreat_" else "LowThreat_";
    assert x == p + a && y == q + b;
    if p == q {
      assert x[|p|..] == a && y[|q|..] == b;
    } else {
      assert x[0] == p[0] && y[0] == q[0];
    }
  }

  /** `ProcessThreatUpdate` for each of `order` in turn, on the probability table. */
  function MarkedAlong(probabilities: map<string, real>, order: seq<string>, levels: map<string, real>): (r: map<string, real>)
    requires forall i :: 0 <= i < |order| ==> order[i] in levels
  {
    if order == [] then probabilities
    else
      var k := order[|order| - 1];
      var m := ThreatMark(k, levels[k]);
      MarkedAlong(probabilities, order[..|order| - 1], levels)[m.0 := m.1]
  }

  /**
   * Whatever order the threats are visited in, each one's event carries
   * its mark's probability; any other event keeps its probability.
   */
  lemma {:induction false} MarkedAlongAt(probabilities: map<string, real>, order: seq<string>, levels: map<string, real>, e: string)
    requires NoDup(order) && forall i :: 0 <= i < |order| ==> order[i] in levels
    ensures forall i :: 0 <= i < |order| && ThreatMark(order[i], levels[order[i]]).0 == e ==>
      e in MarkedAlong(probabilities, order, levels) &&
      MarkedAlong(probabilities, order, levels)[e] == ThreatMark(order[i], levels[order[i]]).1
    ensures (forall i :: 0 <= i < |order| ==> ThreatMark(order[i], levels[order[i]]).0 != e) ==>
      (e in MarkedAlong(probabilities, order, levels) <==> e in probabilities) &&
      (e in probabilities ==> MarkedAlong(probabilities, order, levels)[e] == probabilities[e])
  {
    if order != [] {
      var init := order[..|order| - 1];
      var k := order[|order| - 1];
      assert NoDup(init) by {
        forall i, j | 0 <= i < j < |init| ensures init[i] != init[j] {
          assert init[i] == order[i] && init[j] == order[j];
        }
      }
      MarkedAlongAt(probabilities, init, levels, e);
      forall i | 0 <= i < |order| && ThreatMark(order[i], levels[order[i]]).0 == e
        ensures e in MarkedAlong(probabilities, order, levels)
        ensures MarkedAlong(probabilities, order, levels)[e] == ThreatMark(order[i], levels[order[i]]).1
      {
        if i < |order| - 1 {
          assert order[i] == init[i];
          assert order[i] != k;
          ThreatMarksApart(order[i], levels[order[i]], k, levels[k]);
        }
      }
      if forall i :: 0 <= i < |order| ==> ThreatMark(order[i], levels[order[i]]).0 != e {
        forall i | 0 <= i < |init| ensures ThreatMark(init[i], levels[init[i]]).0 != e {
          assert init[i] == order[i];
        }
        assert ThreatMark(k, levels[k]).0 != e;
      }
    }
  }

  /** Marking keeps every probability in [0, 1]. */
  lemma {:induction false} MarkedAlongInRange(probabilities: map<string, real>, order: seq<string>, levels: map<string, real>)
    requires forall i :: 0 <= i < |order| ==> order[i] in levels
    requires ProbabilitiesInRange(probabilities)
    ensures ProbabilitiesInRange(MarkedAlong(probabilities, order, levels))
  {
    if order != [] {
      var init := order[..|order| - 1];
      assert forall i :: 0 <= i < |init| ==> init[i] == order[i];
      MarkedAlongInRange(probabilities, init, levels);
      var k := order[|order| - 1];
      var m := ThreatMark(k, levels[k]);
      var before := MarkedAlong(probabilities, init, levels);
      assert MarkedAlong(probabilities, order, levels) == before[m.0 := m.1];
    }
  }

  /** The digits of `n` padded with zeros on the left to six. */
  function SixDigits(n: nat): (s: string)
    ensures |s| >= 6
  {
    var d := DecimalString(n);
    if |d| < 6 then seq(6 - |d|, _ => '0') + d else d
  }

  /** `%f`: the number with six decimals, rounded to the nearest millionth. */
  function FixedText(x: real): string
  {
    var a := if x < 0.0 then -x else x;
    var m := (a * 1000000.0 + 0.5).Floor;
    (if x < 0.0 then "-" else "") + DecimalString(m / 1000000) + "." + SixDigits(m % 1000000)
  }

  /** The event `UpdateThreatBehavior` raises for a threat at `level`. */
  function ThreatEvent(id: string, level: real): string
  {
    "ThreatUpdate_" + id + "_" + FixedText(level)
  }

  /** The events `UpdateThreatBehavior` raises for each of `order` in turn. */
  function ThreatEventsAlong(order: seq<string>, levels: map<string, real>): (r: seq<string>)
    requires forall i :: 0 <= i < |order| ==> order[i] in levels
    ensures |r| == |order|
    ensures forall i :: 0 <= i < |order| ==> r[i] == ThreatEvent(order[i], levels[order[i]])
  {
    seq(|order|, i requires 0 <= i < |order| => ThreatEvent(order[i], levels[order[i]]))
  }

  /** One more visited threat: its mark comes after those of the threats before it. */
  lemma MarkedAlongStep(probabilities: map<string, real>, order: seq<string>, i: nat, j: nat, levels: map<string, real>)
    requires j == i + 1 <= |order|
    requires forall k :: 0 <= k < |order| ==> order[k] in levels
    ensures MarkedAlong(probabilities, order[..j], levels) ==
      MarkedAlong(probabilities, order[..i], levels)[ThreatMark(order[i], levels[order[i]]).0 := ThreatMark(order[i], levels[order[i]]).1]
  {
    assert order[..j][..i] == order[..i];
  }

  /** One more visited threat: its event comes after those of the threats before it. */
  lemma ThreatEventsStep(order: seq<string>, i: nat, j: nat, levels: map<string, real>)
    requires j == i + 1 <= |order|
    requires forall k :: 0 <= k < |order| ==> order[k] in levels
    ensures ThreatEventsAlong(order[..j], levels) == ThreatEventsAlong(order[..i], levels) + [ThreatEvent(order[i], levels[order[i]])]
  {
    var l := ThreatEventsAlong(order[..j], levels);
    var r := ThreatEventsAlong(order[..i], levels) + [ThreatEvent(order[i], levels[order[i]])];
    assert |l| == |r|;
    forall k | 0 <= k < |l|
      ensures l[k] == r[k]
    {
      assert order[..j][k] == order[k];
    }
  }

  // ---------------------------------------------------------------------
  // Time control
  // ---------------------------------------------------------------------

  /** The time-control fields, with the engine's global time dilation. */
  datatype TimeControl = TimeControl(scale: real, duration: real, remaining: real, active: bool, dilation: real)

  /**
   * `SetTimeScale` as written: a zero scale is refused unless pausing is
   * allowed, but the test is made before clamping to [0, 10], so a
   * negative scale is let through and clamped to 0.
   */
  function ScaledAsWritten(t: TimeControl, scale: real, duration: real, canPause: bool): TimeControl
  {
    if !canPause && scale == 0.0 then t
    else
      var s := ClampR(scale, 0.0, 10.0);
      TimeControl(s, duration, duration, true, s)
  }

  /** A negative scale pauses time even where pausing is not allowed. */
  lemma NegativeScalePauses(t: TimeControl, duration: real)
    ensures ScaledAsWritten(t, -1.0, duration, false).dilation == 0.0
  {
  }

  /**
   * `SetTimeScale` with the pause test made on the clamped scale: a scale
   * that would stop time is refused unless pausing is allowed; otherwise
   * the clamped scale becomes the dilation and the countdown starts.
   */
  function Scaled(t: TimeControl, scale: real, duration: real, canPause: bool): (r: TimeControl)
    ensures !canPause && t.dilation != 0.0 ==> r.dilation != 0.0
    ensures r != t ==> 0.0 <= r.scale <= 10.0 && r.dilation == r.scale && r.active && r.remaining == r.duration == duration
    ensures r == t <==> (!canPause && scale <= 0.0) || t == TimeControl(ClampR(scale, 0.0, 10.0), duration, duration, true, ClampR(scale, 0.0, 10.0))
  {
    var s := ClampR(scale, 0.0, 10.0);
    if !canPause && s == 0.0 then t
    else TimeControl(s, duration, duration, true, s)
  }

  /**
   * `RestoreNormalTime`: the dilation goes back to the one saved at the
   * start of play, and time control stops with nothing remaining.
   */
  function TimeRestored(t: TimeControl, original: real): (r: TimeControl)
    ensures r.dilation == original && !r.active && r.remaining == 0.0
    ensures r.scale == t.scale && r.duration == t.duration
  {
    t.(dilation := original, active := false, remaining := 0.0)
  }

  /** `UpdateTimeControl`: a running control with a duration counts its remaining time down to zero. */
  function CountedDown(t: TimeControl, dt: real): TimeControl
  {
    if t.active && t.duration > 0.0 then t.(remaining := MaxR(0.0, t.remaining - dt)) else t
  }

  /**
   * Counting down keeps the remaining time within [0, duration], never
   * raises it for a non-negative step, and reaches zero once a step
   * covers what remains.
   */
  lemma CountDownBounded(t: TimeControl, dt: real)
    requires 0.0 <= dt && 0.0 <= t.remaining <= t.duration
    ensures var r := CountedDown(t, dt);
      0.0 <= r.remaining <= t.remaining && r.duration == t.duration && r.dilation == t.dilation &&
      (t.active && t.duration > 0.0 && dt >= t.remaining ==> r.remaining == 0.0) &&
      (t.active && t.duration > 0.0 && dt < t.remaining ==> r.remaining == t.remaining - dt)
  {
  }

  /** Wherever the corrected test lets a scale through, it acts as written. */
  lemma ScaledAgrees(t: TimeControl, scale: real, duration: real, canPause: bool)
    requires canPause || scale > 0.0
    ensures Scaled(t, scale, duration, canPause) == ScaledAsWritten(t, scale, duration, canPause)
  {
  }

  // ---------------------------------------------------------------------
  // World rules applied on completion, and their effect on time
  // ---------------------------------------------------------------------

  /** What `ModifyWorldRule` does to the time control: a TimeFlow rule sets the time scale, for no set duration. */
  function TimeAfterRule(t: TimeControl, id: string, v: string, canPause: bool): TimeControl
  {
    if EqualsIgnoreCase(id, "TimeFlow") then Scaled(t, Atof(v), 0.0, canPause) else t
  }

  /** The time control after `ModifyWorldRule` is called for each of `order`, with its value in `values`. */
  function TimeAlong(t: TimeControl, order: seq<string>, values: map<string, string>, canPause: bool): TimeControl
    requires forall i :: 0 <= i < |order| ==> order[i] in values
  {
    if order == [] then t
    else
      var k := order[|order| - 1];
      TimeAfterRule(TimeAlong(t, order[..|order| - 1], values, canPause), k, values[k], canPause)
  }

  /** One more rule at the end of the run is one more `TimeAfterRule`. */
  lemma TimeAlongSnoc(t: TimeControl, order: seq<string>, k: string, values: map<string, string>, canPause: bool)
    requires (forall i :: 0 <= i < |order| ==> order[i] in values) && k in values
    ensures forall i :: 0 <= i < |order + [k]| ==> (order + [k])[i] in values
    ensures TimeAlong(t, order + [k], values, canPause) == TimeAfterRule(TimeAlong(t, order, values, canPause), k, values[k], canPause)
  {
    assert (order + [k])[..|order|] == order;
  }

  /**
   * Applying a run of rules leaves time alone unless one of them is a
   * TimeFlow rule, and never stops time where pausing is not allowed.
   */
  lemma {:induction false} TimeAlongKeepsRunning(t: TimeControl, order: seq<string>, values: map<string, string>, canPause: bool)
    requires forall i :: 0 <= i < |order| ==> order[i] in values
    ensures (forall i :: 0 <= i < |order| ==> !EqualsIgnoreCase(order[i], "TimeFlow")) ==> TimeAlong(t, order, values, canPause) == t
    ensures !canPause && t.dilation != 0.0 ==> TimeAlong(t, order, values, canPause).dilation != 0.0
  {
    if order != [] {
      var init := order[..|order| - 1];
      assert forall i :: 0 <= i < |init| ==> init[i] == order[i];
      TimeAlongKeepsRunning(t, init, values, canPause);
    }
  }

  // ---------------------------------------------------------------------
  // Conditions and random events
  // ---------------------------------------------------------------------

  /**
   * `EvaluateAllConditions`: every condition's state becomes the truth of
   * its rule, rolled with the draw for that condition; states without a
   * rule stay as they were.
   */
  function Evaluated(states: map<string, bool>, rules: map<string, string>, nodes: map<string, NodeState>,
                     probabilities: map<string, real>, modifier: real, draws: string -> real): map<string, bool>
  {
    EvaluatedOn(states, rules, rules.Keys, nodes, probabilities, modifier, draws)
  }

  /** The states once the conditions in `done` have been evaluated. */
  function EvaluatedOn(states: map<string, bool>, rules: map<string, string>, done: set<string>, nodes: map<string, NodeState>,
                       probabilities: map<string, real>, modifier: real, draws: string -> real): map<string, bool>
  {
    states + map id | id in rules && id in done :: RuleHolds(rules[id], nodes, probabilities, modifier, draws(id))
  }

  /** Evaluating one more condition records its rule's truth. */
  lemma EvaluatedOnStep(states: map<string, bool>, rules: map<string, string>, done: set<string>, k: string,
                        nodes: map<string, NodeState>, probabilities: map<string, real>, modifier: real, draws: string -> real)
    requires k in rules
    ensures EvaluatedOn(states, rules, done + {k}, nodes, probabilities, modifier, draws) ==
      EvaluatedOn(states, rules, done, nodes, probabilities, modifier, draws)[k := RuleHolds(rules[k], nodes, probabilities, modifier, draws(k))]
  {
  }

  /**
   * After an evaluation every condition holds its rule's truth, other
   * states are kept, and evaluating again with the same draws changes
   * nothing.
   */
  lemma EvaluatedSettles(states: map<string, bool>, rules: map<string, string>, nodes: map<string, NodeState>,
                         probabilities: map<string, real>, modifier: real, draws: string -> real, id: string)
    ensures var e := Evaluated(states, rules, nodes, probabilities, modifier, draws);
      (id in rules ==> id in e && e[id] == RuleHolds(rules[id], nodes, probabilities, modifier, draws(id))) &&
      (id !in rules ==> (id in e <==> id in states) && (id in states ==> e[id] == states[id])) &&
      Evaluated(e, rules, nodes, probabilities, modifier, draws) == e
  {
  }

  /** Whether the event `e` fires on the draw `draws(e)`. */
  predicate Rolls(probabilities: map<string, real>, modifier: real, draws: string -> real, e: string)
  {
    draws(e) < Effective(probabilities, modifier, e)
  }

  /** The first event of `order` that fires, as `Use` looks for one. */
  function FirstRolled(order: seq<string>, probabilities: map<string, real>, modifier: real, draws: string -> real): (r: Option<string>)
    ensures r.Some? ==>
      exists i :: 0 <= i < |order| && order[i] == r.value && Rolls(probabilities, modifier, draws, order[i]) &&
        forall j :: 0 <= j < i ==> !Rolls(probabilities, modifier, draws, order[j])
    ensures r.None? <==> forall i :: 0 <= i < |order| ==> !Rolls(probabilities, modifier, draws, order[i])
  {
    if order == [] then None
    else if Rolls(probabilities, modifier, draws, order[0]) then Some(order[0])
    else
      var r := FirstRolled(order[1..], probabilities, modifier, draws);
      assert forall i :: 1 <= i < |order| ==> order[i] == order[1..][i - 1];
      r
  }

  // ---------------------------------------------------------------------
  // Configuration entries
  // ---------------------------------------------------------------------

  /** The settings a configuration entry can name. */
  datatype SysSettings = SysSettings(timeScale: real, maxRelationships: int, spawnRadius: real, maxGenerated: int, modifier: real)

  /** Everything one configuration entry can change, apart from the record of the entry itself. */
  datatype SysStore = SysStore(
    settings: SysSettings, conditionRules: map<string, string>, conditionStates: map<string, bool>,
    world: map<string, string>, probabilities: map<string, real>)

  /**
   * `ApplyConfigValue` on the store: a setting reads its number from the
   * value; a condition is added unevaluated; a world rule is stored
   * without a backup; an event probability is stored clamped to [0, 1].
   */
  function SysConfigApplied(st: SysStore, k: ConfigKey, value: string): SysStore
  {
    match k
    case TimeScaleKey => st.(settings := st.settings.(timeScale := Atof(value)))
    case MaxRelationsKey => st.(settings := st.settings.(maxRelationships := Atoi(value)))
    case SpawnRadiusKey => st.(settings := st.settings.(spawnRadius := Atof(value)))
    case MaxGeneratedKey => st.(settings := st.settings.(maxGenerated := Atoi(value)))
    case ModifierKey => st.(settings := st.settings.(modifier := Atof(value)))
    case ConditionKey(c) => st.(conditionRules := st.conditionRules[c := value], conditionStates := st.conditionStates[c := false])
    case RuleKey(r) => st.(world := st.world[r := value])
    case ProbabilityKey(e) => st.(probabilities := st.probabilities[e := ClampR(Atof(value), 0.0, 1.0)])
    case OtherKey => st
  }

  /** Every entry keeps the event probabilities in [0, 1]. */
  lemma ConfigKeepsRange(st: SysStore, k: ConfigKey, value: string)
    requires ProbabilitiesInRange(st.probabilities)
    ensures ProbabilitiesInRange(SysConfigApplied(st, k, value).probabilities)
  {
  }

  /** An entry Condition_<id> adds rule `id`, unevaluated, and changes nothing else. */
  lemma ConditionEntryLands(st: SysStore, id: string, value: string)
    ensures SysConfigApplied(st, ConfigKeyOf("Condition_" + id), value) ==
      st.(conditionRules := st.conditionRules[id := value], conditionStates := st.conditionStates[id := false])
  {
    ConditionSelects(id);
  }

  /** An entry Rule_<id> sets world rule `id` and changes nothing else. */
  lemma RuleEntryLands(st: SysStore, id: string, value: string)
    ensures SysConfigApplied(st, ConfigKeyOf("Rule_" + id), value) == st.(world := st.world[id := value])
  {
    RuleSelects(id);
  }

  /**
   * An entry Probability_<id> sets the probability of event `id` to the
   * value clamped to [0, 1] and changes nothing else.
   */
  lemma ProbabilityEntryLands(st: SysStore, id: string, value: string)
    ensures var r := SysConfigApplied(st, ConfigKeyOf("Probability_" + id), value);
      id in r.probabilities && r.probabilities[id] == ClampR(Atof(value), 0.0, 1.0) && 0.0 <= r.probabilities[id] <= 1.0 &&
      r == st.(probabilities := r.probabilities) && r.probabilities - {id} == st.probabilities - {id}
  {
    ProbabilitySelects(id);
  }

  /** `LoadSystemConfig`: each entry of `order` applied in turn. */
  function SysConfigAlong(st: SysStore, order: seq<string>, config: map<string, string>): SysStore
    requires forall i :: 0 <= i < |order| ==> order[i] in config
  {
    if order == [] then st
    else
      var k := order[|order| - 1];
      SysConfigApplied(SysConfigAlong(st, order[..|order| - 1], config), ConfigKeyOf(k), config[k])
  }

  /** Loading a configuration keeps every event probability in [0, 1]. */
  lemma {:induction false} SysConfigAlongInRange(st: SysStore, order: seq<string>, config: map<string, string>)
    requires forall i :: 0 <= i < |order| ==> order[i] in config
    requires ProbabilitiesInRange(st.probabilities)
    ensures ProbabilitiesInRange(SysConfigAlong(st, order, config).probabilities)
  {
    if order != [] {
      var init := order[..|order| - 1];
      var k := order[|order| - 1];
      assert forall i :: 0 <= i < |init| ==> init[i] == order[i];
      SysConfigAlongInRange(st, init, config);
      ConfigKeepsRange(SysConfigAlong(st, init, config), ConfigKeyOf(k), config[k]);
    }
  }
}
