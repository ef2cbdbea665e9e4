/**
 * The system capability: an item capability that steers the game's
 * systems — the global time dilation, named condition rules, the
 * connections it establishes, world rules with a backup, threat levels,
 * event probabilities and the nodes it generates. The node manager's
 * answers and the random draws it would take are passed in as
 * parameters; the engine's global time dilation is a field.
 */
module SystemCapabilities {
  import opened Util
  import opened Text
  import opened NodeTypes
  import opened Nodes
  import opened Connections
  import opened Items
  import opened SystemRules

  /** The connections that are still valid, in their order. */
  function LiveConnections(cs: seq<NodeConnection>): (r: seq<NodeConnection>)
    reads cs
    ensures forall i :: 0 <= i < |r| ==> r[i] in cs && r[i].IsValid()
    ensures forall i :: 0 <= i < |cs| && cs[i].IsValid() ==> cs[i] in r
    ensures |r| <= |cs|
  {
    if cs == [] then []
    else
      var c := cs[|cs| - 1];
      LiveConnections(cs[..|cs| - 1]) + (if c.IsValid() then [c] else [])
  }

  /** Connections that are all valid are kept whole. */
  lemma {:induction false} AllValidKept(cs: seq<NodeConnection>)
    requires forall i :: 0 <= i < |cs| ==> cs[i].IsValid()
    ensures LiveConnections(cs) == cs
  {
    if cs != [] {
      var init := cs[..|cs| - 1];
      forall i | 0 <= i < |init|
        ensures init[i].IsValid()
      {
        assert init[i] == cs[i];
      }
      AllValidKept(init);
      assert cs == init + [cs[|cs| - 1]];
    }
  }

  /** Cleaning up twice is cleaning up once. */
  lemma LiveConnectionsSettle(cs: seq<NodeConnection>)
    ensures LiveConnections(LiveConnections(cs)) == LiveConnections(cs)
  {
    AllValidKept(LiveConnections(cs));
  }

  /**
   * The nodes a cluster keeps from the manager's answers `made` when room
   * is left for `room` more: each non-null answer is kept while the room
   * is not yet filled.
   */
  function Admitted(made: seq<InteractiveNode?>, room: int): (r: seq<InteractiveNode>)
    ensures |r| <= |made| && (room >= 0 ==> |r| <= room) && (room <= 0 ==> r == [])
  {
    if made == [] then []
    else
      var prior := Admitted(made[..|made| - 1], room);
      var n := made[|made| - 1];
      if |prior| < room && n != null then prior + [n] else prior
  }

  /**
   * A cluster holds only nodes the manager made, and when it stops short
   * of the room left it holds every node the manager made.
   */
  lemma {:induction false} AdmittedKeeps(made: seq<InteractiveNode?>, room: int)
    ensures forall i :: 0 <= i < |Admitted(made, room)| ==> Admitted(made, room)[i] in made
    ensures |Admitted(made, room)| < room ==> forall i :: 0 <= i < |made| && made[i] != null ==> made[i] in Admitted(made, room)
  {
    if made != [] {
      var init := made[..|made| - 1];
      AdmittedKeeps(init, room);
      assert forall i :: 0 <= i < |init| ==> init[i] == made[i];
      assert made == init + [made[|made| - 1]];
    }
  }

  /** One more manager answer: it is kept exactly when it is a node and room is left. */
  lemma AdmittedStep(made: seq<InteractiveNode?>, i: nat, j: nat, room: int)
    requires j == i + 1 <= |made|
    ensures Admitted(made[..j], room) ==
      if |Admitted(made[..i], room)| < room && made[i] != null then Admitted(made[..i], room) + [made[i]]
      else Admitted(made[..i], room)
  {
    assert made[..j][..i] == made[..i];
  }

  /** The owner's events after `Use` has looked for an event that fires. */
  function RaisedFirst(events: seq<string>, fired: Option<string>): seq<string>
  {
    if fired.Some? then WithTriggerEvent(events, fired.value) else events
  }

  /** The loop of `EvaluateAllConditions`, on the tables. */
  method EvaluateAll(states: map<string, bool>, rules: map<string, string>, nodes: map<string, NodeState>,
                     probabilities: map<string, real>, modifier: real, draws: string -> real)
    returns (r: map<string, bool>)
    ensures r == Evaluated(states, rules, nodes, probabilities, modifier, draws)
  {
    r := states;
    var todo := rules.Keys;
    assert rules.Keys - todo == {};
    while todo != {}
      invariant todo <= rules.Keys
      invariant r == EvaluatedOn(states, rules, rules.Keys - todo, nodes, probabilities, modifier, draws)
      decreases todo
    {
      var k :| k in todo;
      EvaluatedOnStep(states, rules, rules.Keys - todo, k, nodes, probabilities, modifier, draws);
      r := r[k := RuleHolds(rules[k], nodes, probabilities, modifier, draws(k))];
      assert rules.Keys - (todo - {k}) == (rules.Keys - todo) + {k};
      todo := todo - {k};
    }
    assert rules.Keys - todo == rules.Keys;
  }

  /**
   * The loop of `OnOwnerStateChanged` on completion: `ModifyWorldRule`
   * for every rule with its own value, in `order`.
   */
  method ReapplyRules(r: Rules, t: TimeControl, canPause: bool) returns (r2: Rules, t2: TimeControl, ghost order: seq<string>)
    ensures NoDup(order) && forall k :: k in order <==> k in r.world
    ensures r2 == Rules(r.world, r.world + r.original)
    ensures t2 == TimeAlong(t, order, r.world, canPause)
  {
    r2, t2, order := r, t, [];
    var todo := r.world.Keys;
    BackedUpAll(r.world, r.original);
    assert r.world.Keys - todo == {};
    while todo != {}
      invariant todo <= r.world.Keys
      invariant NoDup(order) && forall k :: k in order <==> k in r.world && k !in todo
      invariant r2 == Rules(r.world, BackedUpOn(r.world, r.original, r.world.Keys - todo))
      invariant t2 == TimeAlong(t, order, r.world, canPause)
      decreases todo
    {
      var k :| k in todo;
      BackedUpStep(r.world, r.original, r.world.Keys - todo, k);
      r2 := Modified(r2, k, r.world[k]);
      t2 := TimeAfterRule(t2, k, r.world[k], canPause);
      NoDupSnoc(order, k);
      assert (order + [k])[..|order|] == order;
      order := order + [k];
      assert r.world.Keys - (todo - {k}) == (r.world.Keys - todo) + {k};
      todo := todo - {k};
    }
    assert r.world.Keys - todo == r.world.Keys;
  }

  /**
   * The loop of `RestoreAllRules`: `RestoreOriginalRule` for every
   * backed-up rule, in `order`.
   */
  method RestoreRules(r: Rules, t: TimeControl, canPause: bool, permanent: bool)
    returns (r2: Rules, t2: TimeControl, ghost order: seq<string>)
    ensures NoDup(order) && forall k :: k in order <==> k in r.original
    ensures r2 == Rules(r.world + r.original, if permanent then r.original else map[])
    ensures t2 == TimeAlong(t, order, r.original, canPause)
  {
    r2, t2, order := r, t, [];
    var todo := r.original.Keys;
    ghost var done: set<string> := {};
    RestoredAll(r, permanent);
    while todo != {}
      invariant forall k :: k in r.original <==> k in todo || k in done
      invariant forall k :: k in todo ==> k !in done
      invariant RestoringAlong(r, t, canPause, permanent, done, order, r2, t2)
      decreases todo
    {
      var k :| k in todo;
      RestoringStep(r, t, canPause, permanent, done, order, r2, t2, k);
      r2 := Restored(r2, k, permanent);
      t2 := TimeAfterRule(t2, k, r.original[k], canPause);
      order := order + [k];
      done := done + {k};
      todo := todo - {k};
    }
    assert done == r.original.Keys;
  }

  /** Where the loop of `RestoreAllRules` stands once the rules of `order` (the set `done`) are restored. */
  ghost predicate RestoringAlong(r: Rules, t: TimeControl, canPause: bool, permanent: bool,
    done: set<string>, order: seq<string>, r2: Rules, t2: TimeControl)
  {
    && NoDup(order) && (forall k :: k in order <==> k in done)
    && (forall i :: 0 <= i < |order| ==> order[i] in r.original)
    && r2 == RestoredOn(r, done, permanent)
    && t2 == TimeAlong(t, order, r.original, canPause)
  }

  /** Restoring one more backed-up rule keeps the loop's account. */
  lemma RestoringStep(r: Rules, t: TimeControl, canPause: bool, permanent: bool,
    done: set<string>, order: seq<string>, r2: Rules, t2: TimeControl, k: string)
    requires RestoringAlong(r, t, canPause, permanent, done, order, r2, t2)
    requires k in r.original && k !in done
    ensures RestoringAlong(r, t, canPause, permanent, done + {k}, order + [k],
      Restored(r2, k, permanent), TimeAfterRule(t2, k, r.original[k], canPause))
  {
    RestoredStep(r, done, k, permanent);
    TimeAlongSnoc(t, order, k, r.original, canPause);
    NoDupSnoc(order, k);
  }

  /** The loop of `LoadSystemConfig`: every entry applied, in `order`. */
  method LoadEntries(st: SysStore, config: map<string, string>) returns (st2: SysStore, ghost order: seq<string>)
    ensures NoDup(order) && forall k :: k in order <==> k in config
    ensures st2 == SysConfigAlong(st, order, config)
  {
    var ids := KeysOf(config);
    order := ids;
    st2 := st;
    var i := 0;
    while i < |ids|
      invariant 0 <= i <= |ids|
      invariant st2 == SysConfigAlong(st, ids[..i], config)
    {
      assert ids[..i + 1][..i] == ids[..i];
      st2 := SysConfigApplied(st2, ConfigKeyOf(ids[i]), config[ids[i]]);
      i := i + 1;
    }
    assert ids[..i] == ids;
  }

  class SystemCapability {
    const base: ItemCapability
    // time control; `globalTimeDilation` stands for the engine's global value
    var timeScale: real
    var canPauseTime: bool
    var timeDuration: real
    var remainingTimeDuration: real
    var timeControlActive: bool
    var originalTimeScale: real
    var globalTimeDilation: real
    // conditions
    var conditionRules: map<string, string>
    var conditionStates: map<string, bool>
    var autoEvaluateConditions: bool
    var conditionCheckInterval: real
    // relations
    var relationTemplates: map<string, RelationType>
    var maxRelationships: int
    var createdConnections: seq<NodeConnection>
    // world rules
    var worldRules: map<string, string>
    var originalRules: map<string, string>
    var canModifyPermanently: bool
    // threats
    var threatLevels: map<string, real>
    var activeThreatIds: seq<string>
    var threatUpdateInterval: real
    // probabilities
    var eventProbabilities: map<string, real>
    var globalProbabilityModifier: real
    var randomSeed: int
    // generation
    var nodeTemplates: map<string, NodeClass>
    var spawnRadius: real
    var maxGeneratedNodes: int
    var generatedNodes: seq<InteractiveNode>
    var systemConfig: map<string, string>

    /** The time-control fields together with the engine's dilation. */
    function TimeNow(): TimeControl
      reads `timeScale, `timeDuration, `remainingTimeDuration, `timeControlActive, `globalTimeDilation
    {
      TimeControl(timeScale, timeDuration, remainingTimeDuration, timeControlActive, globalTimeDilation)
    }

    function RulesNow(): Rules
      reads `worldRules, `originalRules
    {
      Rules(worldRules, originalRules)
    }

    function ThreatsNow(): Threats
      reads `activeThreatIds, `threatLevels
    {
      Threats(activeThreatIds, threatLevels)
    }

    /** Everything a configuration entry can change. */
    function StoreNow(): SysStore
      reads `timeScale, `maxRelationships, `spawnRadius, `maxGeneratedNodes, `globalProbabilityModifier
      reads `conditionRules, `conditionStates, `worldRules, `eventProbabilities
    {
      SysStore(SysSettings(timeScale, maxRelationships, spawnRadius, maxGeneratedNodes, globalProbabilityModifier),
        conditionRules, conditionStates, worldRules, eventProbabilities)
    }

    /** Every stored event probability is in [0, 1]. */
    predicate ProbabilitiesValid()
      reads `eventProbabilities
    {
      ProbabilitiesInRange(eventProbabilities)
    }

    /** Active threats are listed once each and have a level; every level is in [0, 1]. */
    predicate ThreatsValid()
      reads `activeThreatIds, `threatLevels
    {
      ThreatsWellFormed(ThreatsNow())
    }

    /** `GetConditionState`: false for a condition never evaluated or set. */
    function GetConditionState(id: string): bool
      reads `conditionStates
    {
      if id in conditionStates then conditionStates[id] else false
    }

    /** `GetRuleValue`: the empty text for an unknown rule. */
    function GetRuleValue(id: string): string
      reads `worldRules
    {
      if id in worldRules then worldRules[id] else ""
    }

    /** `GetThreatLevel`: 0 for an unknown threat. */
    function GetThreatLevel(id: string): real
      reads `threatLevels
    {
      if id in threatLevels then threatLevels[id] else 0.0
    }

    /** `GetEventProbability`. */
    function GetEventProbability(id: string): real
      reads `eventProbabilities, `globalProbabilityModifier
    {
      Effective(eventProbabilities, globalProbabilityModifier, id)
    }

    /** `GetCurrentTimeScale`: the engine's global dilation. */
    function GetCurrentTimeScale(): real
      reads `globalTimeDilation
    {
      globalTimeDilation
    }

    /**
     * The defaults: normal time without pausing, conditions checked every
     * second when enabled, at most 10 relations and 20 generated nodes,
     * threats updated every half second, a neutral probability modifier
     * and no fixed seed.
     */
    constructor()
      ensures fresh(base) && base.kind == System && base.owner == null && !base.capabilityActive
      ensures TimeNow() == TimeControl(1.0, 0.0, 0.0, false, 1.0) && !canPauseTime && originalTimeScale == 1.0
      ensures conditionRules == map[] && conditionStates == map[] && !autoEvaluateConditions && conditionCheckInterval == 1.0
      ensures relationTemplates == map[] && maxRelationships == 10 && createdConnections == []
      ensures worldRules == map[] && originalRules == map[] && !canModifyPermanently
      ensures threatLevels == map[] && activeThreatIds == [] && threatUpdateInterval == 0.5
      ensures eventProbabilities == map[] && globalProbabilityModifier == 1.0 && randomSeed == -1
      ensures nodeTemplates == map[] && spawnRadius == 500.0 && maxGeneratedNodes == 20 && generatedNodes == []
      ensures systemConfig == map[]
      ensures ProbabilitiesValid() && ThreatsValid()
    {
      base := new ItemCapability(System);
      timeScale := 1.0;
      canPauseTime := false;
      timeDuration := 0.0;
      remainingTimeDuration := 0.0;
      timeControlActive := false;
      originalTimeScale := 1.0;
      globalTimeDilation := 1.0;
      conditionRules := map[];
      conditionStates := map[];
      autoEvaluateConditions := false;
      conditionCheckInterval := 1.0;
      relationTemplates := map[];
      maxRelationships := 10;
      createdConnections := [];
      worldRules := map[];
      originalRules := map[];
      canModifyPermanently := false;
      threatLevels := map[];
      activeThreatIds := [];
      threatUpdateInterval := 0.5;
      eventProbabilities := map[];
      globalProbabilityModifier := 1.0;
      randomSeed := -1;
      nodeTemplates := map[];
      spawnRadius := 500.0;
      maxGeneratedNodes := 20;
      generatedNodes := [];
      systemConfig := map[];
    }

    /** Puts a whole store back into the fields. */
    method SetStore(st: SysStore)
      modifies `timeScale, `maxRelationships, `spawnRadius, `maxGeneratedNodes, `globalProbabilityModifier
      modifies `conditionRules, `conditionStates, `worldRules, `eventProbabilities
      ensures StoreNow() == st
    {
      timeScale, maxRelationships, spawnRadius, maxGeneratedNodes, globalProbabilityModifier :=
        st.settings.timeScale, st.settings.maxRelationships, st.settings.spawnRadius, st.settings.maxGenerated, st.settings.modifier;
      conditionRules, conditionStates, worldRules, eventProbabilities :=
        st.conditionRules, st.conditionStates, st.world, st.probabilities;
    }

    /** Puts a whole time control back into the fields. */
    method SetTime(t: TimeControl)
      modifies `timeScale, `timeDuration, `remainingTimeDuration, `timeControlActive, `globalTimeDilation
      ensures TimeNow() == t
    {
      timeScale, timeDuration, remainingTimeDuration, timeControlActive, globalTimeDilation :=
        t.scale, t.duration, t.remaining, t.active, t.dilation;
    }

    // -------------------------------------------------------------------
    // Time control
    // -------------------------------------------------------------------

    /** `SetTimeScale` as written: the pause test is made on the scale before clamping. */
    method SetTimeScaleAsWritten(scale: real, duration: real)
      modifies `timeScale, `timeDuration, `remainingTimeDuration, `timeControlActive, `globalTimeDilation
      ensures TimeNow() == ScaledAsWritten(old(TimeNow()), scale, duration, canPauseTime)
    {
      if !canPauseTime && scale == 0.0 {
        return;
      }
      timeScale := ClampR(scale, 0.0, 10.0);
      timeDuration := duration;
      remainingTimeDuration := duration;
      globalTimeDilation := timeScale;
      timeControlActive := true;
    }

    /**
     * `SetTimeScale`, with the pause test made on the clamped scale: where
     * pausing is not allowed the dilation never becomes 0.
     */
    method SetTimeScale(scale: real, duration: real)
      modifies `timeScale, `timeDuration, `remainingTimeDuration, `timeControlActive, `globalTimeDilation
      ensures TimeNow() == Scaled(old(TimeNow()), scale, duration, canPauseTime)
      ensures !canPauseTime && old(globalTimeDilation) != 0.0 ==> globalTimeDilation != 0.0
    {
      var s := ClampR(scale, 0.0, 10.0);
      if !canPauseTime && s == 0.0 {
        return;
      }
      timeScale := s;
      timeDuration := duration;
      remainingTimeDuration := duration;
      globalTimeDilation := s;
      timeControlActive := true;
    }

    /** `PauseTime`: only where pausing is allowed, time stops or goes back to normal. */
    method PauseTime(pause: bool)
      modifies `timeScale, `timeDuration, `remainingTimeDuration, `timeControlActive, `globalTimeDilation
      ensures !canPauseTime ==> TimeNow() == old(TimeNow())
      ensures canPauseTime && pause ==> TimeNow() == TimeControl(0.0, 0.0, 0.0, true, 0.0)
      ensures canPauseTime && !pause ==> TimeNow() == TimeRestored(old(TimeNow()), originalTimeScale)
    {
      if !canPauseTime {
        return;
      }
      if pause {
        SetTimeScale(0.0, 0.0);
      } else {
        RestoreNormalTime();
      }
    }

    /** `RestoreNormalTime`, also what the end of a timed control does. */
    method RestoreNormalTime()
      modifies `globalTimeDilation, `timeControlActive, `remainingTimeDuration
      ensures TimeNow() == TimeRestored(old(TimeNow()), originalTimeScale)
    {
      globalTimeDilation := originalTimeScale;
      timeControlActive := false;
      remainingTimeDuration := 0.0;
    }

    /** `UpdateTimeControl`: see `CountDownBounded` for what the countdown keeps. */
    method UpdateTimeControl(dt: real)
      modifies `remainingTimeDuration
      ensures TimeNow() == CountedDown(old(TimeNow()), dt)
    {
      if timeControlActive && timeDuration > 0.0 {
        remainingTimeDuration := MaxR(0.0, remainingTimeDuration - dt);
      }
    }

    /** `BeginPlay`: the dilation in force when play starts is the one normal time goes back to. */
    method BeginPlay()
      modifies `originalTimeScale
      ensures originalTimeScale == globalTimeDilation
    {
      originalTimeScale := globalTimeDilation;
    }

    /** `EndPlay`: running time control ends, generated nodes are forgotten and every threat is removed. */
    method EndPlay()
      modifies `globalTimeDilation, `timeControlActive, `remainingTimeDuration, `generatedNodes
      modifies `activeThreatIds, `threatLevels
      ensures TimeNow() == if old(timeControlActive) then TimeRestored(old(TimeNow()), originalTimeScale) else old(TimeNow())
      ensures generatedNodes == [] && activeThreatIds == [] && threatLevels == map[]
      ensures ThreatsValid()
    {
      if timeControlActive {
        RestoreNormalTime();
      }
      ClearGeneratedNodes();
      RemoveAllThreats();
    }

    // -------------------------------------------------------------------
    // Conditions
    // -------------------------------------------------------------------

    /**
     * `EvaluateCondition` with the manager's nodes and the draw a
     * probability rule would take: an unknown condition is false and
     * records nothing; a known one records and returns its rule's truth.
     */
    method EvaluateCondition(id: string, nodes: map<string, NodeState>, draw: real) returns (r: bool)
      modifies `conditionStates
      ensures id !in conditionRules ==> !r && conditionStates == old(conditionStates)
      ensures id in conditionRules ==>
        r == RuleHolds(conditionRules[id], nodes, eventProbabilities, globalProbabilityModifier, draw) &&
        conditionStates == old(conditionStates)[id := r] && GetConditionState(id) == r
    {
      if id !in conditionRules {
        return false;
      }
      r := RuleHolds(conditionRules[id], nodes, eventProbabilities, globalProbabilityModifier, draw);
      conditionStates := conditionStates[id := r];
    }

    /** `AddCondition`: the rule is stored and its condition starts out false. */
    method AddCondition(id: string, rule: string)
      modifies `conditionRules, `conditionStates
      ensures conditionRules == old(conditionRules)[id := rule] && conditionStates == old(conditionStates)[id := false]
      ensures !GetConditionState(id)
    {
      conditionRules := conditionRules[id := rule];
      conditionStates := conditionStates[id := false];
    }

    method SetConditionState(id: string, b: bool)
      modifies `conditionStates
      ensures conditionStates == old(conditionStates)[id := b] && GetConditionState(id) == b
    {
      conditionStates := conditionStates[id := b];
    }

    /**
     * `EvaluateAllConditions`, also what the condition timer does: every
     * condition is evaluated with its own draw; the result does not depend
     * on the order the rules are visited in.
     */
    method EvaluateAllConditions(nodes: map<string, NodeState>, draws: string -> real)
      modifies `conditionStates
      ensures conditionStates == Evaluated(old(conditionStates), conditionRules, nodes, eventProbabilities, globalProbabilityModifier, draws)
    {
      conditionStates := EvaluateAll(conditionStates, conditionRules, nodes, eventProbabilities, globalProbabilityModifier, draws);
    }

    // -------------------------------------------------------------------
    // Relations
    // -------------------------------------------------------------------

    /**
     * `EstablishRelation`, with `made` the connection the manager creates
     * (null without a manager or when it refuses): nothing is created once
     * the cap is reached, so a count within the cap stays within it.
     */
    method EstablishRelation(made: NodeConnection?) returns (c: NodeConnection?)
      modifies `createdConnections
      ensures c != null <==> old(|createdConnections|) < maxRelationships && made != null
      ensures c != null ==> c == made && createdConnections == old(createdConnections) + [c]
      ensures c == null ==> createdConnections == old(createdConnections)
      ensures old(|createdConnections|) <= maxRelationships ==> |createdConnections| <= maxRelationships
    {
      if |createdConnections| >= maxRelationships {
        return null;
      }
      c := made;
      if c != null {
        createdConnections := createdConnections + [c];
      }
    }

    /**
     * `RemoveRelation`, with `removed` the number of connections the
     * manager removed (None without a manager): it succeeds when any were
     * removed, and with a manager the invalid connections are dropped.
     */
    method RemoveRelation(removed: Option<int>) returns (ok: bool)
      modifies `createdConnections
      ensures ok <==> removed.Some? && removed.value > 0
      ensures removed.Some? ==> createdConnections == LiveConnections(old(createdConnections))
      ensures removed.None? ==> createdConnections == old(createdConnections)
    {
      if removed.None? {
        return false;
      }
      CleanupInvalidConnections();
      ok := removed.value > 0;
    }

    method AddRelationTemplate(id: string, t: RelationType)
      modifies `relationTemplates
      ensures relationTemplates == old(relationTemplates)[id := t]
    {
      relationTemplates := relationTemplates[id := t];
    }

    /** `GetActiveRelationCount`: how many of the created connections are still valid. */
    method GetActiveRelationCount() returns (n: int)
      ensures n == |LiveConnections(createdConnections)|
      ensures 0 <= n <= |createdConnections|
    {
      n := 0;
      var i := 0;
      while i < |createdConnections|
        invariant 0 <= i <= |createdConnections|
        invariant n == |LiveConnections(createdConnections[..i])|
      {
        assert createdConnections[..i + 1][..i] == createdConnections[..i];
        if createdConnections[i].IsValid() {
          n := n + 1;
        }
        i := i + 1;
      }
      assert createdConnections[..i] == createdConnections;
    }

    /** `CleanupInvalidConnections`: only the valid connections stay, in their order. */
    method CleanupInvalidConnections()
      modifies `createdConnections
      ensures createdConnections == LiveConnections(old(createdConnections))
      ensures forall i :: 0 <= i < |createdConnections| ==> createdConnections[i].IsValid()
    {
      var kept := [];
      var i := 0;
      while i < |createdConnections|
        invariant 0 <= i <= |createdConnections|
        invariant kept == LiveConnections(createdConnections[..i])
      {
        assert createdConnections[..i + 1][..i] == createdConnections[..i];
        if createdConnections[i].IsValid() {
          kept := kept + [createdConnections[i]];
        }
        i := i + 1;
      }
      assert createdConnections[..i] == createdConnections;
      createdConnections := kept;
    }

    // -------------------------------------------------------------------
    // World rules
    // -------------------------------------------------------------------

    /**
     * `ModifyWorldRule`: an existing rule's first value is backed up, the
     * new value is stored, and a TimeFlow rule sets the time scale.
     */
    method ModifyWorldRule(id: string, v: string)
      modifies `worldRules, `originalRules
      modifies `timeScale, `timeDuration, `remainingTimeDuration, `timeControlActive, `globalTimeDilation
      ensures RulesNow() == Modified(old(RulesNow()), id, v) && GetRuleValue(id) == v
      ensures TimeNow() == TimeAfterRule(old(TimeNow()), id, v, canPauseTime)
    {
      if id !in originalRules && id in worldRules {
        originalRules := originalRules[id := worldRules[id]];
      }
      worldRules := worldRules[id := v];
      if EqualsIgnoreCase(id, "Gravity") {
      } else if EqualsIgnoreCase(id, "TimeFlow") {
        SetTimeScale(Atof(v), 0.0);
      }
    }

    /**
     * `RestoreOriginalRule`: a backed-up rule gets its first value back;
     * the backup is dropped unless changes may be permanent.
     */
    method RestoreOriginalRule(id: string)
      modifies `worldRules, `originalRules
      modifies `timeScale, `timeDuration, `remainingTimeDuration, `timeControlActive, `globalTimeDilation
      ensures RulesNow() == Restored(old(RulesNow()), id, canModifyPermanently)
      ensures id in old(originalRules) ==> TimeNow() == TimeAfterRule(old(TimeNow()), id, old(originalRules)[id], canPauseTime)
      ensures id !in old(originalRules) ==> TimeNow() == old(TimeNow())
    {
      if id in originalRules {
        ModifyWorldRule(id, originalRules[id]);
        if !canModifyPermanently {
          originalRules := originalRules - {id};
        }
      }
    }

    /**
     * `RestoreAllRules`: every backed-up rule gets its first value back,
     * in `order`; the backups are dropped unless changes may be permanent.
     */
    method RestoreAllRules() returns (ghost order: seq<string>)
      modifies `worldRules, `originalRules
      modifies `timeScale, `timeDuration, `remainingTimeDuration, `timeControlActive, `globalTimeDilation
      ensures NoDup(order) && forall k :: k in order <==> k in old(originalRules)
      ensures worldRules == old(worldRules) + old(originalRules)
      ensures originalRules == if canModifyPermanently then old(originalRules) else map[]
      ensures TimeNow() == TimeAlong(old(TimeNow()), order, old(originalRules), canPauseTime)
    {
      var r, t;
      r, t, order := RestoreRules(RulesNow(), TimeNow(), canPauseTime, canModifyPermanently);
      worldRules, originalRules := r.world, r.original;
      SetTime(t);
    }

    // -------------------------------------------------------------------
    // Threats
    // -------------------------------------------------------------------

    /** `SetThreatLevel`: the level is clamped to [0, 1] and the threat's behaviour updated at once. */
    method SetThreatLevel(id: string, level: real)
      modifies `threatLevels, `eventProbabilities, if base.owner == null then {} else {base.owner.node}`triggerEvents
      ensures threatLevels == old(threatLevels)[id := ClampR(level, 0.0, 1.0)] && GetThreatLevel(id) == ClampR(level, 0.0, 1.0)
      ensures var m := ThreatMark(id, ClampR(level, 0.0, 1.0));
        eventProbabilities == old(eventProbabilities)[m.0 := m.1]
      ensures base.owner != null ==>
        base.owner.node.triggerEvents == WithTriggerEvent(old(base.owner.node.triggerEvents), ThreatEvent(id, ClampR(level, 0.0, 1.0)))
      ensures old(ProbabilitiesValid()) ==> ProbabilitiesValid()
      ensures old(ThreatsValid()) ==> ThreatsValid()
    {
      threatLevels := threatLevels[id := ClampR(level, 0.0, 1.0)];
      UpdateThreatBehavior(id);
    }

    /** `RegisterThreat`: a new threat is listed, with level 0.5 unless it has one. */
    method RegisterThreat(id: string)
      modifies `activeThreatIds, `threatLevels
      ensures ThreatsNow() == Registered(old(ThreatsNow()), id)
      ensures old(ThreatsValid()) ==> ThreatsValid()
    {
      RegisteredIdempotent(ThreatsNow(), id);
      if id !in activeThreatIds {
        activeThreatIds := activeThreatIds + [id];
        if id !in threatLevels {
          threatLevels := threatLevels[id := 0.5];
        }
      }
    }

    /**
     * `UpdateThreatBehavior`: a threat with a level steers its event
     * probability and raises its update event on the owner.
     */
    method UpdateThreatBehavior(id: string)
      modifies `eventProbabilities, if base.owner == null then {} else {base.owner.node}`triggerEvents
      ensures id !in threatLevels ==> eventProbabilities == old(eventProbabilities)
      ensures id !in threatLevels && base.owner != null ==> base.owner.node.triggerEvents == old(base.owner.node.triggerEvents)
      ensures id in threatLevels ==> var m := ThreatMark(id, threatLevels[id]);
        eventProbabilities == old(eventProbabilities)[m.0 := m.1]
      ensures id in threatLevels && base.owner != null ==>
        base.owner.node.triggerEvents == WithTriggerEvent(old(base.owner.node.triggerEvents), ThreatEvent(id, threatLevels[id]))
      ensures old(ProbabilitiesValid()) ==> ProbabilitiesValid()
    {
      if id !in threatLevels {
        return;
      }
      var level := threatLevels[id];
      ProcessThreatUpdate(id, level);
      if base.owner != null {
        base.owner.node.AddTriggerEvent(ThreatEvent(id, level));
      }
    }

    method RemoveAllThreats()
      modifies `activeThreatIds, `threatLevels
      ensures activeThreatIds == [] && threatLevels == map[] && ThreatsValid()
    {
      activeThreatIds := [];
      threatLevels := map[];
    }

    /** `ProcessThreatUpdate`: the threat's high, medium or low event gets its probability. */
    method ProcessThreatUpdate(id: string, level: real)
      modifies `eventProbabilities
      ensures var m := ThreatMark(id, level);
        eventProbabilities == old(eventProbabilities)[m.0 := m.1]
      ensures old(ProbabilitiesValid()) ==> ProbabilitiesValid()
    {
      if level > 0.8 {
        SetEventProbability("HighThreat_" + id, 0.9);
      } else if level > 0.5 {
        SetEventProbability("MediumThreat_" + id, 0.5);
      } else {
        SetEventProbability("LowThreat_" + id, 0.2);
      }
    }

    /**
     * The threat timer: every threat with a level is updated, visiting the
     * levels in `order`, then listed threats without a level are dropped.
     * `MarkedAlongAt` shows each threat's event ends with its own mark
     * whatever the order.
     */
    method OnThreatUpdateTimer() returns (ghost order: seq<string>)
      modifies `eventProbabilities, `activeThreatIds, if base.owner == null then {} else {base.owner.node}`triggerEvents
      ensures NoDup(order) && (forall k :: k in order <==> k in threatLevels)
      ensures eventProbabilities == MarkedAlong(old(eventProbabilities), order, threatLevels)
      ensures base.owner != null ==>
        base.owner.node.triggerEvents == WithTriggerEvents(old(base.owner.node.triggerEvents), ThreatEventsAlong(order, threatLevels))
      ensures activeThreatIds == StillThreatened(old(activeThreatIds), threatLevels)
      ensures old(ThreatsValid()) ==> activeThreatIds == old(activeThreatIds) && ThreatsValid()
      ensures old(ProbabilitiesValid()) ==> ProbabilitiesValid()
    {
      var ids := KeysOf(threatLevels);
      order := ids;
      UpdateAll(ids);
      if ThreatsValid() {
        WellFormedThreatsStay(activeThreatIds, threatLevels);
      }
      activeThreatIds := StillThreatened(activeThreatIds, threatLevels);
    }

    /** The update loop of the threat timer. */
    method UpdateAll(ids: seq<string>)
      requires forall i :: 0 <= i < |ids| ==> ids[i] in threatLevels
      modifies `eventProbabilities, if base.owner == null then {} else {base.owner.node}`triggerEvents
      ensures eventProbabilities == MarkedAlong(old(eventProbabilities), ids, threatLevels)
      ensures base.owner != null ==>
        base.owner.node.triggerEvents == WithTriggerEvents(old(base.owner.node.triggerEvents), ThreatEventsAlong(ids, threatLevels))
      ensures old(ProbabilitiesValid()) ==> ProbabilitiesValid()
    {
      var i := 0;
      while i < |ids|
        invariant 0 <= i <= |ids|
        invariant eventProbabilities == MarkedAlong(old(eventProbabilities), ids[..i], threatLevels)
        invariant base.owner != null ==>
          base.owner.node.triggerEvents == WithTriggerEvents(old(base.owner.node.triggerEvents), ThreatEventsAlong(ids[..i], threatLevels))
        invariant old(ProbabilitiesValid()) ==> ProbabilitiesValid()
      {
        var next := i + 1;
        MarkedAlongStep(old(eventProbabilities), ids, i, next, threatLevels);
        ThreatEventsStep(ids, i, next, threatLevels);
        if base.owner != null {
          WithTriggerEventsSnoc(old(base.owner.node.triggerEvents), ThreatEventsAlong(ids[..i], threatLevels),
            ThreatEvent(ids[i], threatLevels[ids[i]]));
        }
        UpdateThreatBehavior(ids[i]);
        i := next;
      }
      assert ids[..i] == ids;
    }

    // -------------------------------------------------------------------
    // Probabilities
    // -------------------------------------------------------------------

    /** `SetEventProbability`: the probability is stored clamped to [0, 1]. */
    method SetEventProbability(id: string, p: real)
      modifies `eventProbabilities
      ensures eventProbabilities == old(eventProbabilities)[id := ClampR(p, 0.0, 1.0)]
      ensures old(ProbabilitiesValid()) ==> ProbabilitiesValid()
    {
      eventProbabilities := eventProbabilities[id := ClampR(p, 0.0, 1.0)];
    }

    /** `SetRandomSeed`: the seed is kept (the random stream itself is not modelled). */
    method SetRandomSeed(seed: int)
      modifies `randomSeed
      ensures randomSeed == seed
    {
      randomSeed := seed;
    }

    // -------------------------------------------------------------------
    // Node generation
    // -------------------------------------------------------------------

    /**
     * `GenerateNode`, with `made` the node the manager creates (null
     * without a manager or when it fails): nothing is generated past the
     * cap or from an unknown template.
     */
    method GenerateNode(tpl: string, made: InteractiveNode?) returns (n: InteractiveNode?)
      modifies `generatedNodes
      ensures n != null <==> old(|generatedNodes|) < maxGeneratedNodes && tpl in nodeTemplates && made != null
      ensures n != null ==> n == made && generatedNodes == old(generatedNodes) + [n]
      ensures n == null ==> generatedNodes == old(generatedNodes)
      ensures old(|generatedNodes|) <= maxGeneratedNodes ==> |generatedNodes| <= maxGeneratedNodes
    {
      if |generatedNodes| >= maxGeneratedNodes || tpl !in nodeTemplates {
        return null;
      }
      n := made;
      if n != null {
        generatedNodes := generatedNodes + [n];
      }
    }

    /**
     * `GenerateNodeCluster`, with one manager answer in `made` per
     * attempt: the cluster is what `Admitted` keeps with the room left
     * under the cap, and every node in it is also recorded as generated.
     */
    method GenerateNodeCluster(tpl: string, count: int, made: seq<InteractiveNode?>) returns (cluster: seq<InteractiveNode>)
      requires |made| == if count < 0 then 0 else count
      modifies `generatedNodes
      ensures cluster == if tpl in nodeTemplates then Admitted(made, maxGeneratedNodes - old(|generatedNodes|)) else []
      ensures generatedNodes == old(generatedNodes) + cluster
    {
      cluster := [];
      ghost var room := if tpl in nodeTemplates then maxGeneratedNodes - |generatedNodes| else 0;
      var i := 0;
      while i < |made|
        invariant 0 <= i <= |made|
        invariant cluster == Admitted(made[..i], room)
        invariant generatedNodes == old(generatedNodes) + cluster
      {
        var next := i + 1;
        AdmittedStep(made, i, next, room);
        var n := GenerateNode(tpl, made[i]);
        if n != null {
          cluster := cluster + [n];
        }
        i := next;
      }
      assert made[..i] == made;
    }

    /** `RegisterNodeTemplate`: only an actual class is registered. */
    method RegisterNodeTemplate(id: string, cls: Option<NodeClass>)
      modifies `nodeTemplates
      ensures cls.Some? ==> nodeTemplates == old(nodeTemplates)[id := cls.value]
      ensures cls.None? ==> nodeTemplates == old(nodeTemplates)
    {
      if cls.Some? {
        nodeTemplates := nodeTemplates[id := cls.value];
      }
    }

    /** `ClearGeneratedNodes`: the generated nodes are forgotten (destroying them is not modelled). */
    method ClearGeneratedNodes()
      modifies `generatedNodes
      ensures generatedNodes == []
    {
      generatedNodes := [];
    }

    // -------------------------------------------------------------------
    // Configuration and the capability's life cycle
    // -------------------------------------------------------------------

    /**
     * `ApplyConfigValue`: the entry changes what `SysConfigApplied` says
     * for its key, and is recorded in the configuration.
     */
    method ApplyConfigValue(key: string, value: string) returns (ghost k: ConfigKey)
      modifies `timeScale, `maxRelationships, `spawnRadius, `maxGeneratedNodes, `globalProbabilityModifier
      modifies `conditionRules, `conditionStates, `worldRules, `eventProbabilities, `systemConfig
      ensures k == ConfigKeyOf(key)
      ensures StoreNow() == SysConfigApplied(old(StoreNow()), k, value)
      ensures systemConfig == old(systemConfig)[key := value]
    {
      var selected := ConfigKeyOf(key);
      k := selected;
      if selected.ConditionKey? || selected.RuleKey? || selected.ProbabilityKey? {
        ApplyEntry(selected, value);
      } else {
        ApplySetting(selected, value);
      }
      systemConfig := systemConfig[key := value];
    }

    /** The branches of `ApplyConfigValue` that set one of the scalar settings. */
    method ApplySetting(k: ConfigKey, value: string)
      requires !(k.ConditionKey? || k.RuleKey? || k.ProbabilityKey?)
      modifies `timeScale, `maxRelationships, `spawnRadius, `maxGeneratedNodes, `globalProbabilityModifier
      ensures StoreNow() == SysConfigApplied(old(StoreNow()), k, value)
    {
      var settings := SysConfigApplied(StoreNow(), k, value).settings;
      timeScale, maxRelationships, spawnRadius, maxGeneratedNodes, globalProbabilityModifier :=
        settings.timeScale, settings.maxRelationships, settings.spawnRadius, settings.maxGenerated, settings.modifier;
    }

    /** The branches of `ApplyConfigValue` that add a condition, a world rule or an event probability. */
    method ApplyEntry(k: ConfigKey, value: string)
      requires k.ConditionKey? || k.RuleKey? || k.ProbabilityKey?
      modifies `conditionRules, `conditionStates, `worldRules, `eventProbabilities
      ensures StoreNow() == SysConfigApplied(old(StoreNow()), k, value)
    {
      match k {
        case ConditionKey(c) => AddCondition(c, value);
        case RuleKey(r) => worldRules := worldRules[r := value];
        case ProbabilityKey(e) => SetEventProbability(e, Atof(value));
      }
    }

    /** `LoadSystemConfig`: every entry is applied, visiting the table in `order`. */
    method LoadSystemConfig(config: map<string, string>) returns (ghost order: seq<string>)
      modifies `timeScale, `maxRelationships, `spawnRadius, `maxGeneratedNodes, `globalProbabilityModifier
      modifies `conditionRules, `conditionStates, `worldRules, `eventProbabilities, `systemConfig
      ensures NoDup(order) && forall k :: k in order <==> k in config
      ensures StoreNow() == SysConfigAlong(old(StoreNow()), order, config)
      ensures systemConfig == old(systemConfig) + config
      ensures old(ProbabilitiesValid()) ==> ProbabilitiesValid()
    {
      var st;
      st, order := LoadEntries(StoreNow(), config);
      if ProbabilitiesValid() {
        SysConfigAlongInRange(StoreNow(), order, config);
      }
      SetStore(st);
      systemConfig := systemConfig + config;
    }

    /** `Initialize`: attach to the owner, then apply the stored configuration. */
    method Initialize(o: ItemNode?) returns (ghost order: seq<string>)
      modifies base
      modifies `timeScale, `maxRelationships, `spawnRadius, `maxGeneratedNodes, `globalProbabilityModifier
      modifies `conditionRules, `conditionStates, `worldRules, `eventProbabilities, `systemConfig
      ensures base.owner == o && systemConfig == old(systemConfig)
      ensures NoDup(order) && forall k :: k in order <==> k in old(systemConfig)
      ensures StoreNow() == SysConfigAlong(old(StoreNow()), order, old(systemConfig))
      ensures old(ProbabilitiesValid()) ==> ProbabilitiesValid()
    {
      base.Initialize(o);
      order := [];
      if |systemConfig| > 0 {
        order := LoadSystemConfig(systemConfig);
      }
    }

    /**
     * `Use`: refused exactly when the base capability refuses; otherwise
     * every condition is evaluated with its draw and the first event, in
     * the table's `order`, whose draw falls below its probability is
     * raised on the owner.
     */
    method Use(d: InteractionData, nodes: map<string, NodeState>, conditionDraws: string -> real, eventDraws: string -> real)
      returns (ok: bool, ghost order: seq<string>)
      modifies base`currentCooldown, `conditionStates, if base.owner == null then {} else {base.owner.node}`triggerEvents
      ensures ok == old(base.CanUse(d))
      ensures NoDup(order) && forall k :: k in order <==> k in eventProbabilities
      ensures !ok ==> conditionStates == old(conditionStates)
      ensures ok ==>
        conditionStates == Evaluated(old(conditionStates), conditionRules, nodes, eventProbabilities, globalProbabilityModifier, conditionDraws)
      ensures base.owner != null && ok ==>
        base.owner.node.triggerEvents == RaisedFirst(old(base.owner.node.triggerEvents), FirstRolled(order, eventProbabilities, globalProbabilityModifier, eventDraws))
      ensures base.owner != null && !ok ==> base.owner.node.triggerEvents == old(base.owner.node.triggerEvents)
    {
      var ids := KeysOf(eventProbabilities);
      order := ids;
      ok := base.Use(d);
      if !ok {
        return;
      }
      EvaluateAllConditions(nodes, conditionDraws);
      var fired := FirstToRoll(ids, eventDraws);
      if fired.Some? && base.owner != null {
        base.owner.node.AddTriggerEvent(fired.value);
      }
    }

    /** The search of `Use`: the events are rolled in turn until one fires. */
    method FirstToRoll(ids: seq<string>, draws: string -> real) returns (fired: Option<string>)
      ensures fired == FirstRolled(ids, eventProbabilities, globalProbabilityModifier, draws)
    {
      var i := 0;
      while i < |ids|
        invariant 0 <= i <= |ids|
        invariant FirstRolled(ids[i..], eventProbabilities, globalProbabilityModifier, draws) ==
          FirstRolled(ids, eventProbabilities, globalProbabilityModifier, draws)
      {
        if draws(ids[i]) < GetEventProbability(ids[i]) {
          return Some(ids[i]);
        }
        assert ids[i..][1..] == ids[i + 1..];
        i := i + 1;
      }
      return None;
    }

    /**
     * `OnOwnerStateChanged`: when the owner completes, every world rule is
     * applied again, in `order`: each rule gets a backup of its current
     * value unless it has one, and TimeFlow rules set the time scale.
     */
    method OnOwnerStateChanged(s: NodeState) returns (ghost order: seq<string>)
      modifies base`engineActive, `worldRules, `originalRules
      modifies `timeScale, `timeDuration, `remainingTimeDuration, `timeControlActive, `globalTimeDilation
      ensures s != Completed ==> RulesNow() == old(RulesNow()) && TimeNow() == old(TimeNow()) && order == []
      ensures s == Completed ==> NoDup(order) && forall k :: k in order <==> k in old(worldRules)
      ensures s == Completed ==> worldRules == old(worldRules) && originalRules == old(worldRules) + old(originalRules)
      ensures s == Completed ==> TimeNow() == TimeAlong(old(TimeNow()), order, old(worldRules), canPauseTime)
    {
      base.OnOwnerStateChanged(s);
      order := [];
      if s != Completed {
        return;
      }
      var r, t;
      r, t, order := ReapplyRules(RulesNow(), TimeNow(), canPauseTime);
      worldRules, originalRules := r.world, r.original;
      SetTime(t);
    }
  }
}
