/**
 * The state capability: a cyclic picker over a list of possible states
 * that drives its owner's state, mirrors it internally, checks
 * "RequireState" conditions and unlocks the targets of the owner's
 * Dependency connections when the owner completes.
 *
 * The shared base (owner, activation switch, cooldown) is the
 * `ItemCapability` held in `base`. Connections of the owner that the
 * manager would look up are passed in as `conns`, and the node the
 * manager would find by id as `target`.
 */
module StateCapabilities {
  import opened Util
  import opened Text
  import opened NodeTypes
  import opened Nodes
  import opened Connections
  import opened Items

  /** The state `Use` picks after `s`: the one after its first occurrence, cyclically; the first when `s` is absent. */
  function NextState(ps: seq<NodeState>, s: NodeState): (r: NodeState)
    requires |ps| > 0
    ensures r in ps
  {
    ps[(IndexOf(ps, s) + 1) % |ps|]
  }

  /** `k` uses in a row, starting from `s`. */
  function Cycle(ps: seq<NodeState>, s: NodeState, k: nat): (r: NodeState)
    requires |ps| > 0
  {
    if k == 0 then s else NextState(ps, Cycle(ps, s, k - 1))
  }

  /** From an absent state the first pick is the first possible state. */
  lemma NextFromAbsent(ps: seq<NodeState>, s: NodeState)
    requires |ps| > 0 && s !in ps
    ensures NextState(ps, s) == ps[0]
  {
  }

  /** With distinct possible states, a state's first position is its only one. */
  lemma IndexOfDistinct(ps: seq<NodeState>, i: nat)
    requires NoDup(ps) && i < |ps|
    ensures IndexOf(ps, ps[i]) == i
  {
    var m := IndexOf(ps, ps[i]);
    assert ps[m] == ps[i];
  }

  /** With distinct possible states, the pick after the `i`-th is the next one, wrapping to the first after the last. */
  lemma NextOfDistinct(ps: seq<NodeState>, i: nat)
    requires NoDup(ps) && i < |ps|
    ensures NextState(ps, ps[i]) == if i + 1 < |ps| then ps[i + 1] else ps[0]
  {
    IndexOfDistinct(ps, i);
    SuccMod(i, |ps|);
  }

  lemma SuccMod(i: nat, n: nat)
    requires i < n
    ensures (i + 1) % n == if i + 1 < n then i + 1 else 0
  {
  }

  /**
   * With distinct possible states, `k < n` uses from the first state
   * reach the `k`-th, and `n` uses return to the first: the cycle visits
   * every possible state once.
   */
  lemma {:induction false} CycleVisitsAll(ps: seq<NodeState>, k: nat)
    requires NoDup(ps) && 0 < |ps| && k <= |ps|
    ensures k < |ps| ==> Cycle(ps, ps[0], k) == ps[k]
    ensures k == |ps| ==> Cycle(ps, ps[0], k) == ps[0]
  {
    if k > 0 {
      CycleVisitsAll(ps, k - 1);
      NextOfDistinct(ps, k - 1);
    }
  }

  /** The appearance slot `UpdateNodeAppearance` picks for a state. */
  function AppearanceIndex(s: NodeState): (i: int)
  {
    match s
    case Inactive => 0
    case Active => 1
    case Completed => 2
    case Locked => 3
    case Hidden => 4
  }

  /** The appearance slot of a state is its declaration order, so the five slots are distinct. */
  lemma AppearanceIndexIsOrdinal(s: NodeState, t: NodeState)
    ensures AppearanceIndex(s) == StateOrdinal(s)
    ensures 0 <= AppearanceIndex(s) <= 4
    ensures AppearanceIndex(s) == AppearanceIndex(t) ==> s == t
  {
  }

  /** A state as `static_cast<ENodeState>(Atoi(v))` stores it: the integer truncated to its unsigned 8-bit representation. */
  function StateByte(v: string): (b: int)
    ensures 0 <= b < 256
  {
    Atoi(v) % 256
  }

  /** The decimal rendering of a state's ordinal reads back as that state. */
  lemma StateByteReadsOrdinal(s: NodeState)
    ensures StateByte(IntString(StateOrdinal(s))) == StateOrdinal(s)
  {
    SmallByte(StateOrdinal(s));
  }

  lemma SmallByte(k: nat)
    requires k < 256
    ensures StateByte(IntString(k)) == k
  {
    AtoiReadsIntString(k);
  }

  /**
   * Part of `PropagateState` for a Dependency connection: propagating
   * Completed from its source onto a Locked target makes the target Active.
   */
  predicate UnlocksTarget(c: NodeConnection, from: InteractiveNode, s: NodeState)
    reads c, if c.target == null then {} else {c.target}
  {
    c.relationType == Dependency && c.CanPropagateState(s) && c.target != null &&
    from == c.source && s == Completed && c.target.state == Locked
  }

  /** `UnlocksTarget` is the connection's own propagation restricted to Dependency connections. */
  lemma UnlocksIsPropagation(c: NodeConnection, from: InteractiveNode, s: NodeState)
    requires c.relationType == Dependency
    ensures UnlocksTarget(c, from, s) <==> c.PropagationOf(from, s).Some?
    ensures UnlocksTarget(c, from, s) ==> c.PropagationOf(from, s) == Some((c.target, Active))
  {
  }

  /** The endpoints the propagation may change. */
  function Targets(conns: seq<NodeConnection>): set<InteractiveNode>
  {
    set c | c in conns && c.target != null :: c.target
  }

  /** The targets that the connections, taken in order, unlock. */
  function UnlockedBy(conns: seq<NodeConnection>, from: InteractiveNode, s: NodeState): (r: set<InteractiveNode>)
    reads (set c | c in conns), Targets(conns)
    ensures r <= Targets(conns)
  {
    if conns == [] then {}
    else
      var c := conns[|conns| - 1];
      UnlockedBy(conns[..|conns| - 1], from, s) + (if UnlocksTarget(c, from, s) then {c.target} else {})
  }

  /** Only a Locked target is unlocked. */
  lemma {:induction false} UnlockedWereLocked(conns: seq<NodeConnection>, from: InteractiveNode, s: NodeState)
    ensures forall n :: n in UnlockedBy(conns, from, s) ==> n.state == Locked && s == Completed
  {
    if conns != [] {
      UnlockedWereLocked(conns[..|conns| - 1], from, s);
    }
  }

  /**
   * `PropagateStateChange` over the owner's connections `conns`: every
   * Dependency connection that accepts the state propagates it. Only
   * Completed from the source unlocks a Locked target; every other node
   * keeps its state.
   */
  method PropagateDependencies(conns: seq<NodeConnection>, from: InteractiveNode, s: NodeState)
    modifies Targets(conns)`state, Targets(conns)`stateChanges
    ensures forall n :: n in Targets(conns) ==>
      n.state == if n in old(UnlockedBy(conns, from, s)) then Active else old(n.state)
  {
    UnlockedWereLocked(conns, from, s);
    var i := 0;
    while i < |conns|
      invariant 0 <= i <= |conns|
      invariant forall n :: n in Targets(conns) ==>
        n.state == if n in old(UnlockedBy(conns[..i], from, s)) then Active else old(n.state)
    {
      var c := conns[i];
      assert conns[..i + 1][..i] == conns[..i];
      if c.relationType == Dependency && c.CanPropagateState(s) {
        var to := c.GetOppositeNode(from);
        if to != null && from == c.source && s == Completed && to.state == Locked {
          to.SetNodeState(Active);
        }
      }
      i := i + 1;
    }
    assert conns[..i] == conns;
  }

  /** The configuration keys the state capability recognises. */
  datatype ConfigKey = RadiusKey | DurationKey | AutoCheckKey | IntervalKey | PropagateKey
                     | TargetNodeKey(id: string) | OtherKey

  /**
   * How `ApplyConfigValue` reads a key: the five field names compared
   * ignoring case, in this order, then the TargetNode_ prefix with the
   * node id after it.
   */
  function ConfigKeyOf(key: string): (k: ConfigKey)
  {
    if EqualsIgnoreCase(key, "StateChangeRadius") then RadiusKey
    else if EqualsIgnoreCase(key, "StateTransitionDuration") then DurationKey
    else if EqualsIgnoreCase(key, "AutoCheckState") then AutoCheckKey
    else if EqualsIgnoreCase(key, "StateCheckInterval") then IntervalKey
    else if EqualsIgnoreCase(key, "PropagateThoughDependency") then PropagateKey
    else if StartsWithIgnoreCase(key, "TargetNode_") then TargetNodeKey(RightChop(key, 11))
    else OtherKey
  }

  /** Every field name, in any case, selects its own field; a TargetNode_ key selects the id after the prefix. */
  lemma ConfigKeysSelect(key: string, id: string)
    ensures EqualsIgnoreCase(key, "StateChangeRadius") ==> ConfigKeyOf(key) == RadiusKey
    ensures EqualsIgnoreCase(key, "StateTransitionDuration") ==> ConfigKeyOf(key) == DurationKey
    ensures EqualsIgnoreCase(key, "AutoCheckState") ==> ConfigKeyOf(key) == AutoCheckKey
    ensures EqualsIgnoreCase(key, "StateCheckInterval") ==> ConfigKeyOf(key) == IntervalKey
    ensures EqualsIgnoreCase(key, "PropagateThoughDependency") ==> ConfigKeyOf(key) == PropagateKey
    ensures ConfigKeyOf("TargetNode_" + id) == TargetNodeKey(id)
  {
    ChopPrefix("TargetNode_", id);
    var k := "TargetNode_" + id;
    LetterApart(k, "TargetNode_", "StateChangeRadius", 0);
    LetterApart(k, "TargetNode_", "StateTransitionDuration", 0);
    LetterApart(k, "TargetNode_", "AutoCheckState", 0);
    LetterApart(k, "TargetNode_", "StateCheckInterval", 0);
    LetterApart(k, "TargetNode_", "PropagateThoughDependency", 0);
  }

  class StateCapability {
    const base: ItemCapability
    var possibleStates: seq<NodeState>
    var currentInternalState: NodeState
    var transitionDuration: real
    var isTransitioning: bool
    var transitionTargetState: NodeState
    var stateChangeRadius: real
    var propagateThroughDependency: bool
    var autoCheckState: bool
    var stateCheckInterval: real
    var stateConditions: map<string, string>
    /** Target node id to the state byte last set or configured for it. */
    var targetNodeStates: map<string, int>
    var stateConfig: map<string, string>

    /** The defaults: Active, Inactive, Completed to cycle through, Inactive inside, half a second per transition. */
    constructor()
      ensures fresh(base) && base.kind == State && base.owner == null && !base.capabilityActive
      ensures base.currentCooldown == 0.0 && base.cooldownDuration == 0.0
      ensures possibleStates == [Active, Inactive, Completed] && currentInternalState == Inactive
      ensures transitionDuration == 0.5 && !isTransitioning && stateChangeRadius == 500.0
      ensures propagateThroughDependency && !autoCheckState && stateCheckInterval == 1.0
      ensures stateConditions == map[] && targetNodeStates == map[] && stateConfig == map[]
    {
      base := new ItemCapability(State);
      possibleStates := [Active, Inactive, Completed];
      currentInternalState := Inactive;
      transitionDuration := 0.5;
      isTransitioning := false;
      transitionTargetState := Inactive;
      stateChangeRadius := 500.0;
      propagateThroughDependency := true;
      autoCheckState := false;
      stateCheckInterval := 1.0;
      stateConditions := map[];
      targetNodeStates := map[];
      stateConfig := map[];
    }

    /** `IsStateAvailable`: the state is one of the possible states. */
    predicate IsStateAvailable(s: NodeState)
      reads this
    {
      s in possibleStates
    }

    /** `ValidateStateTransition`: any move to an available state is allowed. */
    predicate ValidateStateTransition(from: NodeState, to: NodeState)
      reads this
    {
      IsStateAvailable(to)
    }

    /** `CanUse`: the base gate, not in a transition, and something to cycle through. */
    predicate CanUse(d: InteractionData)
      reads this, base`capabilityActive, base`owner, base`currentCooldown
      reads if base.owner == null then {} else {base.owner.node}`state
    {
      base.CanUse(d) && !isTransitioning && |possibleStates| > 0
    }

    /**
     * `CheckStateConditions`: true without conditions; otherwise every
     * key equal to "RequireState" (ignoring case) demands, when there is
     * an owner, that the owner's state byte equal the entry's value.
     */
    predicate CheckStateConditions()
      reads this, base`owner, if base.owner == null then {} else {base.owner.node}`state
    {
      |stateConditions| == 0 ||
      forall k :: k in stateConditions && EqualsIgnoreCase(k, "RequireState") && base.owner != null ==>
        StateOrdinal(base.owner.node.state) == StateByte(stateConditions[k])
    }

    /** `AddStateCondition`: the entry is set, every other one kept. */
    method AddStateCondition(k: string, v: string)
      modifies `stateConditions
      ensures stateConditions == old(stateConditions)[k := v]
    {
      stateConditions := stateConditions[k := v];
    }

    /** `RemoveStateCondition`: the entry is gone, every other one kept. */
    method RemoveStateCondition(k: string)
      modifies `stateConditions
      ensures stateConditions == old(stateConditions) - {k}
    {
      stateConditions := stateConditions - {k};
    }

    /** `OnOwnerStateChanged`: the base hook runs and the internal state follows the owner. */
    method OnOwnerStateChanged(s: NodeState)
      modifies `currentInternalState, base`engineActive
      ensures currentInternalState == s
      ensures s == Active ==> (base.engineActive <==>
        old(base.engineActive) || (!base.capabilityActive && base.owner != null && base.owner.autoActivateCapabilities))
      ensures s in {Inactive, Locked, Hidden} ==> (base.engineActive <==> old(base.engineActive) && !base.capabilityActive)
      ensures s == Completed ==> base.engineActive == old(base.engineActive)
    {
      base.OnOwnerStateChanged(s);
      currentInternalState := s;
    }

    /** The transition timer firing: the transition is over. */
    method FinishTransition()
      modifies `isTransitioning
      ensures !isTransitioning
    {
      isTransitioning := false;
    }

    /**
     * `ChangeOwnState`: without an owner, for the current state or for an
     * unavailable state nothing happens. Otherwise a transition with a
     * positive duration starts, the internal and the owner's state become
     * `s`, and, when propagation is on, the owner's Dependency connections
     * unlock their Locked targets if `s` is Completed.
     */
    method ChangeOwnState(s: NodeState, conns: seq<NodeConnection>)
      modifies `currentInternalState, `isTransitioning, `transitionTargetState
      modifies if base.owner == null then {} else {base.owner.node}`state
      modifies if base.owner == null then {} else {base.owner.node}`stateChanges
      modifies Targets(conns)`state, Targets(conns)`stateChanges
      ensures var accepted := old(base.owner) != null && old(currentInternalState) != s && s in possibleStates;
        && (!accepted ==> currentInternalState == old(currentInternalState) && isTransitioning == old(isTransitioning)
                          && (base.owner == null || base.owner.node.state == old(base.owner.node.state)))
        && (accepted ==> currentInternalState == s && base.owner.node.state == s)
        && (accepted && transitionDuration > 0.0 ==> isTransitioning && transitionTargetState == s)
        && (accepted && transitionDuration <= 0.0 ==> isTransitioning == old(isTransitioning))
      ensures forall n :: n in Targets(conns) && (base.owner == null || n != base.owner.node) ==>
        n.state == old(n.state) || (n.state == Active && old(n.state) == Locked && s == Completed)
    {
      if base.owner == null || currentInternalState == s {
        return;
      }
      if !ValidateStateTransition(currentInternalState, s) {
        return;
      }
      if transitionDuration > 0.0 {
        isTransitioning := true;
        transitionTargetState := s;
      }
      currentInternalState := s;
      var owner := base.owner.node;
      owner.SetNodeState(s);
      if propagateThroughDependency {
        UnlockedWereLocked(conns, owner, s);
        PropagateDependencies(conns, owner, s);
      }
    }

    /**
     * `Use`: refused exactly when `CanUse` fails; otherwise the base use
     * runs (starting the cooldown) and the owner moves to the state after
     * the internal one in the possible-state cycle.
     */
    method Use(d: InteractionData, conns: seq<NodeConnection>) returns (ok: bool)
      modifies base`currentCooldown, `currentInternalState, `isTransitioning, `transitionTargetState
      modifies if base.owner == null then {} else {base.owner.node}`state
      modifies if base.owner == null then {} else {base.owner.node}`stateChanges
      modifies Targets(conns)`state, Targets(conns)`stateChanges
      ensures ok == old(CanUse(d))
      ensures ok ==> currentInternalState == NextState(possibleStates, old(currentInternalState))
      ensures ok && currentInternalState != old(currentInternalState) ==> base.owner != null && base.owner.node.state == currentInternalState
      ensures !ok ==> currentInternalState == old(currentInternalState) && base.currentCooldown == old(base.currentCooldown)
    {
      if !CanUse(d) {
        return false;
      }
      ok := base.Use(d);
      var next := NextState(possibleStates, currentInternalState);
      ChangeOwnState(next, conns);
    }

    /**
     * `ChangeTargetNodeState`: an empty id or a node the manager does not
     * find (`target` null) changes nothing; otherwise the id's entry
     * records the state and the node takes it.
     */
    method ChangeTargetNodeState(id: string, s: NodeState, target: InteractiveNode?)
      modifies `targetNodeStates, if target == null then {} else {target}`state
      modifies if target == null then {} else {target}`stateChanges
      ensures id == "" || target == null ==> targetNodeStates == old(targetNodeStates)
      ensures id != "" && target != null ==> targetNodeStates == old(targetNodeStates)[id := StateOrdinal(s)] && target.state == s
    {
      if id == "" {
        return;
      }
      if target != null {
        targetNodeStates := targetNodeStates[id := StateOrdinal(s)];
        target.SetNodeState(s);
      }
    }

    /**
     * `ApplyConfigValue`: the recognised keys set their field, a
     * TargetNode_ key records the value's state byte under the node id,
     * and the raw pair is always kept.
     */
    method ApplyConfigValue(key: string, value: string)
      modifies `stateChangeRadius, `transitionDuration, `autoCheckState, `stateCheckInterval
      modifies `propagateThroughDependency, `targetNodeStates, `stateConfig
      ensures stateConfig == old(stateConfig)[key := value]
      ensures stateChangeRadius == if ConfigKeyOf(key) == RadiusKey then Atof(value) else old(stateChangeRadius)
      ensures transitionDuration == if ConfigKeyOf(key) == DurationKey then Atof(value) else old(transitionDuration)
      ensures autoCheckState == if ConfigKeyOf(key) == AutoCheckKey then ToBool(value) else old(autoCheckState)
      ensures stateCheckInterval == if ConfigKeyOf(key) == IntervalKey then Atof(value) else old(stateCheckInterval)
      ensures propagateThroughDependency ==
        if ConfigKeyOf(key) == PropagateKey then ToBool(value) else old(propagateThroughDependency)
      ensures targetNodeStates ==
        if ConfigKeyOf(key).TargetNodeKey? then old(targetNodeStates)[ConfigKeyOf(key).id := StateByte(value)]
        else old(targetNodeStates)
    {
      ApplyConfigKey(ConfigKeyOf(key), value);
      stateConfig := stateConfig[key := value];
    }

    /** The field update of `ApplyConfigValue` for an already classified key. */
    method ApplyConfigKey(k: ConfigKey, value: string)
      modifies `stateChangeRadius, `transitionDuration, `autoCheckState, `stateCheckInterval
      modifies `propagateThroughDependency, `targetNodeStates
      ensures stateChangeRadius == if k == RadiusKey then Atof(value) else old(stateChangeRadius)
      ensures transitionDuration == if k == DurationKey then Atof(value) else old(transitionDuration)
      ensures autoCheckState == if k == AutoCheckKey then ToBool(value) else old(autoCheckState)
      ensures stateCheckInterval == if k == IntervalKey then Atof(value) else old(stateCheckInterval)
      ensures propagateThroughDependency == if k == PropagateKey then ToBool(value) else old(propagateThroughDependency)
      ensures targetNodeStates ==
        if k.TargetNodeKey? then old(targetNodeStates)[k.id := StateByte(value)] else old(targetNodeStates)
    {
      match k
      case RadiusKey => stateChangeRadius := Atof(value);
      case DurationKey => transitionDuration := Atof(value);
      case AutoCheckKey => autoCheckState := ToBool(value);
      case IntervalKey => stateCheckInterval := Atof(value);
      case PropagateKey => propagateThroughDependency := ToBool(value);
      case TargetNodeKey(id) => targetNodeStates := targetNodeStates[id := StateByte(value)];
      case OtherKey =>
    }
  }

  /** With no conditions, the check passes whatever the owner's state. */
  lemma NoConditionsPass(c: StateCapability)
    requires |c.stateConditions| == 0
    ensures c.CheckStateConditions()
  {
  }

  /**
   * A single "RequireState" condition written as a state's ordinal passes
   * exactly when the owner is in that state (or there is no owner).
   */
  lemma RequireStateMeansState(c: StateCapability, s: NodeState)
    requires c.stateConditions == map["RequireState" := IntString(StateOrdinal(s))]
    ensures c.CheckStateConditions() <==> c.base.owner == null || c.base.owner.node.state == s
  {
    StateByteReadsOrdinal(s);
    IgnoreCaseEquivalence();
    assert "RequireState" in c.stateConditions;
    if c.base.owner != null && c.CheckStateConditions() {
      assert StateOrdinal(c.base.owner.node.state) == StateOrdinal(s);
    }
  }

  /** A TargetNode_ entry configured with a state's ordinal records that state under the node id. */
  lemma TargetNodeConfigReadsState(id: string, s: NodeState)
    ensures ConfigKeyOf("TargetNode_" + id) == TargetNodeKey(id)
    ensures StateByte(IntString(StateOrdinal(s))) == StateOrdinal(s)
  {
    ConfigKeysSelect("", id);
    StateByteReadsOrdinal(s);
  }
}
