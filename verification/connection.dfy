/**
 * A typed, weighted connection between two interactive nodes: which node
 * states and interactions it lets through, what a propagated state does to
 * the node at the other end, and the rule that ties the bidirectional flag
 * to the relation type.
 */
module Connections {
  import opened Util
  import opened NodeTypes
  import opened Nodes

  /** The engine's enum display name, `ENodeRelationType::X`. */
  function RelationTypeName(t: RelationType): (r: string)
    ensures |r| > 19 && r[..19] == "ENodeRelationType::"
  {
    "ENodeRelationType::" +
    match t
    case Dependency => "Dependency"
    case Prerequisite => "Prerequisite"
    case Trigger => "Trigger"
    case Mutual => "Mutual"
    case Parent => "Parent"
    case Sequence => "Sequence"
    case Emotional => "Emotional"
  }

  /** Distinct relation types have distinct display names. */
  lemma RelationTypeNameInjective(a: RelationType, b: RelationType)
    requires RelationTypeName(a) == RelationTypeName(b)
    ensures a == b
  {
    var p := "ENodeRelationType::";
    assert RelationTypeName(a)[|p|..] == RelationTypeName(b)[|p|..];
  }

  /** `<source id>_to_<target id>_<relation type name>`. */
  function ConnectionId(sourceId: string, targetId: string, t: RelationType): string
  {
    sourceId + "_to_" + targetId + "_" + RelationTypeName(t)
  }

  /**
   * `ApplyRelationTypeRules` on the flag: Parent and Mutual are forced
   * bidirectional, Sequence is forced one-way, every other type keeps the
   * requested flag.
   */
  function ForcedBidirectional(t: RelationType, requested: bool): bool
  {
    match t
    case Parent => true
    case Mutual => true
    case Sequence => false
    case _ => requested
  }

  /** The rule is a projection: applying it twice is applying it once, and a flag only sticks for the free types. */
  lemma RelationRuleProperties(t: RelationType, b: bool)
    ensures ForcedBidirectional(t, ForcedBidirectional(t, b)) == ForcedBidirectional(t, b)
    ensures ForcedBidirectional(t, b) == b <==> (t !in {Parent, Mutual, Sequence} || (t == Sequence) == !b)
    ensures t in {Parent, Mutual} ==> ForcedBidirectional(t, b)
    ensures t == Sequence ==> !ForcedBidirectional(t, b)
  {
  }

  /**
   * The propagation table of `CanPropagateState` for a valid, active
   * connection: which node states a relation type carries.
   */
  predicate PropagatesState(t: RelationType, s: NodeState)
  {
    match t
    case Dependency => s == Completed
    case Trigger => s == Active || s == Completed
    case Parent => true
    case Prerequisite => s == Completed
    case Sequence => s == Completed
    case Mutual => s == Active || s == Completed
    case Emotional => false
  }

  /** The table read by columns: which relation types carry each state. */
  lemma PropagationByState(t: RelationType)
    ensures PropagatesState(t, Completed) <==> t != Emotional
    ensures PropagatesState(t, Active) <==> t in {RelationType.Trigger, Mutual, Parent}
    ensures forall s :: s in {Inactive, Locked, Hidden} ==> (PropagatesState(t, s) <==> t == Parent)
    ensures !PropagatesState(Emotional, Completed) && forall s :: PropagatesState(Parent, s)
  {
  }

  /** `CanPropagateInteraction` for a valid, active connection. */
  predicate PropagatesInteraction(t: RelationType)
  {
    t == Parent || t == Mutual
  }

  /**
   * The interaction a connection passes on: the same interaction, with its
   * context tagged by the sender's id and the connection's relation type
   * (a `TMap::Add` on an existing key replaces the entry).
   */
  function Propagated(d: InteractionData, fromId: string, t: RelationType): (r: InteractionData)
    ensures r.interactionType == d.interactionType && r.instigator == d.instigator && r.duration == d.duration
    ensures "PropagatedFrom" in r.context && r.context["PropagatedFrom"] == fromId
    ensures "ConnectionType" in r.context && r.context["ConnectionType"] == RelationTypeName(t)
    ensures r.context.Keys == d.context.Keys + {"PropagatedFrom", "ConnectionType"}
    ensures forall k :: k in d.context && k != "PropagatedFrom" && k != "ConnectionType" ==> r.context[k] == d.context[k]
  {
    d.(context := d.context["PropagatedFrom" := fromId]["ConnectionType" := RelationTypeName(t)])
  }

  /**
   * The state the node at the far end is set to when a state is propagated,
   * by relation type, or None when the type has no effect for this sender,
   * state and current far-end state. `fromSource` says the sender is the
   * connection's source; `strength` is weight × strength.
   */
  function PropagationEffect(t: RelationType, fromSource: bool, s: NodeState, farState: NodeState, strength: real): (r: Option<NodeState>)
    ensures r.Some? && t in {Dependency, Prerequisite} ==> fromSource && s == Completed && farState == Locked && r.value == Active
    ensures r.Some? && t in {RelationType.Trigger, Sequence} ==> fromSource && r.value == Active
    ensures r.Some? && t == Parent ==> r.value == s && strength >= 0.5
    ensures t in {Mutual, Emotional} ==> r.None?
    ensures t in {Dependency, Prerequisite} ==> (r.Some? <==> fromSource && s == Completed && farState == Locked)
    ensures t == RelationType.Trigger ==> (r.Some? <==> fromSource && s == Active)
    ensures t == Sequence ==> (r.Some? <==> fromSource && s == Completed)
    ensures t == Parent ==> (r.Some? <==> strength >= 0.5)
  {
    match t
    case Dependency =>
      if fromSource && s == Completed && farState == Locked then Some(Active) else None
    case Prerequisite =>
      if fromSource && s == Completed && farState == Locked then Some(Active) else None
    case Trigger =>
      if fromSource && s == Active then Some(Active) else None
    case Parent =>
      if strength >= 0.5 then Some(s) else None
    case Sequence =>
      if fromSource && s == Completed then Some(Active) else None
    case Mutual => None
    case Emotional => None
  }

  /**
   * A Trigger connection is allowed to carry Completed, yet carrying it never
   * changes the far end: only Active has an effect.
   */
  lemma TriggerCompletedHasNoEffect(fromSource: bool, farState: NodeState, strength: real)
    ensures PropagatesState(RelationType.Trigger, Completed)
    ensures PropagationEffect(RelationType.Trigger, fromSource, Completed, farState, strength).None?
  {
  }

  /**
   * Every effect of a state the table lets through moves the far end to
   * Active or copies the sender's state; nothing else is ever produced.
   */
  lemma EffectIsActiveOrCopy(t: RelationType, fromSource: bool, s: NodeState, farState: NodeState, strength: real)
    requires PropagatesState(t, s)
    ensures var r := PropagationEffect(t, fromSource, s, farState, strength);
      r.Some? ==> r.value == Active || (t == Parent && r.value == s)
  {
  }

  class NodeConnection {
    const source: InteractiveNode?
    const target: InteractiveNode?
    const relationType: RelationType
    const id: string
    var weight: real
    var active: bool
    var bidirectional: bool
    var strength: real
    var activationDelay: real
    var animating: bool

    /** Weight and strength are fractions, the delay is never negative. */
    ghost predicate Valid()
      reads this
    {
      0.0 <= weight <= 1.0 && 0.0 <= strength <= 1.0 && activationDelay >= 0.0
    }

    /**
     * Spawning a connection and calling `Initialize` on it. A spawned
     * connection is active, one-way, of weight and strength 1 and without
     * delay. With both nodes given it takes their ids, its type and its id,
     * and applies the relation-type rule to the flag; with either node
     * missing it keeps no endpoint and the default Dependency type.
     */
    constructor(src: InteractiveNode?, tgt: InteractiveNode?, t: RelationType)
      ensures src != null && tgt != null ==>
        source == src && target == tgt && relationType == t && id == ConnectionId(src.data.id, tgt.data.id, t)
      ensures src == null || tgt == null ==> source == null && target == null && relationType == Dependency && id == ""
      ensures weight == 1.0 && strength == 1.0 && activationDelay == 0.0 && active && !animating
      ensures bidirectional == ForcedBidirectional(relationType, false)
      ensures Valid()
    {
      if src != null && tgt != null {
        source := src;
        target := tgt;
        relationType := t;
        id := ConnectionId(src.data.id, tgt.data.id, t);
      } else {
        source := null;
        target := null;
        relationType := Dependency;
        id := "";
      }
      weight := 1.0;
      active := true;
      bidirectional := false;
      strength := 1.0;
      activationDelay := 0.0;
      animating := false;
      new;
      if src != null && tgt != null {
        ApplyRelationTypeRules();
      }
    }

    /** Both endpoints are set and the connection is active. */
    predicate IsValid()
      reads this
    {
      source != null && target != null && active
    }

    /** `ValidateConnection`: both endpoints set and distinct. */
    predicate ValidateConnection()
      reads this
    {
      source != null && target != null && source != target
    }

    /** Joins `a` to `b` in that direction, or in either when bidirectional. */
    predicate IsConnecting(a: InteractiveNode?, b: InteractiveNode?)
      reads this
    {
      a != null && b != null && IsValid() &&
      ((source == a && target == b) || (bidirectional && source == b && target == a))
    }

    /**
     * The other endpoint of a valid connection, whichever direction the
     * connection has; null for any node that is not an endpoint.
     */
    function GetOppositeNode(from: InteractiveNode?): (r: InteractiveNode?)
      reads this
      ensures r != null <==> from != null && IsValid() && (from == source || from == target)
      ensures r != null ==> r == source || r == target
    {
      if from == null || !IsValid() then null
      else if from == source then target
      else if from == target then source
      else null
    }

    predicate CanPropagateState(s: NodeState)
      reads this
    {
      IsValid() && PropagatesState(relationType, s)
    }

    predicate CanPropagateInteraction()
      reads this
    {
      IsValid() && PropagatesInteraction(relationType)
    }

    /**
     * `PropagateState` without its side effect: the node it would set and
     * the state it would set it to, if any.
     */
    function PropagationOf(from: InteractiveNode?, s: NodeState): (r: Option<(InteractiveNode, NodeState)>)
      reads this, target, source
      ensures r.Some? ==> CanPropagateState(s) && r.value.0 == GetOppositeNode(from)
      ensures r.Some? && relationType != Parent ==> from == source && r.value.0 == target && r.value.1 == Active
      ensures CanPropagateState(s) && from == source && relationType in {Dependency, Prerequisite} && s == Completed && target.state == Locked ==>
        r == Some((target, Active))
      ensures CanPropagateState(s) && from == source && relationType == RelationType.Trigger && s == Active ==> r == Some((target, Active))
      ensures CanPropagateState(s) && from == source && relationType == Sequence && s == Completed ==> r == Some((target, Active))
      ensures CanPropagateState(s) && relationType == Parent && (from == source || from == target) && weight * strength >= 0.5 ==>
        r == Some((GetOppositeNode(from), s))
    {
      if !CanPropagateState(s) then None
      else
        var to := GetOppositeNode(from);
        if to == null then None
        else
          var to': InteractiveNode := to;
          match PropagationEffect(relationType, from == source, s, to'.state, weight * strength)
          case None => None
          case Some(x) => Some((to', x))
    }

    method SetConnectionWeight(w: real)
      modifies this
      ensures weight == ClampR(w, 0.0, 1.0)
      ensures 0.0 <= weight <= 1.0
      ensures 0.0 <= w <= 1.0 ==> weight == w
      ensures active == old(active) && bidirectional == old(bidirectional) && strength == old(strength)
      ensures activationDelay == old(activationDelay) && animating == old(animating)
    {
      weight := ClampR(w, 0.0, 1.0);
    }

    /** Sets the flag and re-applies the relation-type rule. */
    method SetBidirectional(b: bool)
      modifies this
      ensures bidirectional == ForcedBidirectional(relationType, b)
      ensures weight == old(weight) && active == old(active) && strength == old(strength)
      ensures activationDelay == old(activationDelay) && animating == old(animating)
    {
      bidirectional := b;
      ApplyRelationTypeRules();
    }

    method ApplyRelationTypeRules()
      modifies this
      ensures bidirectional == ForcedBidirectional(relationType, old(bidirectional))
      ensures weight == old(weight) && active == old(active) && strength == old(strength)
      ensures activationDelay == old(activationDelay) && animating == old(animating)
    {
      match relationType
      case Parent => bidirectional := true;
      case Mutual => bidirectional := true;
      case Sequence => bidirectional := false;
      case _ =>
    }

    /** Idempotent: an active connection is left untouched; otherwise it becomes active and starts animating. */
    method Activate()
      modifies this
      ensures active
      ensures old(active) ==> animating == old(animating)
      ensures !old(active) ==> animating
      ensures weight == old(weight) && bidirectional == old(bidirectional) && strength == old(strength)
      ensures activationDelay == old(activationDelay)
    {
      if active {
        return;
      }
      active := true;
      animating := true;
    }

    /** Idempotent: an inactive connection is left untouched; otherwise it stops and stops animating. */
    method Deactivate()
      modifies this
      ensures !active
      ensures !old(active) ==> animating == old(animating)
      ensures old(active) ==> !animating
      ensures weight == old(weight) && bidirectional == old(bidirectional) && strength == old(strength)
      ensures activationDelay == old(activationDelay)
    {
      if !active {
        return;
      }
      active := false;
      animating := false;
    }

    /** The endpoints that are set. */
    function Ends(): set<InteractiveNode>
      reads this
    {
      (if source == null then {} else {source}) + (if target == null then {} else {target})
    }

    /**
     * `PropagateInteraction`: a connection that lets interactions through
     * offers the tagged interaction to the node at the other end of `from`;
     * any other call changes nothing. The node is offered it as a plain
     * node (`extraStory` false). Returns the node offered it, or null.
     */
    method PropagateInteraction(from: InteractiveNode?, d: InteractionData) returns (to: InteractiveNode?)
      modifies Ends()`interactions, Ends()`storyTriggers
      ensures to == (if CanPropagateInteraction() then GetOppositeNode(from) else null)
      ensures to == null && source != null ==> unchanged(source`interactions, source`storyTriggers)
      ensures to == null && target != null ==> unchanged(target`interactions, target`storyTriggers)
      ensures to != null ==> var p := Propagated(d, from.data.id, relationType);
        (old(to.CanInteract(p)) <==> to.interactions == old(to.interactions) + [p])
        && (!old(to.CanInteract(p)) ==> unchanged(to`interactions, to`storyTriggers))
    {
      to := null;
      if !CanPropagateInteraction() {
        return;
      }
      var other := GetOppositeNode(from);
      if other == null {
        return;
      }
      to := other;
      other.OnInteract(Propagated(d, from.data.id, relationType), false);
    }
  }

  /**
   * `GetOppositeNode` is an involution on the endpoints of a connection
   * between two distinct nodes: going across and back returns the start.
   */
  lemma OppositeInvolution(c: NodeConnection, a: InteractiveNode)
    requires c.ValidateConnection()
    requires c.GetOppositeNode(a) != null
    ensures c.GetOppositeNode(c.GetOppositeNode(a)) == a
  {
  }

  /** A connection that connects `a` to `b` leads from `a` to `b`, even against its direction. */
  lemma ConnectingLeadsAcross(c: NodeConnection, a: InteractiveNode, b: InteractiveNode)
    requires c.IsConnecting(a, b)
    ensures c.GetOppositeNode(a) == b
  {
  }

  /**
   * The opposite node ignores the bidirectional flag: a one-way connection
   * that does not connect its target to its source still leads from the
   * target back to the source.
   */
  lemma OppositeIgnoresDirection(c: NodeConnection)
    requires c.IsValid() && !c.bidirectional && c.ValidateConnection()
    ensures !c.IsConnecting(c.target, c.source)
    ensures c.GetOppositeNode(c.target) == c.source
  {
  }

  /** An inactive connection carries nothing: no state, no interaction, no opposite node. */
  lemma InactiveCarriesNothing(c: NodeConnection, from: InteractiveNode?, s: NodeState)
    requires !c.active
    ensures !c.CanPropagateState(s) && !c.CanPropagateInteraction()
    ensures c.GetOppositeNode(from) == null
  {
  }
}
