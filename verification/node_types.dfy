/**
 * The shared vocabulary of the node-relation engine: node states, node
 * kinds, relation kinds, interaction kinds, capability kinds, and the
 * record types handed between the manager, nodes and capabilities,
 * together with their default values.
 */
module NodeTypes {
  import opened Util

  datatype NodeState = Inactive | Active | Completed | Locked | Hidden

  datatype NodeType = Scene | Item | Trigger | Story | Custom

  datatype RelationType = Dependency | Prerequisite | Trigger | Mutual | Parent | Sequence | Emotional

  datatype InteractionType = Click | Hold | Drag | Hover | MultiTouch | Gesture

  datatype CapabilityType = NoCapability | Spatial | State | Interactive | Narrative | System | Numerical

  const AllNodeStates: seq<NodeState> := [Inactive, Active, Completed, Locked, Hidden]
  const AllRelationTypes: seq<RelationType> :=
    [Dependency, Prerequisite, RelationType.Trigger, Mutual, Parent, Sequence, Emotional]

  /** The declaration order of a state, which is also its integer value. */
  function StateOrdinal(s: NodeState): (n: nat)
    ensures n < |AllNodeStates| && AllNodeStates[n] == s
  {
    match s
    case Inactive => 0
    case Active => 1
    case Completed => 2
    case Locked => 3
    case Hidden => 4
  }

  /** An integer read back as a state; values outside the declared range name no state. */
  function StateFromOrdinal(n: int): (r: Option<NodeState>)
    ensures r.Some? <==> 0 <= n < 5
    ensures r.Some? ==> StateOrdinal(r.value) == n
  {
    if 0 <= n < 5 then Some(AllNodeStates[n]) else None
  }

  /** The five states are exactly the listed ones, each once, and ordinals round-trip. */
  lemma NodeStateEnumeration()
    ensures |AllNodeStates| == 5 && NoDup(AllNodeStates)
    ensures forall s: NodeState :: s in AllNodeStates && StateFromOrdinal(StateOrdinal(s)) == Some(s)
  {
    forall s: NodeState
      ensures s in AllNodeStates && StateFromOrdinal(StateOrdinal(s)) == Some(s)
    {
      assert AllNodeStates[StateOrdinal(s)] == s;
    }
  }

  function RelationOrdinal(t: RelationType): (n: nat)
    ensures n < |AllRelationTypes| && AllRelationTypes[n] == t
  {
    match t
    case Dependency => 0
    case Prerequisite => 1
    case Trigger => 2
    case Mutual => 3
    case Parent => 4
    case Sequence => 5
    case Emotional => 6
  }

  /** The seven relation kinds are exactly the listed ones, each once. */
  lemma RelationTypeEnumeration()
    ensures |AllRelationTypes| == 7 && NoDup(AllRelationTypes)
    ensures forall t: RelationType :: t in AllRelationTypes
  {
    forall t: RelationType
      ensures t in AllRelationTypes
    {
      assert AllRelationTypes[RelationOrdinal(t)] == t;
    }
  }

  /** The fixed integer values of the capability kinds, None = 0 up to Numerical = 6. */
  function CapabilityOrdinal(c: CapabilityType): (n: nat)
    ensures n <= 6
    ensures CapabilityFromOrdinal(n) == Some(c)
  {
    match c
    case NoCapability => 0
    case Spatial => 1
    case State => 2
    case Interactive => 3
    case Narrative => 4
    case System => 5
    case Numerical => 6
  }

  function CapabilityFromOrdinal(n: int): (r: Option<CapabilityType>)
    ensures r.Some? <==> 0 <= n <= 6
  {
    if n == 0 then Some(NoCapability)
    else if n == 1 then Some(Spatial)
    else if n == 2 then Some(State)
    else if n == 3 then Some(Interactive)
    else if n == 4 then Some(Narrative)
    else if n == 5 then Some(System)
    else if n == 6 then Some(Numerical)
    else None
  }

  /** Reading an ordinal back and writing it again is the identity on 0..6. */
  lemma CapabilityOrdinalRoundTrip(n: int)
    requires 0 <= n <= 6
    ensures CapabilityOrdinal(CapabilityFromOrdinal(n).value) == n
  {
  }

  /** The node description handed to `Initialize` and to the generators. */
  datatype NodeData = NodeData(
    id: string,
    name: string,
    nodeType: NodeType,
    initialState: NodeState,
    tags: seq<string>,
    customProperties: map<string, string>)

  const DefaultNodeData: NodeData := NodeData("", "New Node", NodeType.Item, Inactive, [], map[])

  /** A relation between two node ids, as read from data or queued for generation. */
  datatype RelationData = RelationData(
    sourceId: string,
    targetId: string,
    relationType: RelationType,
    weight: real,
    bidirectional: bool)

  const DefaultRelationData: RelationData := RelationData("", "", Dependency, 1.0, false)

  /**
   * The player controller that started an interaction. The only thing the
   * model keeps of it is the distance from its pawn to the node, when it
   * has a pawn.
   */
  datatype Instigator = Instigator(pawnDistance: Option<real>)

  datatype InteractionData = InteractionData(
    interactionType: InteractionType,
    instigator: Option<Instigator>,
    duration: real,
    context: map<string, string>)

  const DefaultInteractionData: InteractionData := InteractionData(Click, None, 0.0, map[])

  /** The configuration record of an interactive capability. */
  datatype InteractiveConfig = InteractiveConfig(
    dialogueOptions: map<string, string>,
    observableInfo: map<string, string>,
    maxAttempts: int)

  const DefaultInteractiveConfig: InteractiveConfig := InteractiveConfig(map[], map[], DefaultInteractiveMaxAttempts)

  /**
   * A capability to attach to a generated item; the class is modelled as an
   * optional kind. Of the per-kind configuration records only the
   * interactive one is kept.
   */
  datatype CapabilityData = CapabilityData(
    capabilityClass: Option<CapabilityType>,
    capabilityId: string,
    autoActivate: bool,
    capabilityType: CapabilityType,
    interactiveConfig: InteractiveConfig)

  const DefaultCapabilityData: CapabilityData := CapabilityData(None, "", true, NoCapability, DefaultInteractiveConfig)

  /** The node classes a generator may name; absent means no class was given. */
  datatype NodeClass = InteractiveNodeClass | SceneNodeClass | ItemNodeClass

  datatype NodeGenerateData = NodeGenerateData(
    nodeData: NodeData,
    nodeClass: Option<NodeClass>,
    capabilities: seq<CapabilityData>,
    relations: seq<RelationData>)

  const DefaultGenerateData: NodeGenerateData := NodeGenerateData(DefaultNodeData, None, [], [])

  /** Query filters; a zero distance means no distance limit. */
  datatype NodeQueryParams = NodeQueryParams(
    nodeTypes: seq<NodeType>,
    nodeStates: seq<NodeState>,
    maxDistance: real,
    includeInactive: bool)

  const DefaultQueryParams: NodeQueryParams := NodeQueryParams([], [], 0.0, false)

  /** Default limits of the capability configuration records. */
  const DefaultMaxContainedNodes: int := 5
  const DefaultStateChangeRadius: real := 500.0
  const DefaultInteractiveMaxAttempts: int := 3
  const DefaultMaxMemoryCount: int := 10
  const DefaultSystemMaxRelationships: int := 10
  const DefaultPlayerMaxHealth: real := 100.0
}
