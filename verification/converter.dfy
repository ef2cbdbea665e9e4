/**
 * The data converter that turns a scene description into generation specs
 * and relation specs. The JSON parser itself is not modelled: a document
 * arrives already split into its fields. A string field that is absent or
 * not a string reads as "" (the converter's local strings start empty), a
 * number or flag that is absent is `None`, and an array element that is
 * not an object is `None`.
 */
module Converter {
  import opened Util
  import opened NodeTypes

  /** The lower-case names the converter recognises for node kinds; `Custom` has none. */
  function NodeTypeName(t: NodeType): string
  {
    match t
    case Scene => "scene"
    case Item => "item"
    case Trigger => "trigger"
    case Story => "story"
    case Custom => "custom"
  }

  /**
   * `StringToNodeType`: the four names up to case; anything else, "custom"
   * included, is an item.
   */
  function StringToNodeType(s: string): (t: NodeType)
    ensures t != Custom
    ensures t == Item <==> !EqualsIgnoreCase(s, "scene") && !EqualsIgnoreCase(s, "trigger") && !EqualsIgnoreCase(s, "story")
  {
    if EqualsIgnoreCase(s, "scene") then Scene
    else if EqualsIgnoreCase(s, "item") then Item
    else if EqualsIgnoreCase(s, "trigger") then NodeType.Trigger
    else if EqualsIgnoreCase(s, "story") then Story
    else Item
  }

  /** Every kind but `Custom` is read back from its name in any case; "custom" reads as an item. */
  lemma NodeTypeNameParses(t: NodeType, s: string)
    requires EqualsIgnoreCase(s, NodeTypeName(t))
    ensures StringToNodeType(s) == if t == Custom then Item else t
  {
    var names := ["scene", "item", "trigger", "story", "custom"];
    forall n | n in names && n != NodeTypeName(t)
      ensures !EqualsIgnoreCase(s, n)
    {
      assert !EqualsIgnoreCase(NodeTypeName(t), n);
      IgnoreCaseApart(s, NodeTypeName(t), n);
    }
  }

  /** The lower-case names of the node states. */
  function NodeStateName(s: NodeState): string
  {
    match s
    case Inactive => "inactive"
    case Active => "active"
    case Completed => "completed"
    case Locked => "locked"
    case Hidden => "hidden"
  }

  /** `StringToNodeState`: the five names up to case; anything else is Inactive. */
  function StringToNodeState(s: string): (r: NodeState)
    ensures r != Inactive ==> EqualsIgnoreCase(s, NodeStateName(r))
  {
    if EqualsIgnoreCase(s, "active") then Active
    else if EqualsIgnoreCase(s, "inactive") then Inactive
    else if EqualsIgnoreCase(s, "completed") then Completed
    else if EqualsIgnoreCase(s, "locked") then Locked
    else if EqualsIgnoreCase(s, "hidden") then Hidden
    else Inactive
  }

  /** Every state is read back from its name in any case. */
  lemma NodeStateNameParses(n: NodeState, s: string)
    requires EqualsIgnoreCase(s, NodeStateName(n))
    ensures StringToNodeState(s) == n
  {
    var names := ["active", "inactive", "completed", "locked", "hidden"];
    forall m | m in names && m != NodeStateName(n)
      ensures !EqualsIgnoreCase(s, m)
    {
      assert !EqualsIgnoreCase(NodeStateName(n), m);
      IgnoreCaseApart(s, NodeStateName(n), m);
    }
  }

  /** The lower-case names of the relation kinds. */
  function RelationTypeName(t: RelationType): string
  {
    match t
    case Dependency => "dependency"
    case Prerequisite => "prerequisite"
    case Trigger => "trigger"
    case Mutual => "mutual"
    case Parent => "parent"
    case Sequence => "sequence"
    case Emotional => "emotional"
  }

  /**
   * `StringToRelationType`: six names up to case; "emotional" has no branch
   * and, like anything unknown, reads as a dependency.
   */
  function StringToRelationType(s: string): (r: RelationType)
    ensures r != Emotional
  {
    if EqualsIgnoreCase(s, "dependency") then Dependency
    else if EqualsIgnoreCase(s, "prerequisite") then Prerequisite
    else if EqualsIgnoreCase(s, "trigger") then RelationType.Trigger
    else if EqualsIgnoreCase(s, "mutual") then Mutual
    else if EqualsIgnoreCase(s, "parent") then Parent
    else if EqualsIgnoreCase(s, "sequence") then Sequence
    else Dependency
  }

  /** Every relation kind but `Emotional` is read back from its name in any case; "emotional" reads as a dependency. */
  lemma RelationTypeNameParses(t: RelationType, s: string)
    requires EqualsIgnoreCase(s, RelationTypeName(t))
    ensures StringToRelationType(s) == if t == Emotional then Dependency else t
  {
    var names := ["dependency", "prerequisite", "trigger", "mutual", "parent", "sequence", "emotional"];
    forall m | m in names && m != RelationTypeName(t)
      ensures !EqualsIgnoreCase(s, m)
    {
      assert !EqualsIgnoreCase(RelationTypeName(t), m);
      IgnoreCaseApart(s, RelationTypeName(t), m);
    }
  }

  /** The lower-case names of the interaction kinds. */
  function InteractionTypeName(t: InteractionType): string
  {
    match t
    case Click => "click"
    case Hold => "hold"
    case Drag => "drag"
    case Hover => "hover"
    case MultiTouch => "multitouch"
    case Gesture => "gesture"
  }

  /** `StringToInteractionType`: six names up to case; anything else is a click. */
  function StringToInteractionType(s: string): (r: InteractionType)
    ensures r != Click ==> EqualsIgnoreCase(s, InteractionTypeName(r))
  {
    if EqualsIgnoreCase(s, "click") then Click
    else if EqualsIgnoreCase(s, "hold") then Hold
    else if EqualsIgnoreCase(s, "drag") then Drag
    else if EqualsIgnoreCase(s, "hover") then Hover
    else if EqualsIgnoreCase(s, "multitouch") then MultiTouch
    else if EqualsIgnoreCase(s, "gesture") then Gesture
    else Click
  }

  /** Every interaction kind is read back from its name in any case. */
  lemma InteractionTypeNameParses(t: InteractionType, s: string)
    requires EqualsIgnoreCase(s, InteractionTypeName(t))
    ensures StringToInteractionType(s) == t
  {
    var names := ["click", "hold", "drag", "hover", "multitouch", "gesture"];
    forall m | m in names && m != InteractionTypeName(t)
      ensures !EqualsIgnoreCase(s, m)
    {
      assert !EqualsIgnoreCase(InteractionTypeName(t), m);
      IgnoreCaseApart(s, InteractionTypeName(t), m);
    }
  }

  /**
   * An element of an interaction list that `ParseInteractionTypes` keeps:
   * a string whose kind is not the click fallback, or that names click.
   */
  predicate KeepsInteraction(v: Option<string>)
  {
    v.Some? && (StringToInteractionType(v.value) != Click || EqualsIgnoreCase(v.value, "click"))
  }

  /** The kinds an interaction list yields, each once, in the order they first appear. */
  function InteractionTypesOf(values: seq<Option<string>>): (r: seq<InteractionType>)
    ensures NoDup(r)
    ensures forall t :: t in r <==> exists i :: 0 <= i < |values| && KeepsInteraction(values[i]) && StringToInteractionType(values[i].value) == t
  {
    if values == [] then []
    else
      var front := values[..|values| - 1];
      var last := values[|values| - 1];
      var r := InteractionTypesOf(front);
      assert forall i :: 0 <= i < |front| ==> front[i] == values[i];
      if KeepsInteraction(last) then AddUnique(r, StringToInteractionType(last.value)) else r
  }

  /** A click is kept only from an element that names it. */
  lemma ClickOnlyFromItsName(values: seq<Option<string>>, i: int)
    requires 0 <= i < |values| && KeepsInteraction(values[i]) && StringToInteractionType(values[i].value) == Click
    ensures EqualsIgnoreCase(values[i].value, "click")
  {
  }

  /** `ParseInteractionTypes`: the loop over the list, adding each kept kind unless already present. */
  method ParseInteractionTypes(values: seq<Option<string>>) returns (r: seq<InteractionType>)
    ensures r == InteractionTypesOf(values)
  {
    r := [];
    var i := 0;
    while i < |values|
      invariant 0 <= i <= |values|
      invariant r == InteractionTypesOf(values[..i])
    {
      assert values[..i + 1][..i] == values[..i];
      if KeepsInteraction(values[i]) {
        r := AddUnique(r, StringToInteractionType(values[i].value));
      }
      i := i + 1;
    }
    assert values[..i] == values;
  }

  /** The elements of `xs` that are present and that `parse` accepts, in order. */
  function Accepted<T, U(==,!new)>(xs: seq<Option<T>>, parse: T -> Option<U>): (r: seq<U>)
    ensures |r| <= |xs|
    ensures forall u :: u in r <==> exists i :: 0 <= i < |xs| && xs[i].Some? && parse(xs[i].value) == Some(u)
  {
    if xs == [] then []
    else
      var front := xs[..|xs| - 1];
      var last := xs[|xs| - 1];
      assert forall i :: 0 <= i < |front| ==> front[i] == xs[i];
      Accepted(front, parse) + (if last.Some? && parse(last.value).Some? then [parse(last.value).value] else [])
  }

  /** Nothing is accepted exactly when no element is present and accepted. */
  lemma AcceptedEmpty<T, U(!new)>(xs: seq<Option<T>>, parse: T -> Option<U>)
    ensures Accepted(xs, parse) == [] <==> forall i :: 0 <= i < |xs| && xs[i].Some? ==> parse(xs[i].value).None?
  {
    if Accepted(xs, parse) != [] {
      var u := Accepted(xs, parse)[0];
      assert u in Accepted(xs, parse);
    }
  }

  /** The loop shared by the three array fields: every element that is an object and parses is added. */
  method Collect<T, U(==,!new)>(xs: seq<Option<T>>, parse: T -> Option<U>) returns (out: seq<U>)
    ensures out == Accepted(xs, parse)
  {
    out := [];
    var i := 0;
    while i < |xs|
      invariant 0 <= i <= |xs|
      invariant out == Accepted(xs[..i], parse)
    {
      assert xs[..i + 1][..i] == xs[..i];
      if xs[i].Some? {
        var parsed := parse(xs[i].value);
        if parsed.Some? {
          out := out + [parsed.value];
        }
      }
      i := i + 1;
    }
    assert xs[..i] == xs;
  }

  /** The `config` object of an interactive capability: string-or-other values, and an optional attempt limit. */
  datatype RawInteractiveConfig = RawInteractiveConfig(
    dialogueOptions: map<string, Option<string>>,
    observableInfo: map<string, Option<string>>,
    maxAttempts: Option<int>)

  /** A capability object: its `type` string and its `config` object when it has one. */
  datatype RawCapability = RawCapability(typeName: string, config: Option<RawInteractiveConfig>)

  /** A node object: its strings and its `capabilities` array when it has one. */
  datatype RawNode = RawNode(
    id: string,
    typeName: string,
    name: string,
    stateName: string,
    capabilities: Option<seq<Option<RawCapability>>>)

  /** A relation object. */
  datatype RawRelation = RawRelation(
    sourceId: string,
    targetId: string,
    relationType: string,
    weight: Option<real>,
    bidirectional: Option<bool>)

  /** A parsed document: its `nodes` and `relations` arrays when it has them. */
  datatype RawDocument = RawDocument(
    nodes: Option<seq<Option<RawNode>>>,
    relations: Option<seq<Option<RawRelation>>>)

  /** The string-valued entries of a JSON object. */
  function StringEntries(m: map<string, Option<string>>): (r: map<string, string>)
    ensures forall k :: k in r <==> k in m && m[k].Some?
    ensures forall k :: k in r ==> Some(r[k]) == m[k]
  {
    map k | k in m && m[k].Some? :: m[k].value
  }

  /**
   * `ParseInteractiveConfig`: the string-valued dialogue options and
   * observable infos are added to the default record, and a given attempt
   * limit replaces the default.
   */
  function ParseInteractiveConfig(c: RawInteractiveConfig): (r: InteractiveConfig)
    ensures r.maxAttempts == if c.maxAttempts.Some? then c.maxAttempts.value else DefaultInteractiveMaxAttempts
    ensures forall k :: k in r.dialogueOptions <==> k in c.dialogueOptions && c.dialogueOptions[k].Some?
    ensures forall k :: k in r.observableInfo <==> k in c.observableInfo && c.observableInfo[k].Some?
  {
    InteractiveConfig(
      StringEntries(c.dialogueOptions),
      StringEntries(c.observableInfo),
      if c.maxAttempts.Some? then c.maxAttempts.value else DefaultInteractiveMaxAttempts)
  }

  /**
   * `ParseCapabilityObject`: only the interactive and spatial kinds are
   * accepted; the id is the type string as written followed by
   * "_capability"; the class stays unset and auto-activation is on.
   */
  function ParseCapability(c: RawCapability): (r: Option<CapabilityData>)
    ensures r.Some? <==> EqualsIgnoreCase(c.typeName, "interactive") || EqualsIgnoreCase(c.typeName, "spatial")
    ensures r.Some? ==> r.value.capabilityClass.None? && r.value.autoActivate
    ensures r.Some? ==> r.value.capabilityId == c.typeName + "_capability"
    ensures r.Some? ==> r.value.capabilityType == (if EqualsIgnoreCase(c.typeName, "interactive") then Interactive else Spatial)
    ensures r.Some? && r.value.capabilityType == Spatial ==> r.value.interactiveConfig == DefaultInteractiveConfig
  {
    var kind :=
      if EqualsIgnoreCase(c.typeName, "interactive") then Interactive
      else if EqualsIgnoreCase(c.typeName, "spatial") then Spatial
      else NoCapability;
    var config :=
      if kind == Interactive && c.config.Some? then ParseInteractiveConfig(c.config.value) else DefaultInteractiveConfig;
    if kind == NoCapability then None
    else Some(DefaultCapabilityData.(capabilityType := kind, interactiveConfig := config, capabilityId := c.typeName + "_capability", autoActivate := true))
  }

  /** What `ParseNodeObject` fills in for a node object, whether or not it is then accepted. */
  function NodeSpec(n: RawNode): (d: NodeGenerateData)
  {
    var caps := if n.capabilities.Some? then Accepted(n.capabilities.value, ParseCapability) else [];
    DefaultGenerateData.(
      nodeData := DefaultNodeData.(id := n.id, name := n.name, nodeType := StringToNodeType(n.typeName), initialState := StringToNodeState(n.stateName)),
      nodeClass := None,
      capabilities := caps)
  }

  /** The node objects the converter accepts: both an id and a name. */
  function ParseNode(n: RawNode): (r: Option<NodeGenerateData>)
    ensures r.Some? <==> n.id != "" && n.name != ""
    ensures r.Some? ==> r.value.nodeData.id == n.id && r.value.nodeData.name == n.name && r.value.nodeClass.None?
    ensures r.Some? ==> forall c :: c in r.value.capabilities ==> c.capabilityType in {Interactive, Spatial}
  {
    if n.id != "" && n.name != "" then Some(NodeSpec(n)) else None
  }

  /**
   * `ParseNodeObject`: the node's strings become its data, the capability
   * array is parsed element by element, no class is set, and the node is
   * accepted iff it has an id and a name.
   */
  method ParseNodeObject(n: RawNode) returns (ok: bool, d: NodeGenerateData)
    ensures ok <==> ParseNode(n).Some?
    ensures d == NodeSpec(n)
    ensures d.nodeData.nodeType != Custom
  {
    var caps: seq<CapabilityData> := [];
    if n.capabilities.Some? {
      caps := Collect(n.capabilities.value, ParseCapability);
    }
    var data := DefaultNodeData.(id := n.id, name := n.name, nodeType := StringToNodeType(n.typeName), initialState := StringToNodeState(n.stateName));
    d := DefaultGenerateData.(nodeData := data, nodeClass := None, capabilities := caps);
    ok := n.id != "" && n.name != "";
  }

  /**
   * `ParseRelationObject`: accepted iff both ids are non-empty; the weight
   * defaults to 1.0 and the flag to one-way.
   */
  function ParseRelation(r: RawRelation): (d: Option<RelationData>)
    ensures d.Some? <==> r.sourceId != "" && r.targetId != ""
    ensures d.Some? ==> d.value.sourceId == r.sourceId && d.value.targetId == r.targetId
    ensures d.Some? ==> d.value.relationType != Emotional
    ensures d.Some? && r.weight.None? ==> d.value.weight == 1.0
    ensures d.Some? && r.bidirectional.None? ==> !d.value.bidirectional
  {
    if r.sourceId == "" || r.targetId == "" then None
    else Some(RelationData(
      r.sourceId, r.targetId, StringToRelationType(r.relationType),
      if r.weight.Some? then r.weight.value else DefaultRelationData.weight,
      if r.bidirectional.Some? then r.bidirectional.value else DefaultRelationData.bidirectional))
  }

  /** The document holds a node object that is accepted. */
  predicate HasAcceptedNode(doc: RawDocument)
  {
    doc.nodes.Some? && exists i :: 0 <= i < |doc.nodes.value| && doc.nodes.value[i].Some? && ParseNode(doc.nodes.value[i].value).Some?
  }

  /**
   * `ConvertJSONToNodeData`: a document that did not parse (`None`)
   * fails and leaves both outputs as they were; otherwise both outputs are
   * replaced by the accepted node and relation objects, in order, rejected
   * ones skipped, and the conversion succeeds iff some node was accepted.
   */
  method ConvertJSONToNodeData(doc: Option<RawDocument>, prevNodes: seq<NodeGenerateData>, prevRelations: seq<RelationData>)
    returns (ok: bool, nodes: seq<NodeGenerateData>, relations: seq<RelationData>)
    ensures doc.None? ==> !ok && nodes == prevNodes && relations == prevRelations
    ensures doc.Some? ==> nodes == Accepted(if doc.value.nodes.Some? then doc.value.nodes.value else [], ParseNode)
    ensures doc.Some? ==> relations == Accepted(if doc.value.relations.Some? then doc.value.relations.value else [], ParseRelation)
    ensures ok <==> doc.Some? && HasAcceptedNode(doc.value)
    ensures forall i :: 0 <= i < |nodes| && ok ==> nodes[i].nodeData.id != "" && nodes[i].nodeData.name != ""
  {
    if doc.None? {
      return false, prevNodes, prevRelations;
    }
    var raw := doc.value;
    nodes := [];
    relations := [];
    if raw.nodes.Some? {
      var objects := raw.nodes.value;
      var i := 0;
      while i < |objects|
        invariant 0 <= i <= |objects|
        invariant nodes == Accepted(objects[..i], ParseNode)
      {
        assert objects[..i + 1][..i] == objects[..i];
        if objects[i].Some? {
          var accepted, d := ParseNodeObject(objects[i].value);
          if accepted {
            nodes := nodes + [d];
          }
        }
        i := i + 1;
      }
      assert objects[..i] == objects;
    }
    if raw.relations.Some? {
      relations := Collect(raw.relations.value, ParseRelation);
    }
    ok := |nodes| > 0;
    AcceptedEmpty(if raw.nodes.Some? then raw.nodes.value else [], ParseNode);
    forall i | 0 <= i < |nodes|
      ensures nodes[i].nodeData.id != "" && nodes[i].nodeData.name != ""
    {
      assert nodes[i] in nodes;
    }
  }
}
