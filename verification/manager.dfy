/**
 * The node-system manager: the registry of nodes by id with its type and
 * tag indices, the connection index keyed by endpoint id, the queries over
 * them, connection creation and removal, path search, the generation
 * queues, scene switching and the dependent-unlock rule.
 */
module Manager {
  import opened Util
  import opened NodeTypes
  import opened Nodes
  import opened Connections
  import opened Scenes
  import opened Items
  import opened Buckets
  import opened GraphIndex
  import opened PathSearch
  import opened Spawning
  import opened Validation

  /** The first connection of `s` whose target carries id `targetId`. */
  function FirstTo(s: seq<NodeConnection>, targetId: string): (r: NodeConnection?)
    ensures r != null ==> r in s && r.target != null && r.target.data.id == targetId
    ensures r == null <==> forall i :: 0 <= i < |s| ==> !(s[i].target != null && s[i].target.data.id == targetId)
  {
    if s == [] then null
    else if s[0].target != null && s[0].target.data.id == targetId then s[0]
    else FirstTo(s[1..], targetId)
  }

  /** Appending to a list never changes a match found before; with no match before, the appended item decides. */
  lemma {:induction false} FirstToAppend(s: seq<NodeConnection>, c: NodeConnection, targetId: string)
    ensures FirstTo(s + [c], targetId) ==
      if FirstTo(s, targetId) != null then FirstTo(s, targetId)
      else if c.target != null && c.target.data.id == targetId then c
      else null
  {
    if s != [] {
      assert (s + [c])[1..] == s[1..] + [c];
      FirstToAppend(s[1..], c, targetId);
    }
  }

  /**
   * Filing a connection whose source-id bucket held no connection to its
   * target's id makes it the one that lookup finds.
   */
  lemma FiledFirst(connections: map<string, seq<NodeConnection>>, c: NodeConnection, both: bool)
    requires c.target != null
    requires FirstTo(Bucket(connections, EndpointId(c.source)), c.target.data.id) == null
    ensures FirstTo(Bucket(Filed(connections, c, both), EndpointId(c.source)), c.target.data.id) == c
  {
    var s, t := EndpointId(c.source), EndpointId(c.target);
    var m := AppendToBucket(connections, s, c);
    FirstToAppend(Bucket(connections, s), c, c.target.data.id);
    if both && t == s {
      FirstToAppend(Bucket(m, s), c, c.target.data.id);
    }
  }

  /** Filing more connections never loses a connection the lookup found. */
  lemma FiledKeepsLookup(connections: map<string, seq<NodeConnection>>, c: NodeConnection, both: bool, a: string, b: string)
    requires FirstTo(Bucket(connections, a), b) != null
    ensures FirstTo(Bucket(Filed(connections, c, both), a), b) != null
  {
    var s := Bucket(connections, a);
    var found := FirstTo(s, b);
    var i :| 0 <= i < |s| && s[i] == found;
    assert Bucket(Filed(connections, c, both), a)[i] == found;
  }

  /**
   * A relation request from id `a` to id `b` has been honoured: one of the
   * ids is unregistered, or both are the same, or the lookup from `a` to
   * `b` finds a connection.
   */
  predicate Linked(registry: map<string, AnyNode>, connections: map<string, seq<NodeConnection>>, a: string, b: string)
  {
    a !in registry || b !in registry || a == b || FirstTo(Bucket(connections, a), b) != null
  }

  /** A request that was honoured stays honoured once more connections are filed. */
  lemma FiledKeepsLinked(registry: map<string, AnyNode>, connections: map<string, seq<NodeConnection>>, c: NodeConnection, both: bool, a: string, b: string)
    requires Linked(registry, connections, a, b)
    ensures Linked(registry, Filed(connections, c, both), a, b)
  {
    if a in registry && b in registry && a != b {
      FiledKeepsLookup(connections, c, both, a, b);
    }
  }

  /**
   * What `CreateNode` spawns for class `cls` and spec `d`: an actor of that
   * class whose node carries the spec's node data; a scene starts with no children; an item holds one
   * capability per kind the spec's capability entries request, each
   * switched on (a new item auto-activates) and named by the last
   * non-empty id given for its kind, else by its class name.
   */
  ghost predicate SpawnedActor(a: AnyNode, cls: NodeClass, d: NodeGenerateData)
    reads a.base, if a.actor.SceneClass? then {a.actor.scene} else {}
    reads if a.actor.ItemClass? then {a.actor.item} else {}
    reads if a.actor.ItemClass? then a.actor.item.capabilities else []
  {
    ClassOf(a.actor) == cls &&
    a.base.data == d.nodeData && a.base.Valid() &&
    (a.actor.SceneClass? ==> a.actor.scene.node == a.base && a.actor.scene.children == []) &&
    (a.actor.ItemClass? ==>
      a.actor.item.node == a.base && a.actor.item.Valid() && Shows(a.actor.item, Configured(d.capabilities, map[], true)))
  }

  /** The spawning part of `CreateNode` for a given class. */
  method Spawn(cls: NodeClass, d: NodeGenerateData) returns (a: AnyNode)
    ensures fresh(a.base) && SpawnedActor(a, cls, d) && a.base.state == d.nodeData.initialState
    ensures a.actor.SceneClass? ==> fresh(a.actor.scene) && a.actor.scene.Valid()
    ensures a.actor.ItemClass? ==> fresh(a.actor.item)
  {
    match cls {
      case InteractiveNodeClass =>
        var n := new InteractiveNode(d.nodeData);
        a := PlainNode(n);
      case SceneNodeClass =>
        var s := new SceneNode(d.nodeData);
        a := SceneActor(s);
      case ItemNodeClass =>
        var item := new ItemNode(d.nodeData);
        assert Profile(item) == map[];
        ConfigureCapabilities(item, d.capabilities);
        assert item.node.Valid();
        a := ItemActor(item);
    }
  }

  /** The class of a spawned actor. */
  function ClassOf(a: ActorClass): NodeClass
  {
    match a
    case PlainClass => InteractiveNodeClass
    case SceneClass(_) => SceneNodeClass
    case ItemClass(_) => ItemNodeClass
  }

  /**
   * The ids a relation of a generated node's spec asks to join, the new
   * node carrying id `id`: a relation whose target is that id runs from
   * its source to the new node, any other from the new node to its target.
   */
  function RelationEnds(r: RelationData, id: string): (e: (string, string))
    ensures e.0 == id || e.1 == id
    ensures e.1 == id ==> e.0 == r.sourceId || r.targetId != id
  {
    if r.targetId == id then (r.sourceId, id) else (id, r.targetId)
  }

  /**
   * The connections of `list` that join `a` to `b` (either way when
   * bidirectional), each once, in the order they first appear.
   */
  function ConnectingIn(list: seq<NodeConnection>, a: InteractiveNode?, b: InteractiveNode?): (r: seq<NodeConnection>)
    reads set c | c in list
    ensures NoDup(r)
    ensures forall i :: 0 <= i < |r| ==> r[i] in list && r[i].IsConnecting(a, b)
    ensures forall i :: 0 <= i < |list| && list[i].IsConnecting(a, b) ==> list[i] in r
  {
    if list == [] then []
    else
      var front := ConnectingIn(list[..|list| - 1], a, b);
      var last := list[|list| - 1];
      if last.IsConnecting(a, b) then AddUnique(front, last) else front
  }

  /** No connection of `list` joins `a` to `b`. */
  ghost predicate NoneConnecting(list: seq<NodeConnection>, a: InteractiveNode?, b: InteractiveNode?)
    reads set c | c in list
  {
    forall i :: 0 <= i < |list| ==> !list[i].IsConnecting(a, b)
  }

  /** Taking out the connections that join `a` to `b` leaves none that does. */
  lemma WithoutConnecting(list: seq<NodeConnection>, a: InteractiveNode?, b: InteractiveNode?)
    ensures NoneConnecting(Without(list, Elements(ConnectingIn(list, a, b))), a, b)
  {
    var gone := ConnectingIn(list, a, b);
    var rest := Without(list, Elements(gone));
    forall i | 0 <= i < |rest|
      ensures !rest[i].IsConnecting(a, b)
    {
      assert rest[i] in list && rest[i] !in Elements(gone);
    }
  }

  /** Some connection of `list` of type `t` leads from `from` to `n`. */
  predicate LeadsTo(list: seq<NodeConnection>, from: InteractiveNode?, t: RelationType, n: InteractiveNode)
    reads set c | c in list
  {
    exists j :: 0 <= j < |list| && list[j].relationType == t && list[j].GetOppositeNode(from) == n
  }

  /**
   * The nodes `list`'s connections of type `t` lead to from `from`, each
   * once, in the order they first appear.
   */
  function NeighboursIn(list: seq<NodeConnection>, from: InteractiveNode?, t: RelationType): (r: seq<InteractiveNode>)
    reads set c | c in list
    ensures NoDup(r)
    ensures forall i :: 0 <= i < |r| ==> LeadsTo(list, from, t, r[i])
    ensures forall j :: 0 <= j < |list| && list[j].relationType == t && list[j].GetOppositeNode(from) != null ==>
      list[j].GetOppositeNode(from) in r
  {
    if list == [] then []
    else
      var init := list[..|list| - 1];
      var front := NeighboursIn(init, from, t);
      var last := list[|list| - 1];
      var other := last.GetOppositeNode(from);
      assert forall i :: 0 <= i < |front| ==> LeadsTo(list, from, t, front[i]) by {
        forall i | 0 <= i < |front|
          ensures LeadsTo(list, from, t, front[i])
        {
          assert LeadsTo(init, from, t, front[i]);
          var j :| 0 <= j < |init| && init[j].relationType == t && init[j].GetOppositeNode(from) == front[i];
          assert list[j] == init[j];
        }
      }
      if last.relationType == t && other != null then
        assert LeadsTo(list, from, t, other) by {
          assert list[|list| - 1] == last;
        }
        AddUnique(front, other as InteractiveNode)
      else front
  }

  /** One more connection of the list extends the neighbours found so far. */
  lemma NeighboursInStep(list: seq<NodeConnection>, i: nat, from: InteractiveNode?, t: RelationType)
    requires i < |list|
    ensures NeighboursIn(list[..i + 1], from, t) ==
      if list[i].relationType == t && list[i].GetOppositeNode(from) != null
      then AddUnique(NeighboursIn(list[..i], from, t), list[i].GetOppositeNode(from) as InteractiveNode)
      else NeighboursIn(list[..i], from, t)
  {
    assert list[..i + 1][..i] == list[..i];
  }

  /** The nodes the registry holds under the keys of `keys`. */
  ghost function NodesUnder(registry: map<string, AnyNode>, keys: set<string>): set<InteractiveNode>
  {
    set k | k in keys && k in registry :: registry[k].base
  }

  lemma NodesUnderMore(registry: map<string, AnyNode>, keys: set<string>, k: string)
    requires k in registry
    ensures NodesUnder(registry, keys + {k}) == NodesUnder(registry, keys) + {registry[k].base}
  {
  }

  /** The items the registry holds, as items, under the keys of `keys`. */
  ghost function ItemsUnder(registry: map<string, AnyNode>, keys: set<string>): set<ItemNode>
  {
    set k | k in keys && k in registry && registry[k].actor.ItemClass? :: registry[k].actor.item
  }

  lemma ItemsUnderMore(registry: map<string, AnyNode>, keys: set<string>, k: string)
    requires k in registry
    ensures registry[k].actor.ItemClass? ==> ItemsUnder(registry, keys + {k}) == ItemsUnder(registry, keys) + {registry[k].actor.item}
    ensures !registry[k].actor.ItemClass? ==> ItemsUnder(registry, keys + {k}) == ItemsUnder(registry, keys)
  {
  }

  /**
   * The filters of `ExecuteNodeQuery` the model keeps: a non-empty type
   * list must hold the node's type, a non-empty state list its state; a
   * positive distance limit drops the nodes in `tooFar` (those farther than
   * the limit from the player's pawn, none when there is no pawn); Inactive
   * nodes are dropped unless asked for.
   */
  predicate MatchesQuery(q: NodeQueryParams, tooFar: set<string>, n: InteractiveNode)
    reads n
  {
    (|q.nodeTypes| == 0 || n.data.nodeType in q.nodeTypes) &&
    (|q.nodeStates| == 0 || n.state in q.nodeStates) &&
    !(q.maxDistance > 0.0 && n.data.id in tooFar) &&
    (q.includeInactive || n.state != Inactive)
  }

  /** The default query keeps exactly the nodes that are not Inactive. */
  lemma DefaultQueryDropsInactive(tooFar: set<string>, n: InteractiveNode)
    ensures MatchesQuery(DefaultQueryParams, tooFar, n) <==> n.state != Inactive
  {
  }

  /** A query on the single state `s` that admits Inactive nodes selects exactly the nodes in state `s`. */
  lemma SingleStateQuery(s: NodeState, tooFar: set<string>, n: InteractiveNode)
    ensures MatchesQuery(NodeQueryParams([], [s], 0.0, true), tooFar, n) <==> n.state == s
  {
  }

  /** The objects switching `s` on or off may change. */
  ghost function SceneFrame(s: SceneNode?): set<object>
    reads s
  {
    if s == null then {} else {s, s.node} + set c | c in s.children :: c
  }

  /** The source nodes of `list`. */
  function Sources(list: seq<NodeConnection>): set<InteractiveNode?>
  {
    set i | 0 <= i < |list| :: list[i].source
  }

  /** The source of every Prerequisite connection of `list` is Completed. */
  predicate PrerequisitesCompleted(list: seq<NodeConnection>)
    reads Sources(list)
  {
    forall i :: 0 <= i < |list| && list[i].relationType == Prerequisite && list[i].source != null ==>
      list[i].source.state == Completed
  }

  /** The loop of `CheckPrerequisites`: it stops at the first Prerequisite connection whose source is not Completed. */
  method AllPrerequisitesCompleted(list: seq<NodeConnection>) returns (ok: bool)
    ensures ok <==> PrerequisitesCompleted(list)
  {
    var i := 0;
    while i < |list|
      invariant 0 <= i <= |list|
      invariant forall j :: 0 <= j < i && list[j].relationType == Prerequisite && list[j].source != null ==>
        list[j].source.state == Completed
    {
      var c := list[i];
      if c.relationType == Prerequisite && c.source != null && c.source.state != Completed {
        return false;
      }
      i := i + 1;
    }
    return true;
  }

  /** Every node of `nodes` has kept its broadcast log and may only have appended to it. */
  twostate predicate LogsExtended(nodes: set<InteractiveNode>)
    reads nodes
  {
    forall n :: n in nodes ==> old(n.stateChanges) <= n.stateChanges
  }

  /** What a cascade can change on a node: its state and its broadcast log. */
  type Snap = map<InteractiveNode, (NodeState, seq<StateChange>)>

  /** The state and broadcast log of every node of `nodes`. */
  ghost function Snapshot(nodes: set<InteractiveNode>): Snap
    reads nodes
  {
    map m | m in nodes :: (m.state, m.stateChanges)
  }

  /** Between the two snapshots `t` appended exactly `e` as the next entry of its log. */
  ghost predicate Logs(t: InteractiveNode, before: Snap, after: Snap, e: StateChange)
  {
    t in before && t in after && |before[t].1| < |after[t].1| && after[t].1[|before[t].1|] == e
  }

  /** `PrerequisitesCompleted` read in a snapshot. */
  ghost predicate PrerequisitesCompletedIn(list: seq<NodeConnection>, st: Snap)
  {
    forall i :: 0 <= i < |list| && list[i].relationType == Prerequisite && list[i].source != null ==>
      list[i].source in st && st[list[i].source].0 == Completed
  }

  /**
   * The node a listening connection sets, and the state it sets it to,
   * when `n` changes to `s`, read in a snapshot; None when the connection
   * cannot carry `s`, waits for its activation delay or has no effect.
   */
  ghost function EffectIn(c: NodeConnection, n: InteractiveNode, s: NodeState, st: Snap): Option<(InteractiveNode, NodeState)>
    reads c
  {
    if !c.CanPropagateState(s) || c.activationDelay > 0.0 then None
    else
      var to := c.GetOppositeNode(n);
      if to == null || to !in st then None
      else
        var to': InteractiveNode := to;
        match PropagationEffect(c.relationType, n == c.source, s, st[to'].0, c.weight * c.strength)
        case None => None
        case Some(x) => Some((to', x))
  }

  /** One listener's handler between two snapshots: its effect is logged, or nothing changes when there is none to make. */
  ghost predicate HandleStep(c: NodeConnection, n: InteractiveNode, s: NodeState, before: Snap, after: Snap)
    reads c
  {
    match EffectIn(c, n, s, before)
    case None => after == before
    case Some((t, x)) => if before[t].0 == x then after == before else Logs(t, before, after, StateChange(before[t].0, x))
  }

  /** A snapshot before each listener's handler, then the final one. */
  ghost predicate HandleTrace(ls: seq<NodeConnection>, n: InteractiveNode, s: NodeState, hops: seq<Snap>)
    reads ls
  {
    |hops| == |ls| + 1 && forall i :: 0 <= i < |ls| ==> HandleStep(ls[i], n, s, hops[i], hops[i + 1])
  }

  class NodeSystemManager {
    /** Registered nodes by id, each with its dynamic class. */
    var registry: map<string, AnyNode>
    /** Registered nodes by type. */
    var typeMap: map<NodeType, seq<InteractiveNode>>
    /** Registered nodes by tag. */
    var tagMap: map<string, seq<InteractiveNode>>
    /** Connections by the id of each endpoint. */
    var connections: map<string, seq<NodeConnection>>
    var activeNodes: seq<InteractiveNode>
    var activeConnections: seq<NodeConnection>
    var activeScene: SceneNode?
    /** The node generation FIFO, front first. */
    var nodeQueue: seq<NodeGenerateData>
    /** The relation generation FIFO, front first. */
    var connectionQueue: seq<RelationData>
    var maxNodesPerScene: int
    var autoRegister: bool

    /**
     * The registry holds no empty id and files each node under its own id;
     * both node indices and the connection index are right; the active
     * lists hold nothing twice; the active scene, if any, is well formed.
     */
    ghost predicate Valid()
      reads this, activeScene
    {
      NodesValid() && ConnectionsValid() && SceneValid()
    }

    /** The registry and both node indices are right; the active-node list holds nothing twice. */
    ghost predicate NodesValid()
      reads `registry, `typeMap, `tagMap, `activeNodes
    {
      NodeIndicesOk(registry, typeMap, tagMap, activeNodes)
    }

    /** The connection index is right; the active-connection list holds nothing twice. */
    ghost predicate ConnectionsValid()
      reads `connections, `activeConnections
    {
      ConnIndexOk(connections) && NoDup(activeConnections)
    }

    ghost predicate SceneValid()
      reads `activeScene, activeScene
    {
      activeScene != null ==> activeScene.Valid()
    }

    /** A fresh manager: nothing registered or queued, no scene, at most 50 nodes per scene, auto-registration on. */
    constructor()
      ensures Valid()
      ensures registry == map[] && typeMap == map[] && tagMap == map[] && connections == map[]
      ensures activeNodes == [] && activeConnections == [] && activeScene == null
      ensures nodeQueue == [] && connectionQueue == []
      ensures maxNodesPerScene == 50 && autoRegister
    {
      registry := map[];
      typeMap := map[];
      tagMap := map[];
      connections := map[];
      activeNodes := [];
      activeConnections := [];
      activeScene := null;
      nodeQueue := [];
      connectionQueue := [];
      maxNodesPerScene := 50;
      autoRegister := true;
    }

    /** The node registered under `id`, or null when none is. */
    function GetNode(id: string): (r: InteractiveNode?)
      reads `registry
      ensures r != null <==> id in registry
      ensures r != null && KeyedRegistry(registry) ==> r.data.id == id && RegisteredIn(registry, r)
    {
      if id in registry then registry[id].base else null
    }

    /** The registered nodes of type `t`, each once. */
    function GetNodesByType(t: NodeType): (r: seq<InteractiveNode>)
      reads `registry, `typeMap
      ensures IndexOk(registry, typeMap, TypeKeys) ==>
        NoDup(r) &&
        (forall i :: 0 <= i < |r| ==> RegisteredIn(registry, r[i]) && r[i].data.nodeType == t) &&
        (forall k :: k in registry && registry[k].base.data.nodeType == t ==> registry[k].base in r)
    {
      BucketMeans(registry, typeMap, TypeKeys, t);
      Bucket(typeMap, t)
    }

    /** The registered nodes carrying tag `g`, each once. */
    function GetNodesByTag(g: string): (r: seq<InteractiveNode>)
      reads `registry, `tagMap
      ensures IndexOk(registry, tagMap, TagKeys) ==>
        NoDup(r) &&
        (forall i :: 0 <= i < |r| ==> RegisteredIn(registry, r[i]) && g in r[i].data.tags) &&
        (forall k :: k in registry && g in registry[k].base.data.tags ==> registry[k].base in r)
    {
      BucketMeans(registry, tagMap, TagKeys, g);
      Bucket(tagMap, g)
    }

    /** The connections filed under `id`: under the index, exactly the indexed connections with an endpoint of that id. */
    function GetConnectionsForNode(id: string): (r: seq<NodeConnection>)
      reads `connections
      ensures ConnIndexOk(connections) ==>
        (forall i :: 0 <= i < |r| ==> id == EndpointId(r[i].source) || id == EndpointId(r[i].target)) &&
        (forall k, c :: k in connections && c in connections[k] && (id == EndpointId(c.source) || id == EndpointId(c.target))
           ==> c in r)
    {
      ConnBucketMeans(connections, id);
      Bucket(connections, id)
    }

    /** The connections filed under `id` whose source has that id, in index order. */
    function GetOutgoingConnections(id: string): (r: seq<NodeConnection>)
      reads `connections
      ensures forall i :: 0 <= i < |r| ==> r[i] in Bucket(connections, id) && EndpointId(r[i].source) == id && r[i].source != null
      ensures ConnIndexOk(connections) ==>
        forall k, c :: k in connections && c in connections[k] && c.source != null && c.source.data.id == id ==> c in r
    {
      ConnBucketMeans(connections, id);
      Filter(Bucket(connections, id), (c: NodeConnection) => c.source != null && c.source.data.id == id)
    }

    /** The connections filed under `id` whose target has that id, in index order. */
    function GetIncomingConnections(id: string): (r: seq<NodeConnection>)
      reads `connections
      ensures forall i :: 0 <= i < |r| ==> r[i] in Bucket(connections, id) && EndpointId(r[i].target) == id && r[i].target != null
      ensures ConnIndexOk(connections) ==>
        forall k, c :: k in connections && c in connections[k] && c.target != null && c.target.data.id == id ==> c in r
    {
      ConnBucketMeans(connections, id);
      Filter(Bucket(connections, id), (c: NodeConnection) => c.target != null && c.target.data.id == id)
    }

    /** `GetConnection`: the first connection filed under the source id whose target has the target id. */
    function GetConnection(sourceId: string, targetId: string): (r: NodeConnection?)
      reads `connections
      ensures r != null ==> r in Bucket(connections, sourceId) && r.target != null && r.target.data.id == targetId
      ensures r == null <==> forall i :: 0 <= i < |Bucket(connections, sourceId)| ==>
        !(Bucket(connections, sourceId)[i].target != null && Bucket(connections, sourceId)[i].target.data.id == targetId)
    {
      FirstTo(Bucket(connections, sourceId), targetId)
    }

    /** `UpdateNodeTypeMap`: file the node under its type, or take it out of that bucket (dropping it when emptied). */
    method UpdateNodeTypeMap(n: InteractiveNode, add: bool)
      modifies `typeMap
      ensures add ==> typeMap == AddToBuckets(old(typeMap), TypeKeys(n), n)
      ensures !add ==> typeMap == RemoveFromBuckets(old(typeMap), TypeKeys(n), n)
    {
      TypeKeysFiling(typeMap, n);
      var t := n.data.nodeType;
      if add {
        typeMap := AddToBucket(typeMap, t, n);
      } else if t in typeMap {
        typeMap := RemoveFromBucket(typeMap, t, n);
      }
    }

    /** `UpdateNodeTagMap`: file the node under each of its tags in turn, or take it out of each. */
    method UpdateNodeTagMap(n: InteractiveNode, add: bool)
      modifies `tagMap
      ensures add ==> tagMap == AddToBuckets(old(tagMap), TagKeys(n), n)
      ensures !add ==> tagMap == RemoveFromBuckets(old(tagMap), TagKeys(n), n)
    {
      var tags := n.data.tags;
      ghost var before := tagMap;
      var i := 0;
      while i < |tags|
        invariant 0 <= i <= |tags|
        invariant add ==> tagMap == AddToBuckets(before, tags[..i], n)
        invariant !add ==> tagMap == RemoveFromBuckets(before, tags[..i], n)
      {
        AddToBucketsStep(before, tags, i, n);
        RemoveFromBucketsStep(before, tags, i, n);
        var g := tags[i];
        if add {
          tagMap := AddToBucket(tagMap, g, n);
        } else if g in tagMap {
          tagMap := RemoveFromBucket(tagMap, g, n);
        }
        i := i + 1;
      }
      assert tags[..|tags|] == tags;
    }

    /**
     * `RegisterNode`: refused for a missing node, an empty id or an id
     * already registered. Otherwise the node is registered under its id,
     * filed under its type and its tags, and listed as active iff it is
     * Active.
     */
    method RegisterNode(x: Option<AnyNode>) returns (ok: bool)
      requires NodesValid()
      modifies `registry, `typeMap, `tagMap, `activeNodes
      ensures NodesValid()
      ensures ok <==> x.Some? && x.value.base.data.id != "" && x.value.base.data.id !in old(registry)
      ensures !ok ==> registry == old(registry) && typeMap == old(typeMap) && tagMap == old(tagMap) &&
                      activeNodes == old(activeNodes)
      ensures ok ==> registry == old(registry)[x.value.base.data.id := x.value]
      ensures ok ==> typeMap == AddToBuckets(old(typeMap), TypeKeys(x.value.base), x.value.base)
      ensures ok ==> tagMap == AddToBuckets(old(tagMap), TagKeys(x.value.base), x.value.base)
      ensures ok ==> activeNodes == (if x.value.base.state == Active then AddUnique(old(activeNodes), x.value.base)
                                     else old(activeNodes))
    {
      if x.None? {
        return false;
      }
      var b := x.value.base;
      var id := b.data.id;
      if id == "" || id in registry {
        return false;
      }
      var active := if b.state == Active then AddUnique(activeNodes, b) else activeNodes;
      RegisterKeepsNodeIndices(registry, typeMap, tagMap, activeNodes, x.value, active);
      UpdateNodeTypeMap(b, true);
      UpdateNodeTagMap(b, true);
      registry, activeNodes := registry[id := x.value], active;
      ok := true;
    }

    /**
     * `CreateConnection`: refused (null) for a missing endpoint or a
     * self-connection. When `GetConnection` already finds a connection from
     * the source's id to the target's id, that one is returned and nothing
     * changes. Otherwise a new connection is spawned with the relation's
     * type, its weight clamped to [0, 1] and its flag under the
     * relation-type rule, filed under the source's id and, unless the
     * request is one-way between two nodes sharing an id, under the
     * target's id, and listed as active. Either way the returned connection
     * is the one `GetConnection` finds afterwards.
     */
    method CreateConnection(src: InteractiveNode?, tgt: InteractiveNode?, rel: RelationData) returns (c: NodeConnection?)
      requires ConnectionsValid()
      modifies `connections, `activeConnections
      ensures ConnectionsValid()
      ensures c == null <==> src == null || tgt == null || src == tgt
      ensures c != null ==> GetConnection(src.data.id, tgt.data.id) == c
      ensures c == null || old(GetConnection(src.data.id, tgt.data.id)) != null ==> unchanged(this)
      ensures c != null && old(GetConnection(src.data.id, tgt.data.id)) == null ==>
        fresh(c) && Spawned(c, src, tgt, rel) &&
        connections == Filed(old(connections), c, rel.bidirectional || tgt.data.id != src.data.id) &&
        activeConnections == old(activeConnections) + [c]
    {
      if src == null || tgt == null || src == tgt {
        return null;
      }
      var s: InteractiveNode, t: InteractiveNode := src, tgt;
      var existing := GetConnection(s.data.id, t.data.id);
      if existing != null {
        return existing;
      }
      var conn := new NodeConnection(s, t, rel.relationType);
      conn.SetConnectionWeight(rel.weight);
      conn.SetBidirectional(rel.bidirectional);
      FileConnection(conn, rel.bidirectional || t.data.id != s.data.id);
      c := conn;
    }

    /**
     * What a connection spawned for `rel` between `src` and `tgt` holds:
     * those endpoints and the relation's type, the weight clamped to
     * [0, 1], the flag under the relation-type rule, active.
     */
    ghost predicate Spawned(c: NodeConnection, src: InteractiveNode, tgt: InteractiveNode, rel: RelationData)
      reads c
    {
      c.source == src && c.target == tgt && c.relationType == rel.relationType &&
      c.weight == ClampR(rel.weight, 0.0, 1.0) &&
      c.bidirectional == ForcedBidirectional(rel.relationType, rel.bidirectional) && c.active
    }

    /** The filing half of `CreateConnection`: index a new connection under its endpoints and list it as active. */
    method FileConnection(c: NodeConnection, both: bool)
      requires ConnectionsValid()
      requires c.source != null && c.target != null && c.source != c.target
      requires both || c.target.data.id == c.source.data.id
      requires c !in activeConnections
      modifies `connections, `activeConnections
      ensures ConnectionsValid()
      ensures connections == Filed(old(connections), c, both)
      ensures activeConnections == old(activeConnections) + [c]
      ensures old(GetConnection(c.source.data.id, c.target.data.id)) == null ==>
        GetConnection(c.source.data.id, c.target.data.id) == c
    {
      var index := Filed(connections, c, both);
      AddConnectionKeepsIndex(connections, c, both);
      if GetConnection(c.source.data.id, c.target.data.id) == null {
        FiledFirst(connections, c, both);
      }
      connections, activeConnections := index, activeConnections + [c];
    }

    /**
     * `CreateConnectionBetween`: refused (null) unless both ids are
     * registered; otherwise `CreateConnection` between the two registered
     * nodes with a one-way relation of weight 1 of the given type.
     */
    method CreateConnectionBetween(sourceId: string, targetId: string, t: RelationType) returns (c: NodeConnection?)
      requires NodesValid() && ConnectionsValid()
      modifies `connections, `activeConnections
      ensures ConnectionsValid()
      ensures c == null <==> sourceId !in registry || targetId !in registry || sourceId == targetId
      ensures c != null ==> GetConnection(sourceId, targetId) == c
      ensures c == null || old(GetConnection(sourceId, targetId)) != null ==> unchanged(this)
      ensures c != null && old(GetConnection(sourceId, targetId)) == null ==>
        fresh(c) && Spawned(c, GetNode(sourceId), GetNode(targetId), RelationData(sourceId, targetId, t, 1.0, false)) &&
        connections == Filed(old(connections), c, true) &&
        activeConnections == old(activeConnections) + [c]
    {
      var src := GetNode(sourceId);
      var tgt := GetNode(targetId);
      if src == null || tgt == null {
        return null;
      }
      c := CreateConnection(src, tgt, RelationData(sourceId, targetId, t, 1.0, false));
    }

    /**
     * `RemoveConnection`: a missing connection changes nothing. Otherwise
     * the connection leaves every bucket (an emptied bucket is dropped)
     * and the active list; the result says whether its source's bucket
     * existed.
     */
    method RemoveConnection(c: NodeConnection?) returns (removed: bool)
      requires ConnectionsValid()
      modifies `connections, `activeConnections
      ensures ConnectionsValid()
      ensures removed <==> c != null && EndpointId(c.source) in old(connections)
      ensures c == null ==> connections == old(connections) && activeConnections == old(activeConnections)
      ensures c != null ==> connections == WithoutAll(old(connections), {c as NodeConnection})
      ensures c != null ==> activeConnections == RemoveAll(old(activeConnections), c as NodeConnection)
    {
      if c == null {
        return false;
      }
      var conn: NodeConnection := c;
      var sourceId := EndpointId(conn.source);
      var targetId := EndpointId(conn.target);
      FiledOnlyAtEndpoints(connections, conn);
      RemoveFromTwoBuckets(connections, sourceId, targetId, conn);
      WithoutKeepsIndex(connections, {conn});
      var index := connections;
      removed := false;
      if sourceId in index {
        index := RemoveFromBucket(index, sourceId, conn);
        removed := true;
      }
      if targetId in index {
        index := RemoveFromBucket(index, targetId, conn);
      }
      connections, activeConnections := index, RemoveAll(activeConnections, conn);
    }

    /**
     * Hands each connection of `list` in turn to `RemoveConnection`, as both
     * bulk removals do, and counts the calls that report a removal. Every
     * listed connection leaves the index and the active list; when the list
     * holds no connection twice and each is filed under its source, every
     * call reports a removal.
     */
    method RemoveEach(list: seq<NodeConnection>) returns (count: nat)
      requires ConnectionsValid()
      modifies `connections, `activeConnections
      ensures ConnectionsValid()
      ensures connections == WithoutAll(old(connections), Elements(list))
      ensures activeConnections == Without(old(activeConnections), Elements(list))
      ensures count <= |list|
      ensures NoDup(list) && AllFiled(old(connections), list) ==> count == |list|
    {
      ghost var index0, active0 := connections, activeConnections;
      ghost var filed := NoDup(list) && AllFiled(index0, list);
      ghost var gone: set<NodeConnection> := {};
      WithoutAllNothing(index0);
      WithoutNothing(active0, {});
      count := 0;
      var i := 0;
      while i < |list|
        invariant 0 <= i <= |list|
        invariant gone == Elements(list[..i])
        invariant ConnectionsValid()
        invariant connections == WithoutAll(index0, gone)
        invariant activeConnections == Without(active0, gone)
        invariant count <= i
        invariant filed ==> count == i
      {
        var c := list[i];
        if filed {
          FiledStill(index0, list, gone, i);
        }
        var next := i + 1;
        ElementsStep(list, i, next);
        WithoutAllTwice(index0, gone, {c});
        RemoveAllIsWithout(activeConnections, c);
        WithoutTwice(active0, gone, {c});
        var removed := RemoveConnection(c);
        if removed {
          count := count + 1;
        }
        gone := gone + {c};
        i := next;
      }
      assert list[..|list|] == list;
    }

    /** The collecting loop of `RemoveConnectionsBetween`. */
    method CollectConnecting(list: seq<NodeConnection>, a: InteractiveNode?, b: InteractiveNode?) returns (r: seq<NodeConnection>)
      ensures r == ConnectingIn(list, a, b)
    {
      r := [];
      var i := 0;
      while i < |list|
        invariant 0 <= i <= |list|
        invariant r == ConnectingIn(list[..i], a, b)
      {
        var next := i + 1;
        assert list[..next][..i] == list[..i];
        var c := list[i];
        if c.IsConnecting(a, b) {
          r := AddUnique(r, c);
        }
        i := next;
      }
      assert list[..|list|] == list;
    }

    /**
     * `RemoveConnectionsBetween`: collects, each once, the connections filed
     * under `a` that join the node registered under `a` to the one under
     * `b` (either way when bidirectional), then removes them one by one.
     * Afterwards no connection filed under `a` joins the two, and the count
     * is the number collected.
     */
    method RemoveConnectionsBetween(a: string, b: string) returns (count: nat)
      requires ConnectionsValid()
      modifies `connections, `activeConnections
      ensures ConnectionsValid()
      ensures connections == WithoutAll(old(connections), Elements(old(ConnectingIn(Bucket(connections, a), GetNode(a), GetNode(b)))))
      ensures activeConnections == Without(old(activeConnections), Elements(old(ConnectingIn(Bucket(connections, a), GetNode(a), GetNode(b)))))
      ensures count == |old(ConnectingIn(Bucket(connections, a), GetNode(a), GetNode(b)))|
      ensures NoneConnecting(Bucket(connections, a), GetNode(a), GetNode(b))
    {
      var na, nb := GetNode(a), GetNode(b);
      var list := Bucket(connections, a);
      var toRemove := CollectConnecting(list, na, nb);
      assert toRemove == old(ConnectingIn(list, na, nb));
      BucketFiled(connections, a);
      AllFiledWithin(connections, list, toRemove);
      BucketOfWithoutAll(connections, Elements(toRemove), a);
      WithoutConnecting(list, na, nb);
      count := RemoveEach(toRemove);
    }

    /**
     * `RemoveAllConnectionsForNode`: removes, one by one, the connections
     * filed under `id`. Afterwards no connection in the index has an
     * endpoint with that id.
     */
    method RemoveAllConnectionsForNode(id: string) returns (count: nat)
      requires ConnectionsValid()
      modifies `connections, `activeConnections
      ensures ConnectionsValid()
      ensures connections == WithoutAll(old(connections), Elements(Bucket(old(connections), id)))
      ensures activeConnections == Without(old(activeConnections), Elements(Bucket(old(connections), id)))
      ensures Untouched(connections, id)
      ensures count <= |Bucket(old(connections), id)|
      ensures NoDup(Bucket(old(connections), id)) ==> count == |Bucket(old(connections), id)|
    {
      var list := Bucket(connections, id);
      BucketFiled(connections, id);
      WithoutBucketClears(connections, id);
      count := RemoveEach(list);
    }

    /**
     * The node half of `UnregisterNode`: the registry entry under the
     * node's id is dropped, and the node leaves both indices and the active
     * list. The entry is dropped by id alone, so the indices stay right
     * only when that entry was this node.
     */
    method ForgetNode(n: InteractiveNode)
      requires NodesValid()
      modifies `registry, `typeMap, `tagMap, `activeNodes
      ensures old(RegisteredIn(registry, n)) ==> NodesValid()
      ensures registry == old(registry) - {n.data.id}
      ensures typeMap == RemoveFromBuckets(old(typeMap), TypeKeys(n), n)
      ensures tagMap == RemoveFromBuckets(old(tagMap), TagKeys(n), n)
      ensures activeNodes == RemoveAll(old(activeNodes), n)
    {
      if RegisteredIn(registry, n) {
        UnregisterKeepsNodeIndices(registry, typeMap, tagMap, activeNodes, n);
      }
      UpdateNodeTypeMap(n, false);
      UpdateNodeTagMap(n, false);
      registry, activeNodes := registry - {n.data.id}, RemoveAll(activeNodes, n);
    }

    /**
     * `UnregisterNode`: refused, changing nothing, for a missing node or one
     * whose id is not registered. Otherwise the node is forgotten and every
     * connection filed under its id is removed.
     */
    method UnregisterNode(n: InteractiveNode?) returns (ok: bool)
      requires NodesValid() && ConnectionsValid()
      modifies `registry, `typeMap, `tagMap, `activeNodes, `connections, `activeConnections
      ensures ConnectionsValid()
      ensures n != null && old(RegisteredIn(registry, n)) ==> NodesValid()
      ensures ok <==> n != null && n.data.id in old(registry)
      ensures !ok ==> unchanged(this)
      ensures ok ==> Dropped(n as InteractiveNode)
    {
      if n == null {
        return false;
      }
      var node: InteractiveNode := n;
      if node.data.id !in registry {
        return false;
      }
      DropNode(node);
      ok := true;
    }

    /**
     * The state after `n` was unregistered: its id leaves the registry, the
     * node leaves both indices and the active list, and every connection
     * filed under its id leaves the connection index, so that no indexed
     * connection has an endpoint with that id.
     */
    twostate predicate Dropped(n: InteractiveNode)
      reads this
    {
      registry == old(registry) - {n.data.id} &&
      typeMap == RemoveFromBuckets(old(typeMap), TypeKeys(n), n) &&
      tagMap == RemoveFromBuckets(old(tagMap), TagKeys(n), n) &&
      activeNodes == RemoveAll(old(activeNodes), n) &&
      connections == WithoutAll(old(connections), Elements(Bucket(old(connections), n.data.id))) &&
      activeConnections == Without(old(activeConnections), Elements(Bucket(old(connections), n.data.id))) &&
      Untouched(connections, n.data.id)
    }

    /** The accepted path of `UnregisterNode`. */
    method DropNode(n: InteractiveNode)
      requires NodesValid() && ConnectionsValid()
      modifies `registry, `typeMap, `tagMap, `activeNodes, `connections, `activeConnections
      ensures ConnectionsValid()
      ensures old(RegisteredIn(registry, n)) ==> NodesValid()
      ensures Dropped(n)
    {
      ForgetNode(n);
      var _ := RemoveAllConnectionsForNode(n.data.id);
    }

    /** `UnregisterNodeByID`: unregisters the node registered under `id`; refused when there is none. */
    method UnregisterNodeByID(id: string) returns (ok: bool)
      requires NodesValid() && ConnectionsValid()
      modifies `registry, `typeMap, `tagMap, `activeNodes, `connections, `activeConnections
      ensures NodesValid() && ConnectionsValid()
      ensures ok <==> id in old(registry)
      ensures ok ==> registry == old(registry) - {id}
      ensures !ok ==> registry == old(registry) && connections == old(connections)
      ensures ok ==> Untouched(connections, id)
    {
      var n := GetNode(id);
      ok := UnregisterNode(n);
    }

    /** The registered nodes. */
    ghost function RegisteredNodes(): set<InteractiveNode>
      reads `registry
    {
      NodesUnder(registry, registry.Keys)
    }

    /** `GetNodesByState`: the registered nodes in state `s`, one per registry entry. */
    method GetNodesByState(s: NodeState) returns (r: seq<InteractiveNode>)
      ensures forall n: InteractiveNode :: n in r <==> n in RegisteredNodes() && n.state == s
    {
      r := [];
      var reg := registry;
      var keys := reg.Keys;
      ghost var seen: set<string> := {};
      while keys != {}
        invariant keys <= reg.Keys && seen == reg.Keys - keys
        invariant forall n: InteractiveNode :: n in r <==> n in NodesUnder(reg, seen) && n.state == s
        decreases |keys|
      {
        var k :| k in keys;
        var n := reg[k].base;
        NodesUnderMore(reg, seen, k);
        if n.state == s {
          r := r + [n];
        }
        keys, seen := keys - {k}, seen + {k};
      }
    }

    /**
     * `ExecuteNodeQuery`: the registered nodes that pass every filter, one
     * per registry entry.
     */
    method ExecuteNodeQuery(q: NodeQueryParams, tooFar: set<string>) returns (r: seq<InteractiveNode>)
      ensures forall n: InteractiveNode :: n in r <==> n in RegisteredNodes() && MatchesQuery(q, tooFar, n)
    {
      r := [];
      var reg := registry;
      var keys := reg.Keys;
      ghost var seen: set<string> := {};
      while keys != {}
        invariant keys <= reg.Keys && seen == reg.Keys - keys
        invariant forall n: InteractiveNode :: n in r <==> n in NodesUnder(reg, seen) && MatchesQuery(q, tooFar, n)
        decreases |keys|
      {
        var k :| k in keys;
        var n := reg[k].base;
        NodesUnderMore(reg, seen, k);
        if MatchesQuery(q, tooFar, n) {
          r := r + [n];
        }
        keys, seen := keys - {k}, seen + {k};
      }
    }

    /**
     * `FindNodesWithCapability`: nothing for an absent class; otherwise the
     * registered items holding a capability of that class.
     */
    method FindNodesWithCapability(cls: Option<CapabilityType>) returns (r: seq<ItemNode>)
      ensures cls.None? ==> r == []
      ensures cls.Some? ==> forall it: ItemNode :: it in r <==> it in ItemsUnder(registry, registry.Keys) && it.HasCapability(cls)
    {
      r := [];
      if cls.None? {
        return;
      }
      var reg := registry;
      var keys := reg.Keys;
      ghost var seen: set<string> := {};
      while keys != {}
        invariant keys <= reg.Keys && seen == reg.Keys - keys
        invariant forall it: ItemNode :: it in r <==> it in ItemsUnder(reg, seen) && it.HasCapability(cls)
        decreases |keys|
      {
        var k :| k in keys;
        ItemsUnderMore(reg, seen, k);
        var a := reg[k].actor;
        if a.ItemClass? && a.item.HasCapability(cls) {
          r := r + [a.item];
        }
        keys, seen := keys - {k}, seen + {k};
      }
    }

    /**
     * `GetConnectedNodes`: the nodes the connections filed under `id` of
     * type `t` lead to from the node registered under `id`, each once.
     */
    method GetConnectedNodes(id: string, t: RelationType) returns (r: seq<InteractiveNode>)
      ensures r == NeighboursIn(Bucket(connections, id), GetNode(id), t)
    {
      var list := Bucket(connections, id);
      var from := GetNode(id);
      r := [];
      var i := 0;
      while i < |list|
        invariant 0 <= i <= |list|
        invariant r == NeighboursIn(list[..i], from, t)
      {
        NeighboursInStep(list, i, from, t);
        var c := list[i];
        if c.relationType == t {
          var other := c.GetOppositeNode(from);
          if other != null {
            var o: InteractiveNode := other;
            r := AddUnique(r, o);
          }
        }
        i := i + 1;
      }
      assert list[..|list|] == list;
    }

    /**
     * `FindPath`: empty for an absent endpoint, for a start equal to the
     * end, and when the end cannot be reached; otherwise a path from start
     * to end in which each node leads to the next through a valid
     * connection filed under its id, traversed either way, and no path
     * from start to end has fewer nodes.
     */
    method FindPath(start: InteractiveNode?, end: InteractiveNode?) returns (path: seq<InteractiveNode>)
      ensures start == null || end == null || start == end ==> path == []
      ensures path != [] ==> start != null && end != null && IsPath(connections, path, start, end) && |path| >= 2
      ensures path != [] && start != null && end != null ==> forall p :: IsPath(connections, p, start, end) ==> |path| <= |p|
      ensures path == [] && start != null && end != null && start != end ==> forall p :: !IsPath(connections, p, start, end)
    {
      path := [];
      if start == null || end == null || start == end {
        return;
      }
      path := ShortestPath(connections, start, end);
    }

    /**
     * `SetActiveScene`: refused for an absent scene. Otherwise the scene
     * becomes the active one; the previous active scene, if another, is
     * deactivated, and the new one is activated.
     */
    method SetActiveScene(scene: SceneNode?) returns (ok: bool)
      requires SceneValid() && (scene != null ==> scene.Valid())
      modifies `activeScene, SceneFrame(activeScene), SceneFrame(scene)
      ensures ok <==> scene != null
      ensures !ok ==> activeScene == old(activeScene)
      ensures ok ==> activeScene == scene && scene.isActiveScene && SceneValid()
      ensures ok && old(activeScene) != null && old(activeScene) != scene ==> !old(activeScene).isActiveScene
    {
      if scene == null {
        return false;
      }
      var previous := activeScene;
      activeScene := scene;
      if previous != null && previous != scene {
        previous.DeactivateScene();
      }
      scene.ActivateScene();
      ok := true;
    }

    /** `QueueNodeGeneration`: the request joins the back of the node queue. */
    method QueueNodeGeneration(d: NodeGenerateData)
      modifies `nodeQueue
      ensures nodeQueue == old(nodeQueue) + [d]
    {
      nodeQueue := nodeQueue + [d];
    }

    /** `QueueConnectionGeneration`: the request joins the back of the relation queue. */
    method QueueConnectionGeneration(r: RelationData)
      modifies `connectionQueue
      ensures connectionQueue == old(connectionQueue) + [r]
    {
      connectionQueue := connectionQueue + [r];
    }

    /** `ClearGenerationQueues`: both queues are emptied. */
    method ClearGenerationQueues()
      modifies `nodeQueue, `connectionQueue
      ensures nodeQueue == [] && connectionQueue == []
    {
      nodeQueue, connectionQueue := [], [];
    }

    /**
     * `ProcessConnectionGeneration`: takes at most one request off the
     * front of the relation queue. When both ids are registered the
     * connection is created (or the existing one kept), so the request is
     * honoured; otherwise the same request goes to the back of the queue and
     * the connections are untouched.
     */
    method ProcessConnectionGeneration()
      requires NodesValid() && ConnectionsValid()
      modifies `connectionQueue, `connections, `activeConnections
      ensures ConnectionsValid()
      ensures old(connectionQueue) == [] ==>
        connectionQueue == [] && connections == old(connections) && activeConnections == old(activeConnections)
      ensures old(connectionQueue) != [] && old(connectionQueue)[0].sourceId in registry && old(connectionQueue)[0].targetId in registry ==>
        connectionQueue == old(connectionQueue)[1..] &&
        Linked(registry, connections, old(connectionQueue)[0].sourceId, old(connectionQueue)[0].targetId)
      ensures old(connectionQueue) != [] && !(old(connectionQueue)[0].sourceId in registry && old(connectionQueue)[0].targetId in registry) ==>
        connectionQueue == old(connectionQueue)[1..] + [old(connectionQueue)[0]] &&
        connections == old(connections) && activeConnections == old(activeConnections)
    {
      if connectionQueue == [] {
        return;
      }
      var r := connectionQueue[0];
      connectionQueue := connectionQueue[1..];
      var src := GetNode(r.sourceId);
      var tgt := GetNode(r.targetId);
      if src != null && tgt != null {
        var _ := CreateConnection(src, tgt, r);
      } else {
        connectionQueue := connectionQueue + [r];
      }
    }

    /**
     * `CreateNode`: nothing without a class. Otherwise a fresh actor of
     * that class carrying the spec's node data (see `Spawn`); with
     * auto-registration on it is registered, which succeeds for a
     * non-empty id not yet taken.
     */
    method CreateNode(cls: Option<NodeClass>, d: NodeGenerateData) returns (x: Option<AnyNode>)
      requires NodesValid()
      modifies `registry, `typeMap, `tagMap, `activeNodes
      ensures NodesValid()
      ensures x.Some? <==> cls.Some?
      ensures x.Some? ==> fresh(x.value.base) && SpawnedActor(x.value, cls.value, d) && x.value.base.state == d.nodeData.initialState
      ensures x.Some? && autoRegister && d.nodeData.id != "" && d.nodeData.id !in old(registry) ==>
        registry == old(registry)[d.nodeData.id := x.value]
      ensures !(x.Some? && autoRegister && d.nodeData.id != "" && d.nodeData.id !in old(registry)) ==>
        registry == old(registry) && typeMap == old(typeMap) && tagMap == old(tagMap) && activeNodes == old(activeNodes)
    {
      if cls.None? {
        return None;
      }
      var a := Spawn(cls.value, d);
      x := Some(a);
      if autoRegister {
        var _ := RegisterNode(x);
      }
    }

    /**
     * The relation loop of `ProcessNodeGeneration` for a new node with id
     * `id`: each relation is created between the ids `RelationEnds` names,
     * so afterwards every one of them is honoured, and every request that
     * was honoured before still is.
     */
    method LinkRelations(rels: seq<RelationData>, id: string)
      requires NodesValid() && ConnectionsValid()
      modifies `connections, `activeConnections
      ensures ConnectionsValid()
      ensures forall r :: r in rels ==> Linked(registry, connections, RelationEnds(r, id).0, RelationEnds(r, id).1)
      ensures forall a, b :: Linked(registry, old(connections), a, b) ==> Linked(registry, connections, a, b)
    {
      var i := 0;
      while i < |rels|
        invariant 0 <= i <= |rels|
        invariant ConnectionsValid()
        invariant forall j :: 0 <= j < i ==> Linked(registry, connections, RelationEnds(rels[j], id).0, RelationEnds(rels[j], id).1)
        invariant forall a, b :: Linked(registry, old(connections), a, b) ==> Linked(registry, connections, a, b)
      {
        var ends := RelationEnds(rels[i], id);
        LinkOne(ends.0, ends.1, rels[i].relationType);
        i := i + 1;
      }
    }

    /** `CreateConnectionBetween` for one relation: it is honoured afterwards, and so is every request honoured before. */
    method LinkOne(a: string, b: string, t: RelationType)
      requires NodesValid() && ConnectionsValid()
      modifies `connections, `activeConnections
      ensures ConnectionsValid()
      ensures Linked(registry, connections, a, b)
      ensures forall x, y :: Linked(registry, old(connections), x, y) ==> Linked(registry, connections, x, y)
    {
      var c := CreateConnectionBetween(a, b, t);
      forall x, y | Linked(registry, old(connections), x, y)
        ensures Linked(registry, connections, x, y)
      {
        if connections != old(connections) {
          FiledKeepsLinked(registry, old(connections), c, true, x, y);
        }
      }
    }

    /** True when a node generation request would be dropped: the active scene already holds `maxNodesPerScene` children. */
    ghost predicate SceneFull()
      reads `activeScene, `maxNodesPerScene, activeScene
    {
      activeScene != null && |activeScene.children| >= maxNodesPerScene
    }

    /**
     * `ProcessNodeGeneration`: one request leaves the front of the queue.
     * It is dropped when the active scene is full; otherwise the node is
     * created (registered when possible), joins the active scene, and each
     * of its relations is created between the new node's id and the other
     * id the relation names. `created` is the spawned actor, if any.
     */
    method ProcessNodeGeneration() returns (ghost created: Option<AnyNode>)
      requires Valid()
      modifies `nodeQueue, `registry, `typeMap, `tagMap, `activeNodes, `connections, `activeConnections, activeScene
      ensures Valid()
      ensures activeScene == old(activeScene)
      ensures old(nodeQueue) == [] ==> nodeQueue == [] && created.None? && unchanged(this)
      ensures old(nodeQueue) == [] && activeScene != null ==> unchanged(activeScene)
      ensures old(nodeQueue) != [] ==> nodeQueue == old(nodeQueue)[1..]
      ensures old(nodeQueue) != [] && old(SceneFull()) ==> created.None? && connections == old(connections)
      ensures old(nodeQueue) != [] && old(SceneFull()) ==> unchanged(activeScene)
      ensures created.Some? <==> old(nodeQueue) != [] && !old(SceneFull()) && old(nodeQueue)[0].nodeClass.Some?
      ensures created.Some? ==> Generated(created.value, old(nodeQueue)[0], old(registry))
      ensures created.None? ==> registry == old(registry)
    {
      created := None;
      if nodeQueue == [] {
        return;
      }
      var d := nodeQueue[0];
      nodeQueue := nodeQueue[1..];
      if activeScene != null && |activeScene.children| >= maxNodesPerScene {
        return;
      }
      created := GenerateNode(d);
    }

    /**
     * What a processed request `d` leaves behind for its spawned actor `a`,
     * given the registry before: the actor is new and spawned from `d`; it
     * is registered under its id when auto-registration is on and the id is
     * non-empty and free; it is a child of the active scene, if any; and
     * every relation of `d` is honoured between the new node's id and the
     * other id the relation names.
     */
    ghost predicate Generated(a: AnyNode, d: NodeGenerateData, before: map<string, AnyNode>)
      requires d.nodeClass.Some?
      reads this, activeScene, a.base, if a.actor.SceneClass? then {a.actor.scene} else {}
      reads if a.actor.ItemClass? then {a.actor.item} else {}
      reads if a.actor.ItemClass? then a.actor.item.capabilities else []
    {
      SpawnedActor(a, d.nodeClass.value, d) &&
      (autoRegister && d.nodeData.id != "" && d.nodeData.id !in before ==> registry == before[d.nodeData.id := a]) &&
      (activeScene != null ==> a.base in activeScene.children) &&
      forall r :: r in d.relations ==> Linked(registry, connections, RelationEnds(r, d.nodeData.id).0, RelationEnds(r, d.nodeData.id).1)
    }

    /** The part of `ProcessNodeGeneration` after the scene-capacity check. */
    method GenerateNode(d: NodeGenerateData) returns (ghost created: Option<AnyNode>)
      requires Valid()
      modifies `registry, `typeMap, `tagMap, `activeNodes, `connections, `activeConnections, activeScene
      ensures Valid()
      ensures created.Some? <==> d.nodeClass.Some?
      ensures created.Some? ==> fresh(created.value.base) && Generated(created.value, d, old(registry))
      ensures created.None? ==> unchanged(this) && (activeScene != null ==> unchanged(activeScene))
    {
      var x := CreateNode(d.nodeClass, d);
      created := x;
      if x.Some? {
        Place(x.value, d);
      }
    }

    /** The new actor `a` joins the active scene, if any, and the relations of `d` are created. */
    method Place(a: AnyNode, d: NodeGenerateData)
      requires Valid() && d.nodeClass.Some? && SpawnedActor(a, d.nodeClass.value, d)
      requires a.actor.SceneClass? ==> a.actor.scene != activeScene
      modifies `connections, `activeConnections, activeScene, a.base`state, a.base`stateChanges
      ensures Valid() && SpawnedActor(a, d.nodeClass.value, d)
      ensures activeScene != null ==> a.base in activeScene.children
      ensures forall r :: r in d.relations ==> Linked(registry, connections, RelationEnds(r, d.nodeData.id).0, RelationEnds(r, d.nodeData.id).1)
    {
      JoinScene(a, d.nodeClass.value, d);
      LinkRelations(d.relations, a.base.data.id);
    }

    /** Adding a newly spawned actor's node to the active scene, if any, keeps what was spawned. */
    method JoinScene(a: AnyNode, ghost cls: NodeClass, ghost d: NodeGenerateData)
      requires SceneValid() && SpawnedActor(a, cls, d)
      requires a.actor.SceneClass? ==> a.actor.scene != activeScene
      modifies activeScene, a.base`state, a.base`stateChanges
      ensures SceneValid() && SpawnedActor(a, cls, d)
      ensures activeScene != null ==> a.base in activeScene.children
    {
      if activeScene != null {
        activeScene.AddChildNode(a.base);
      }
    }

    /**
     * `ProcessGenerationQueue`: one node request, then one relation
     * request. The relation request is read against the registry as the
     * node request left it, so it may name the node made in the same round.
     */
    method ProcessGenerationQueue() returns (ghost created: Option<AnyNode>)
      requires Valid()
      modifies `nodeQueue, `connectionQueue, `registry, `typeMap, `tagMap, `activeNodes, `connections, `activeConnections, activeScene
      ensures Valid()
      ensures nodeQueue == if old(nodeQueue) == [] then [] else old(nodeQueue)[1..]
      ensures created.Some? <==> old(nodeQueue) != [] && !old(SceneFull()) && old(nodeQueue)[0].nodeClass.Some?
      ensures created.Some? ==> SpawnedActor(created.value, old(nodeQueue)[0].nodeClass.value, old(nodeQueue)[0])
      ensures created.None? ==> registry == old(registry)
      ensures old(connectionQueue) == [] ==> connectionQueue == []
      ensures old(connectionQueue) != [] && old(connectionQueue)[0].sourceId in registry && old(connectionQueue)[0].targetId in registry ==>
        connectionQueue == old(connectionQueue)[1..] &&
        Linked(registry, connections, old(connectionQueue)[0].sourceId, old(connectionQueue)[0].targetId)
      ensures old(connectionQueue) != [] && !(old(connectionQueue)[0].sourceId in registry && old(connectionQueue)[0].targetId in registry) ==>
        connectionQueue == old(connectionQueue)[1..] + [old(connectionQueue)[0]]
    {
      created := ProcessNodeGeneration();
      ProcessConnectionGeneration();
    }

    /**
     * `ResetSystem`: every connection of the active list is removed and
     * every registered node unregistered, then every registry, index,
     * active list and queue is emptied and no scene is active.
     */
    method ResetSystem()
      requires NodesValid() && ConnectionsValid()
      modifies `registry, `typeMap, `tagMap, `connections, `activeNodes, `activeConnections, `activeScene, `nodeQueue, `connectionQueue
      ensures Valid()
      ensures registry == map[] && typeMap == map[] && tagMap == map[] && connections == map[]
      ensures activeNodes == [] && activeConnections == [] && activeScene == null
      ensures nodeQueue == [] && connectionQueue == []
      ensures maxNodesPerScene == old(maxNodesPerScene) && autoRegister == old(autoRegister)
    {
      RemoveActiveConnections();
      UnregisterAll();
      registry := map[];
      connections := map[];
      typeMap := map[];
      tagMap := map[];
      activeNodes := [];
      activeConnections := [];
      activeScene := null;
      ClearGenerationQueues();
      EmptyIndicesOk();
    }

    /** The first loop of `ResetSystem`: each connection of a snapshot of the active list is removed. */
    method RemoveActiveConnections()
      requires ConnectionsValid()
      modifies `connections, `activeConnections
      ensures ConnectionsValid()
    {
      var all := activeConnections;
      var i := 0;
      while i < |all|
        invariant ConnectionsValid()
      {
        var _ := RemoveConnection(all[i]);
        i := i + 1;
      }
    }

    /** The second loop of `ResetSystem`: each id of a snapshot of the registry is unregistered, which empties it. */
    method UnregisterAll()
      requires NodesValid() && ConnectionsValid()
      modifies `registry, `typeMap, `tagMap, `activeNodes, `connections, `activeConnections
      ensures NodesValid() && ConnectionsValid()
      ensures registry == map[]
    {
      var ids := registry.Keys;
      while ids != {}
        invariant NodesValid() && ConnectionsValid()
        invariant registry.Keys <= ids
        decreases ids
      {
        var id :| id in ids;
        var _ := UnregisterNodeByID(id);
        ids := ids - {id};
      }
    }

    /**
     * `UpdateNodeIndices`: both node indices are emptied and rebuilt by
     * filing every registered node again, which leaves each of them right
     * for the registry.
     */
    method UpdateNodeIndices()
      requires KeyedRegistry(registry)
      modifies `typeMap, `tagMap
      ensures IndexOk(registry, typeMap, TypeKeys) && IndexOk(registry, tagMap, TagKeys)
    {
      RebuildTypeIndex();
      RebuildTagIndex();
    }

    /** The type half of `UpdateNodeIndices`. */
    method RebuildTypeIndex()
      requires KeyedRegistry(registry)
      modifies `typeMap
      ensures IndexOk(registry, typeMap, TypeKeys)
    {
      typeMap := map[];
      var todo := registry.Keys;
      ghost var done: map<string, AnyNode> := map[];
      while todo != {}
        invariant todo <= registry.Keys
        invariant forall k :: k in done <==> k in registry && k !in todo
        invariant forall k :: k in done ==> done[k] == registry[k]
        invariant IndexOk(done, typeMap, TypeKeys)
        decreases todo
      {
        var k :| k in todo;
        ghost var before := typeMap;
        UpdateNodeTypeMap(registry[k].base, true);
        RegisterKeepsIndex(done, before, TypeKeys, registry[k]);
        done := done[k := registry[k]];
        todo := todo - {k};
      }
      assert done == registry;
    }

    /** The tag half of `UpdateNodeIndices`. */
    method RebuildTagIndex()
      requires KeyedRegistry(registry)
      modifies `tagMap
      ensures IndexOk(registry, tagMap, TagKeys)
    {
      tagMap := map[];
      var todo := registry.Keys;
      ghost var done: map<string, AnyNode> := map[];
      while todo != {}
        invariant todo <= registry.Keys
        invariant forall k :: k in done <==> k in registry && k !in todo
        invariant forall k :: k in done ==> done[k] == registry[k]
        invariant IndexOk(done, tagMap, TagKeys)
        decreases todo
      {
        var k :| k in todo;
        ghost var before := tagMap;
        UpdateNodeTagMap(registry[k].base, true);
        RegisterKeepsIndex(done, before, TagKeys, registry[k]);
        done := done[k := registry[k]];
        todo := todo - {k};
      }
      assert done == registry;
    }

    /**
     * `CleanupInvalidReferences`: registry entries of dead nodes are
     * dropped, and so is every bucket of the connection index that holds no
     * live connection; then both node indices are rebuilt.
     */
    method CleanupInvalidReferences(live: set<InteractiveNode>, liveConns: set<NodeConnection>)
      requires KeyedRegistry(registry)
      modifies `registry, `typeMap, `tagMap, `connections
      ensures registry == LiveRegistry(old(registry), live)
      ensures connections == LiveBuckets(old(connections), liveConns)
      ensures IndexOk(registry, typeMap, TypeKeys) && IndexOk(registry, tagMap, TagKeys)
    {
      var dead := CollectDeadIds(registry, live);
      var kept := RemoveKeys(registry, dead);
      assert kept == LiveRegistry(registry, live);
      registry := kept;
      var lifeless := CollectLifelessBuckets(connections, liveConns);
      var buckets := RemoveKeys(connections, lifeless);
      assert buckets == LiveBuckets(connections, liveConns);
      connections := buckets;
      UpdateNodeIndices();
    }

    /** Removing each connection of `bad` in turn takes all of them out of the index and the active list. */
    method RemoveConnections(bad: seq<NodeConnection>)
      requires ConnectionsValid()
      modifies `connections, `activeConnections
      ensures ConnectionsValid()
      ensures connections == WithoutAll(old(connections), Elements(bad))
      ensures activeConnections == Without(old(activeConnections), Elements(bad))
    {
      WithoutAllNothing(connections);
      WithoutNothing(activeConnections, {});
      ghost var gone: set<NodeConnection> := {};
      var i := 0;
      while i < |bad|
        invariant 0 <= i <= |bad|
        invariant gone == Elements(bad[..i])
        invariant ConnectionsValid()
        invariant connections == WithoutAll(old(connections), gone)
        invariant activeConnections == Without(old(activeConnections), gone)
      {
        var next := i + 1;
        ElementsStep(bad, i, next);
        RemovalStep(old(connections), old(activeConnections), gone, bad[i]);
        var _ := RemoveConnection(bad[i]);
        gone := gone + {bad[i]};
        i := next;
      }
      assert bad[..i] == bad;
    }

    /** The node half of `ValidateSystem`: registry entries of dead nodes are dropped; `found` tells whether there were any. */
    method DropDeadNodes(live: set<InteractiveNode>) returns (found: bool)
      modifies `registry
      ensures registry == LiveRegistry(old(registry), live)
      ensures found <==> exists k :: k in old(registry) && old(registry)[k].base !in live
    {
      var dead := CollectDeadIds(registry, live);
      var kept := RemoveKeys(registry, dead);
      assert kept == LiveRegistry(registry, live);
      registry := kept;
      found := dead != [];
      if found {
        assert dead[0] in dead;
      }
    }

    /**
     * The connection half of `ValidateSystem`: every indexed connection that
     * is dead or not `IsValid` is removed; `found` tells whether there were
     * any.
     */
    method DropBrokenConnections(liveConns: set<NodeConnection>) returns (found: bool)
      requires ConnectionsValid()
      modifies `connections, `activeConnections
      ensures ConnectionsValid()
      ensures found <==> exists k, c :: Listed(old(connections), k, c) && Broken(c, liveConns)
      ensures !found ==> connections == old(connections) && activeConnections == old(activeConnections)
      ensures forall k, c :: Listed(connections, k, c) ==> Listed(old(connections), k, c) && !Broken(c, liveConns)
    {
      var bad := CollectBroken(connections, liveConns);
      found := bad != [];
      if found {
        assert BrokenListed(connections, bad[0], liveConns);
      } else {
        assert Elements(bad) == {};
        WithoutAllNothing(connections);
        WithoutNothing(activeConnections, {});
      }
      RemoveConnections(bad);
    }

    /**
     * `ValidateSystem`: registry entries of dead nodes are dropped (their
     * index entries stay for now), every indexed connection that is dead
     * or not `IsValid` is removed, and when anything was found the
     * references are cleaned up and the node indices rebuilt. The answer
     * is whether nothing was found.
     */
    method ValidateSystem(live: set<InteractiveNode>, liveConns: set<NodeConnection>) returns (ok: bool)
      requires NodesValid() && ConnectionsValid()
      modifies `registry, `typeMap, `tagMap, `connections, `activeConnections
      ensures NodesValid() && ConnectionsValid()
      ensures ok <==> (forall k :: k in old(registry) ==> old(registry)[k].base in live) &&
                      (forall k, c :: Listed(old(connections), k, c) ==> !Broken(c, liveConns))
      ensures ok ==> unchanged(this)
      ensures registry == LiveRegistry(old(registry), live)
      ensures forall k, c :: Listed(connections, k, c) ==> Listed(old(connections), k, c) && !Broken(c, liveConns)
    {
      LiveRegistryKeepsKeys(registry, live);
      var deadNodes := DropDeadNodes(live);
      var brokenConns := DropBrokenConnections(liveConns);
      ok := !deadNodes && !brokenConns;
      if !ok {
        AllLiveRegistry(registry, live);
        AllLiveBuckets(connections, liveConns);
        CleanupInvalidReferences(live, liveConns);
      } else {
        AllLiveRegistry(old(registry), live);
      }
    }

    /** The connections that listen to `n`'s state changes: the indexed ones it is an endpoint of, in index order. */
    function Listeners(n: InteractiveNode): (r: seq<NodeConnection>)
      reads `connections
      ensures forall i :: 0 <= i < |r| ==> r[i] in Bucket(connections, n.data.id) && (r[i].source == n || r[i].target == n)
    {
      Filter(Bucket(connections, n.data.id), (c: NodeConnection) => c.source == n || c.target == n)
    }

    /** No incoming Prerequisite connection of `n` has a source that is not Completed; other relation types do not count. */
    ghost predicate PrerequisitesMet(n: InteractiveNode)
      reads `connections, Sources(GetIncomingConnections(n.data.id))
    {
      PrerequisitesCompleted(GetIncomingConnections(n.data.id))
    }

    /** `CheckPrerequisites`: every Prerequisite source among the incoming connections of `n` is Completed. */
    method CheckPrerequisites(n: InteractiveNode?) returns (ok: bool)
      ensures ok <==> n != null && PrerequisitesMet(n)
    {
      if n == null {
        return false;
      }
      ok := AllPrerequisitesCompleted(GetIncomingConnections(n.data.id));
    }

    /** The first step of `OnNodeStateChanged`: the node joins the active list iff its new state is Active. */
    method TrackActive(n: InteractiveNode, s: NodeState)
      requires NoDup(activeNodes)
      modifies `activeNodes
      ensures NoDup(activeNodes)
      ensures n in activeNodes <==> s == Active
      ensures activeNodes == if s == Active then AddUnique(old(activeNodes), n) else RemoveAll(old(activeNodes), n)
    {
      if s == Active {
        activeNodes := AddUnique(activeNodes, n);
      } else {
        activeNodes := RemoveAll(activeNodes, n);
      }
    }

    /**
     * `SetNodeState` of `n` with its listeners: a change to the current
     * state does nothing; otherwise the state is set and the change is
     * broadcast, first to the manager when it registered `n`, then to each
     * listening connection in index order. With no fuel left the change is
     * made but not dispatched, which bounds the cascade.
     */
    method ChangeState(n: InteractiveNode, s: NodeState, fuel: nat, ghost scope: set<InteractiveNode>)
      requires NodesValid() && n in scope && Endpoints(connections) <= scope
      modifies `activeNodes, scope`state, scope`stateChanges
      ensures NodesValid() && LogsExtended(scope)
      ensures old(n.state) == s ==> unchanged(this) && unchanged(scope)
      ensures old(n.state) != s ==>
        |old(n.stateChanges)| < |n.stateChanges| && n.stateChanges[|old(n.stateChanges)|] == StateChange(old(n.state), s)
      decreases fuel, 0
    {
      var before := n.state;
      if before == s {
        return;
      }
      n.SetNodeState(s);
      ghost var logged := n.stateChanges;
      if fuel > 0 {
        ghost var unlocked, mid, hops := Broadcast(n, before, s, fuel - 1, scope);
        assert logged <= n.stateChanges;
      }
    }

    /**
     * The broadcast of a change of `n` from `before` to `s`: first the
     * manager's handler when the manager registered `n`, then the handler
     * of each listening connection in index order.
     */
    method Broadcast(n: InteractiveNode, before: NodeState, s: NodeState, fuel: nat, ghost scope: set<InteractiveNode>)
      returns (ghost unlocked: seq<Snap>, ghost mid: Snap, ghost hops: seq<Snap>)
      requires NodesValid() && Endpoints(connections) <= scope
      modifies `activeNodes, scope`state, scope`stateChanges
      ensures NodesValid() && LogsExtended(scope)
      ensures Manages(n) && s == Completed ==>
        UnlockTrace(GetOutgoingConnections(n.data.id), unlocked) && unlocked[0] == old(Snapshot(scope)) && unlocked[|unlocked| - 1] == mid
      ensures !(Manages(n) && s == Completed) ==> mid == old(Snapshot(scope))
      ensures HandleTrace(Listeners(n), n, s, hops) && hops[0] == mid && hops[|hops| - 1] == Snapshot(scope)
      decreases fuel, 5
    {
      unlocked, mid := NotifyManager(n, before, s, fuel, scope);
      hops := NotifyListeners(n, s, fuel, scope);
    }

    /** The manager's own handler, when it registered `n`; `mid` is the snapshot it leaves. */
    method NotifyManager(n: InteractiveNode, before: NodeState, s: NodeState, fuel: nat, ghost scope: set<InteractiveNode>)
      returns (ghost unlocked: seq<Snap>, ghost mid: Snap)
      requires NodesValid() && Endpoints(connections) <= scope
      modifies `activeNodes, scope`state, scope`stateChanges
      ensures NodesValid() && LogsExtended(scope) && mid == Snapshot(scope)
      ensures Manages(n) && s == Completed ==>
        UnlockTrace(GetOutgoingConnections(n.data.id), unlocked) && unlocked[0] == old(Snapshot(scope)) && unlocked[|unlocked| - 1] == mid
      ensures !(Manages(n) && s == Completed) ==> mid == old(Snapshot(scope))
      decreases fuel, 4
    {
      unlocked := [];
      if Manages(n) {
        unlocked := OnNodeStateChanged(n, before, s, fuel, scope);
      }
      mid := Snapshot(scope);
    }

    /** The handlers of the connections listening to `n`, in index order. */
    method NotifyListeners(n: InteractiveNode, s: NodeState, fuel: nat, ghost scope: set<InteractiveNode>) returns (ghost hops: seq<Snap>)
      requires NodesValid() && Endpoints(connections) <= scope
      modifies `activeNodes, scope`state, scope`stateChanges
      ensures NodesValid() && LogsExtended(scope)
      ensures HandleTrace(Listeners(n), n, s, hops) && hops[0] == old(Snapshot(scope)) && hops[|hops| - 1] == Snapshot(scope)
      decreases fuel, 4
    {
      ghost var mid := Snapshot(scope);
      var listeners := Listeners(n);
      hops := [mid];
      var i := 0;
      while i < |listeners|
        invariant 0 <= i <= |listeners|
        invariant NodesValid() && LogsExtended(scope)
        invariant HopsUpTo(listeners, n, s, hops, i) && hops[0] == mid && hops[i] == Snapshot(scope)
      {
        hops := NotifyAt(listeners, i, n, s, fuel, scope, hops);
        i := i + 1;
      }
    }

    /** One pass of `NotifyListeners`: the `i`th listener's handler, recorded in `hops`. */
    method NotifyAt(listeners: seq<NodeConnection>, i: nat, n: InteractiveNode, s: NodeState, fuel: nat, ghost scope: set<InteractiveNode>,
                    ghost hops: seq<Snap>) returns (ghost hops': seq<Snap>)
      requires NodesValid() && Endpoints(connections) <= scope
      requires i < |listeners| && listeners[i] in Indexed(connections)
      requires HopsUpTo(listeners, n, s, hops, i) && hops[i] == Snapshot(scope)
      modifies `activeNodes, scope`state, scope`stateChanges
      ensures NodesValid() && LogsExtended(scope)
      ensures HopsUpTo(listeners, n, s, hops', i + 1) && hops'[0] == hops[0] && hops'[i + 1] == Snapshot(scope)
      decreases fuel, 3
    {
      ghost var now := HandleNodeStateChange(listeners[i], n, s, fuel, scope);
      HopsSnoc(listeners, n, s, hops, i, now);
      hops' := hops + [now];
    }

    /** The manager registered `n` under its id, so its handler hears `n`'s changes. */
    predicate Manages(n: InteractiveNode)
      reads `registry
    {
      n.data.id in registry && registry[n.data.id].base == n
    }

    /** The first `i` listeners' handlers are recorded in `hops`. */
    ghost predicate HopsUpTo(ls: seq<NodeConnection>, n: InteractiveNode, s: NodeState, hops: seq<Snap>, i: nat)
      reads ls
    {
      i <= |ls| && |hops| == i + 1 && forall j :: 0 <= j < i ==> HandleStep(ls[j], n, s, hops[j], hops[j + 1])
    }

    lemma HopsSnoc(ls: seq<NodeConnection>, n: InteractiveNode, s: NodeState, hops: seq<Snap>, i: nat, now: Snap)
      requires HopsUpTo(ls, n, s, hops, i) && i < |ls| && HandleStep(ls[i], n, s, hops[i], now)
      ensures HopsUpTo(ls, n, s, hops + [now], i + 1) && (hops + [now])[0] == hops[0] && (hops + [now])[i + 1] == now
      ensures i + 1 == |ls| ==> HandleTrace(ls, n, s, hops + [now])
    {
    }

    /**
     * `OnNodeStateChanged`: the active list follows the new state; a node
     * that completes unlocks its dependents.
     */
    method OnNodeStateChanged(n: InteractiveNode, before: NodeState, s: NodeState, fuel: nat, ghost scope: set<InteractiveNode>)
      returns (ghost trace: seq<Snap>)
      requires NodesValid() && Endpoints(connections) <= scope
      modifies `activeNodes, scope`state, scope`stateChanges
      ensures NodesValid() && LogsExtended(scope)
      ensures s != Completed ==> activeNodes == if s == Active then AddUnique(old(activeNodes), n) else RemoveAll(old(activeNodes), n)
      ensures s != Completed ==> unchanged(scope)
      ensures s == Completed ==>
        UnlockTrace(GetOutgoingConnections(n.data.id), trace) && trace[0] == old(Snapshot(scope)) && trace[|trace| - 1] == Snapshot(scope)
      decreases fuel, 3
    {
      TrackActive(n, s);
      trace := [];
      if s == Completed {
        trace := ActivateDependentNodes(n, fuel, scope);
      }
    }

    /**
     * `ActivateDependentNodes`: each outgoing connection of the completed
     * node, in index order, may unlock its target. `trace` holds the
     * snapshot before each visit and the final one: at each visit the
     * target is unlocked (logging Locked to Active) exactly when the
     * unlock rule holds in the snapshot of that moment, and a visit where
     * it does not changes nothing.
     */
    method ActivateDependentNodes(n: InteractiveNode, fuel: nat, ghost scope: set<InteractiveNode>) returns (ghost trace: seq<Snap>)
      requires NodesValid() && Endpoints(connections) <= scope
      modifies `activeNodes, scope`state, scope`stateChanges
      ensures NodesValid() && LogsExtended(scope)
      ensures UnlockTrace(GetOutgoingConnections(n.data.id), trace)
      ensures trace[0] == old(Snapshot(scope)) && trace[|trace| - 1] == Snapshot(scope)
      decreases fuel, 2
    {
      var outs := GetOutgoingConnections(n.data.id);
      ghost var start := Snapshot(scope);
      trace := [start];
      var i := 0;
      while i < |outs|
        invariant 0 <= i <= |outs|
        invariant NodesValid() && LogsExtended(scope)
        invariant TraceUpTo(outs, trace, i) && trace[0] == start && trace[i] == Snapshot(scope)
      {
        UnlockDependent(outs[i], fuel, scope);
        ghost var now := Snapshot(scope);
        TraceSnoc(outs, trace, i, now);
        trace := trace + [now];
        i := i + 1;
      }
    }

    /** The first `i` visits of `outs` are recorded in `trace`. */
    ghost predicate TraceUpTo(outs: seq<NodeConnection>, trace: seq<Snap>, i: nat)
      reads `connections
    {
      i <= |outs| && |trace| == i + 1 && forall j :: 0 <= j < i ==> UnlockStep(outs[j], trace[j], trace[j + 1])
    }

    lemma TraceSnoc(outs: seq<NodeConnection>, trace: seq<Snap>, i: nat, now: Snap)
      requires TraceUpTo(outs, trace, i) && i < |outs| && UnlockStep(outs[i], trace[i], now)
      ensures TraceUpTo(outs, trace + [now], i + 1) && (trace + [now])[0] == trace[0] && (trace + [now])[i + 1] == now
      ensures i + 1 == |outs| ==> UnlockTrace(outs, trace + [now])
    {
    }

    /** `Unlocks` read in a snapshot. */
    ghost predicate UnlocksIn(c: NodeConnection, st: Snap)
      reads `connections
    {
      (c.relationType == Prerequisite || c.relationType == Dependency) && c.target != null &&
      c.target in st && st[c.target].0 == Locked && PrerequisitesCompletedIn(GetIncomingConnections(c.target.data.id), st)
    }

    /** One visit of `ActivateDependentNodes` between two snapshots. */
    ghost predicate UnlockStep(c: NodeConnection, before: Snap, after: Snap)
      reads `connections
    {
      (UnlocksIn(c, before) ==> Logs(c.target, before, after, StateChange(Locked, Active))) &&
      (!UnlocksIn(c, before) ==> after == before)
    }

    /** A snapshot before each of the connections `outs` is visited, then the final one. */
    ghost predicate UnlockTrace(outs: seq<NodeConnection>, trace: seq<Snap>)
      reads `connections
    {
      |trace| == |outs| + 1 && forall i :: 0 <= i < |outs| ==> UnlockStep(outs[i], trace[i], trace[i + 1])
    }

    /** With every endpoint in `scope`, the unlock rule reads the same on the nodes and on their snapshot. */
    lemma UnlocksAgree(c: NodeConnection, scope: set<InteractiveNode>)
      requires Endpoints(connections) <= scope && c in Indexed(connections)
      ensures Unlocks(c) <==> UnlocksIn(c, Snapshot(scope))
    {
      if c.target != null {
        var ins := GetIncomingConnections(c.target.data.id);
        forall i | 0 <= i < |ins| && ins[i].source != null
          ensures ins[i].source in scope
        {
          assert ins[i] in Indexed(connections);
        }
      }
    }

    /**
     * One step of `ActivateDependentNodes`: the target of a Prerequisite
     * or Dependency connection is set Active exactly when it is Locked and
     * its prerequisites are met; otherwise nothing happens.
     */
    method UnlockDependent(c: NodeConnection, fuel: nat, ghost scope: set<InteractiveNode>)
      requires NodesValid() && Endpoints(connections) <= scope && c in Indexed(connections)
      modifies `activeNodes, scope`state, scope`stateChanges
      ensures NodesValid() && LogsExtended(scope)
      ensures old(Unlocks(c)) ==> var t := c.target;
        |old(t.stateChanges)| < |t.stateChanges| && t.stateChanges[|old(t.stateChanges)|] == StateChange(Locked, Active)
      ensures !old(Unlocks(c)) ==> unchanged(this) && unchanged(scope)
      ensures UnlockStep(c, old(Snapshot(scope)), Snapshot(scope))
      decreases fuel, 1
    {
      UnlocksAgree(c, scope);
      if (c.relationType == Prerequisite || c.relationType == Dependency) && c.target != null && c.target.state == Locked {
        var ok := CheckPrerequisites(c.target);
        if ok {
          ChangeState(c.target, Active, fuel, scope);
        }
      }
    }

    /** The unlock rule for one connection: a Prerequisite or Dependency connection whose target is Locked with its prerequisites met. */
    ghost predicate Unlocks(c: NodeConnection)
      reads `connections, c.target, if c.target != null then Sources(GetIncomingConnections(c.target.data.id)) else {}
    {
      (c.relationType == Prerequisite || c.relationType == Dependency) && c.target != null &&
      c.target.state == Locked && PrerequisitesMet(c.target)
    }

    /**
     * `HandleNodeStateChange` of a listening connection: when it can carry
     * the new state and has no activation delay it applies `PropagateState`,
     * setting the opposite node through its own state setter.
     */
    method HandleNodeStateChange(c: NodeConnection, n: InteractiveNode, s: NodeState, fuel: nat, ghost scope: set<InteractiveNode>)
      returns (ghost after: Snap)
      requires NodesValid() && Endpoints(connections) <= scope && c in Indexed(connections)
      modifies `activeNodes, scope`state, scope`stateChanges
      ensures NodesValid() && LogsExtended(scope)
      ensures old(c.PropagationOf(n, s)).None? || c.activationDelay > 0.0 ==> unchanged(this) && unchanged(scope)
      ensures var e := old(c.PropagationOf(n, s)); e.Some? && c.activationDelay <= 0.0 && old(e.value.0.state) != e.value.1 ==>
        var t := e.value.0;
        |old(t.stateChanges)| < |t.stateChanges| && t.stateChanges[|old(t.stateChanges)|] == StateChange(old(t.state), e.value.1)
      ensures after == Snapshot(scope) && HandleStep(c, n, s, old(Snapshot(scope)), after)
      decreases fuel, 1
    {
      EffectAgrees(c, n, s, scope);
      if c.CanPropagateState(s) && c.activationDelay <= 0.0 {
        var effect := c.PropagationOf(n, s);
        if effect.Some? {
          ChangeState(effect.value.0, effect.value.1, fuel, scope);
        }
      }
      after := Snapshot(scope);
    }

    /** With every endpoint in `scope`, the effect read in the snapshot is the connection's own, unless it waits. */
    lemma EffectAgrees(c: NodeConnection, n: InteractiveNode, s: NodeState, scope: set<InteractiveNode>)
      requires Endpoints(connections) <= scope && c in Indexed(connections)
      ensures EffectIn(c, n, s, Snapshot(scope)) == if c.activationDelay > 0.0 then None else c.PropagationOf(n, s)
    {
    }

    /** `OnConnectionStateChanged`: the active-connection list follows the connection's active flag. */
    method OnConnectionStateChanged(c: NodeConnection?)
      requires NoDup(activeConnections)
      modifies `activeConnections
      ensures NoDup(activeConnections)
      ensures c == null ==> activeConnections == old(activeConnections)
      ensures c != null ==> (c in activeConnections <==> c.active)
      ensures c != null ==> forall d :: d != c ==> (d in activeConnections <==> d in old(activeConnections))
    {
      if c == null {
        return;
      }
      if c.active {
        activeConnections := AddUnique(activeConnections, c);
      } else {
        activeConnections := RemoveAll(activeConnections, c);
      }
    }
  }
}
