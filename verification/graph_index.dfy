/**
 * The indices the node-system manager keeps, as values: the registry of
 * nodes by id, the type and tag indices over it, and the connection index
 * keyed by endpoint id; what it means for each to be right, and that
 * registering, unregistering, filing and removing keep them right.
 */
module GraphIndex {
  import opened Util
  import opened NodeTypes
  import opened Nodes
  import opened Connections
  import opened Scenes
  import opened Items
  import opened Buckets

  /** The dynamic class of a registered actor: a plain node, a scene or an item. */
  datatype ActorClass = PlainClass | SceneClass(scene: SceneNode) | ItemClass(item: ItemNode)

  /**
   * A registered actor: the interactive node it is, with its dynamic
   * class. A scene or an item is registered through its own node.
   */
  datatype AnyNode = AnyNode(base: InteractiveNode, actor: ActorClass)

  function PlainNode(n: InteractiveNode): (r: AnyNode)
    ensures r.base == n && r.actor.PlainClass?
  {
    AnyNode(n, PlainClass)
  }

  function SceneActor(s: SceneNode): (r: AnyNode)
    ensures r.base == s.node && r.actor == SceneClass(s)
  {
    AnyNode(s.node, SceneClass(s))
  }

  function ItemActor(i: ItemNode): (r: AnyNode)
    ensures r.base == i.node && r.actor == ItemClass(i)
  {
    AnyNode(i.node, ItemClass(i))
  }

  /** `n` is the node the registry holds under its own id. */
  ghost predicate RegisteredIn(registry: map<string, AnyNode>, n: InteractiveNode)
  {
    n.data.id in registry && registry[n.data.id].base == n
  }

  /** Every registry entry is filed under the id of its node. */
  ghost predicate KeyedRegistry(registry: map<string, AnyNode>)
  {
    forall k :: k in registry ==> registry[k].base.data.id == k
  }

  /** The keys the type index files a node under: its type. */
  function TypeKeys(n: InteractiveNode): seq<NodeType>
  {
    [n.data.nodeType]
  }

  /** The keys the tag index files a node under: its tags. */
  function TagKeys(n: InteractiveNode): seq<string>
  {
    n.data.tags
  }

  /** No bucket of the index is empty or holds a node twice. */
  ghost predicate IndexShape<K>(index: map<K, seq<InteractiveNode>>)
  {
    NoEmptyBucket(index) && forall g :: g in index ==> NoDup(index[g])
  }

  /** Every node the index lists is registered and listed under one of its own keys. */
  ghost predicate IndexSound<K>(registry: map<string, AnyNode>, index: map<K, seq<InteractiveNode>>,
                                keysOf: InteractiveNode -> seq<K>)
  {
    forall g, n {:trigger Listed(index, g, n)} :: g in index && n in index[g] ==> Belongs(registry, keysOf, g, n)
  }

  /** `n` is registered and has key `g`. */
  ghost predicate Belongs<K>(registry: map<string, AnyNode>, keysOf: InteractiveNode -> seq<K>, g: K, n: InteractiveNode)
  {
    RegisteredIn(registry, n) && g in keysOf(n)
  }

  /** The registry holds an entry under `k` whose node has key `g`. */
  ghost predicate HasKey<K>(registry: map<string, AnyNode>, keysOf: InteractiveNode -> seq<K>, k: string, g: K)
  {
    k in registry && g in keysOf(registry[k].base)
  }

  /** Every registered node is listed under each of its keys. */
  ghost predicate IndexComplete<K>(registry: map<string, AnyNode>, index: map<K, seq<InteractiveNode>>,
                                   keysOf: InteractiveNode -> seq<K>)
  {
    forall k, g {:trigger HasKey(registry, keysOf, k, g)} :: k in registry && g in keysOf(registry[k].base) ==> registry[k].base in Bucket(index, g)
  }

  /**
   * A node index (by type or by tag) lists each registered node, once,
   * under each of its keys and under nothing else, and lists nothing else;
   * no bucket is empty.
   */
  ghost predicate IndexOk<K>(registry: map<string, AnyNode>, index: map<K, seq<InteractiveNode>>,
                             keysOf: InteractiveNode -> seq<K>)
  {
    IndexShape(index) && IndexSound(registry, index, keysOf) && IndexComplete(registry, index, keysOf)
  }

  /** The id a connection files an endpoint under; a missing endpoint gives the empty id. */
  function EndpointId(n: InteractiveNode?): string
  {
    if n == null then "" else n.data.id
  }

  /** `c` joins two distinct nodes and is filed under the ids of both. */
  ghost predicate FiledUnderBoth(connections: map<string, seq<NodeConnection>>, c: NodeConnection)
  {
    c.source != null && c.target != null && c.source != c.target &&
    c in Bucket(connections, c.source.data.id) && c in Bucket(connections, c.target.data.id)
  }

  /**
   * The connection index: every listed connection joins two distinct nodes,
   * is filed under the id of one of its endpoints, and is filed under the
   * ids of both; no bucket is empty.
   */
  ghost predicate ConnIndexOk(connections: map<string, seq<NodeConnection>>)
  {
    NoEmptyBucket(connections) &&
    forall k, c {:trigger Listed(connections, k, c)} :: k in connections && c in connections[k] ==> EntryOk(connections, k, c)
  }

  /** `c`, listed under `k`, is listed under the id of one of its endpoints and is filed under both. */
  ghost predicate EntryOk(connections: map<string, seq<NodeConnection>>, k: string, c: NodeConnection)
  {
    (k == EndpointId(c.source) || k == EndpointId(c.target)) && FiledUnderBoth(connections, c)
  }

  /**
   * The node side of the manager's invariant, on the values of its fields:
   * no empty id is registered, every entry is filed under its node's id,
   * both node indices are right and the active list holds nothing twice.
   */
  ghost predicate NodeIndicesOk(registry: map<string, AnyNode>, types: map<NodeType, seq<InteractiveNode>>,
                                tags: map<string, seq<InteractiveNode>>, active: seq<InteractiveNode>)
  {
    "" !in registry && KeyedRegistry(registry) &&
    IndexOk(registry, types, TypeKeys) && IndexOk(registry, tags, TagKeys) && NoDup(active)
  }

  /** Registering a node under a fresh non-empty id and filing it in both indices keeps the node side right. */
  lemma RegisterKeepsNodeIndices(registry: map<string, AnyNode>, types: map<NodeType, seq<InteractiveNode>>,
                                 tags: map<string, seq<InteractiveNode>>, active: seq<InteractiveNode>,
                                 x: AnyNode, active': seq<InteractiveNode>)
    requires NodeIndicesOk(registry, types, tags, active)
    requires x.base.data.id != "" && x.base.data.id !in registry
    requires NoDup(active')
    ensures NodeIndicesOk(registry[x.base.data.id := x], AddToBuckets(types, TypeKeys(x.base), x.base),
                          AddToBuckets(tags, TagKeys(x.base), x.base), active')
  {
    RegisterKeepsIndex(registry, types, TypeKeys, x);
    RegisterKeepsIndex(registry, tags, TagKeys, x);
    var registry' := registry[x.base.data.id := x];
    forall k | k in registry'
      ensures registry'[k].base.data.id == k
    {
    }
  }

  /** Unregistering the node registered under its id and taking it out of both indices and the active list keeps the node side right. */
  lemma UnregisterKeepsNodeIndices(registry: map<string, AnyNode>, types: map<NodeType, seq<InteractiveNode>>,
                                   tags: map<string, seq<InteractiveNode>>, active: seq<InteractiveNode>,
                                   b: InteractiveNode)
    requires NodeIndicesOk(registry, types, tags, active)
    requires RegisteredIn(registry, b)
    ensures NodeIndicesOk(registry - {b.data.id}, RemoveFromBuckets(types, TypeKeys(b), b),
                          RemoveFromBuckets(tags, TagKeys(b), b), RemoveAll(active, b))
  {
    UnregisterKeepsIndex(registry, types, TypeKeys, b);
    UnregisterKeepsIndex(registry, tags, TagKeys, b);
  }

  /** Filing a node under the single key of its type is filing it under all of `TypeKeys`. */
  lemma TypeKeysFiling(types: map<NodeType, seq<InteractiveNode>>, b: InteractiveNode)
    ensures AddToBuckets(types, TypeKeys(b), b) == AddToBucket(types, b.data.nodeType, b)
    ensures RemoveFromBuckets(types, TypeKeys(b), b) == RemoveFromBucket(types, b.data.nodeType, b)
  {
    assert TypeKeys(b)[..0] == [];
  }

  /** Registering a node under a fresh id keeps an index right once the node is filed under its keys. */
  lemma RegisterKeepsIndex<K>(registry: map<string, AnyNode>, index: map<K, seq<InteractiveNode>>,
                              keysOf: InteractiveNode -> seq<K>, x: AnyNode)
    requires IndexOk(registry, index, keysOf)
    requires x.base.data.id !in registry
    ensures IndexOk(registry[x.base.data.id := x], AddToBuckets(index, keysOf(x.base), x.base), keysOf)
  {
    var b := x.base;
    var registry' := registry[b.data.id := x];
    var index' := AddToBuckets(index, keysOf(b), b);
    AddToBucketsNoEmpty(index, keysOf(b), b);
    forall g | g in index'
      ensures NoDup(index'[g])
    {
      AddToBucketsAt(index, keysOf(b), b, g);
    }
    forall g, n | g in index' && n in index'[g]
      ensures Belongs(registry', keysOf, g, n)
    {
      RegisterSoundAt(registry, index, keysOf, x, g, n);
    }
    forall k, g | k in registry' && g in keysOf(registry'[k].base)
      ensures registry'[k].base in Bucket(index', g)
    {
      RegisterCompleteAt(registry, index, keysOf, x, k, g);
    }
  }

  lemma RegisterSoundAt<K>(registry: map<string, AnyNode>, index: map<K, seq<InteractiveNode>>,
                           keysOf: InteractiveNode -> seq<K>, x: AnyNode, g: K, n: InteractiveNode)
    requires IndexSound(registry, index, keysOf)
    requires x.base.data.id !in registry
    requires var index' := AddToBuckets(index, keysOf(x.base), x.base); Listed(index', g, n)
    ensures Belongs(registry[x.base.data.id := x], keysOf, g, n)
  {
    var b := x.base;
    AddToBucketsAt(index, keysOf(b), b, g);
    if n != b {
      assert Listed(index, g, n);
    } else {
      assert !Listed(index, g, b);
    }
  }

  lemma RegisterCompleteAt<K>(registry: map<string, AnyNode>, index: map<K, seq<InteractiveNode>>,
                              keysOf: InteractiveNode -> seq<K>, x: AnyNode, k: string, g: K)
    requires IndexComplete(registry, index, keysOf)
    requires var registry' := registry[x.base.data.id := x]; HasKey(registry', keysOf, k, g)
    ensures var registry' := registry[x.base.data.id := x];
      registry'[k].base in Bucket(AddToBuckets(index, keysOf(x.base), x.base), g)
  {
    AddToBucketsAt(index, keysOf(x.base), x.base, g);
    if k != x.base.data.id {
      assert HasKey(registry, keysOf, k, g);
    }
  }

  /** Unregistering the node registered under its id keeps an index right once the node is taken out of it. */
  lemma UnregisterKeepsIndex<K>(registry: map<string, AnyNode>, index: map<K, seq<InteractiveNode>>,
                                keysOf: InteractiveNode -> seq<K>, b: InteractiveNode)
    requires KeyedRegistry(registry) && IndexOk(registry, index, keysOf)
    requires RegisteredIn(registry, b)
    ensures IndexOk(registry - {b.data.id}, RemoveFromBuckets(index, keysOf(b), b), keysOf)
  {
    UnregisterKeepsShape(index, keysOf(b), b);
    UnregisterKeepsSound(registry, index, keysOf, b);
    UnregisterKeepsComplete(registry, index, keysOf, b);
  }

  lemma UnregisterKeepsShape<K>(index: map<K, seq<InteractiveNode>>, keys: seq<K>, b: InteractiveNode)
    requires IndexShape(index)
    ensures IndexShape(RemoveFromBuckets(index, keys, b))
  {
    var index' := RemoveFromBuckets(index, keys, b);
    RemoveFromBucketsNoEmpty(index, keys, b);
    forall g | g in index'
      ensures NoDup(index'[g])
    {
      RemoveFromBucketsAt(index, keys, b, g);
    }
  }

  lemma UnregisterKeepsSound<K>(registry: map<string, AnyNode>, index: map<K, seq<InteractiveNode>>,
                                keysOf: InteractiveNode -> seq<K>, b: InteractiveNode)
    requires IndexSound(registry, index, keysOf)
    requires RegisteredIn(registry, b)
    ensures IndexSound(registry - {b.data.id}, RemoveFromBuckets(index, keysOf(b), b), keysOf)
  {
    var index' := RemoveFromBuckets(index, keysOf(b), b);
    forall g, n | g in index' && n in index'[g]
      ensures Belongs(registry - {b.data.id}, keysOf, g, n)
    {
      UnregisterSoundAt(registry, index, keysOf, b, g, n);
    }
  }

  lemma UnregisterKeepsComplete<K>(registry: map<string, AnyNode>, index: map<K, seq<InteractiveNode>>,
                                   keysOf: InteractiveNode -> seq<K>, b: InteractiveNode)
    requires KeyedRegistry(registry) && IndexComplete(registry, index, keysOf)
    requires RegisteredIn(registry, b)
    ensures IndexComplete(registry - {b.data.id}, RemoveFromBuckets(index, keysOf(b), b), keysOf)
  {
    var registry' := registry - {b.data.id};
    forall k, g | k in registry' && g in keysOf(registry'[k].base)
      ensures registry'[k].base in Bucket(RemoveFromBuckets(index, keysOf(b), b), g)
    {
      UnregisterCompleteAt(registry, index, keysOf, b, k, g);
    }
  }

  lemma UnregisterSoundAt<K>(registry: map<string, AnyNode>, index: map<K, seq<InteractiveNode>>,
                             keysOf: InteractiveNode -> seq<K>, b: InteractiveNode, g: K, n: InteractiveNode)
    requires IndexSound(registry, index, keysOf)
    requires RegisteredIn(registry, b)
    requires var index' := RemoveFromBuckets(index, keysOf(b), b); Listed(index', g, n)
    ensures Belongs(registry - {b.data.id}, keysOf, g, n)
  {
    RemoveFromBucketsAt(index, keysOf(b), b, g);
    assert n != b;
    assert Listed(index, g, n);
  }

  lemma UnregisterCompleteAt<K>(registry: map<string, AnyNode>, index: map<K, seq<InteractiveNode>>,
                                keysOf: InteractiveNode -> seq<K>, b: InteractiveNode, k: string, g: K)
    requires KeyedRegistry(registry) && IndexComplete(registry, index, keysOf)
    requires RegisteredIn(registry, b)
    requires var registry' := registry - {b.data.id}; HasKey(registry', keysOf, k, g)
    ensures (registry - {b.data.id})[k].base in Bucket(RemoveFromBuckets(index, keysOf(b), b), g)
  {
    RemoveFromBucketsAt(index, keysOf(b), b, g);
    assert registry[k].base.data.id == k;
    assert HasKey(registry, keysOf, k, g);
  }

  /**
   * Registering a node and unregistering it again gives back the registry
   * and an index exactly as they were.
   */
  lemma RegisterUnregisterRoundTrip<K>(registry: map<string, AnyNode>, index: map<K, seq<InteractiveNode>>,
                                       keysOf: InteractiveNode -> seq<K>, x: AnyNode)
    requires IndexOk(registry, index, keysOf)
    requires x.base.data.id !in registry
    ensures registry[x.base.data.id := x] - {x.base.data.id} == registry
    ensures RemoveFromBuckets(AddToBuckets(index, keysOf(x.base), x.base), keysOf(x.base), x.base) == index
  {
    var b := x.base;
    forall g | g in keysOf(b)
      ensures b !in Bucket(index, g)
    {
      assert !Listed(index, g, b);
    }
    AddThenRemoveBuckets(index, keysOf(b), b);
  }

  /**
   * The connection index after `c` is appended to the bucket of its
   * source's id and, when `both`, to the bucket of its target's id.
   */
  function Filed(connections: map<string, seq<NodeConnection>>, c: NodeConnection, both: bool): (r: map<string, seq<NodeConnection>>)
    ensures forall k :: k in connections ==> connections[k] <= Bucket(r, k)
    ensures c in Bucket(r, EndpointId(c.source))
    ensures both ==> c in Bucket(r, EndpointId(c.target))
  {
    var m := AppendToBucket(connections, EndpointId(c.source), c);
    if both then AppendToBucket(m, EndpointId(c.target), c) else m
  }

  /** Filing a new connection under its endpoints keeps the connection index right. */
  lemma AddConnectionKeepsIndex(connections: map<string, seq<NodeConnection>>, c: NodeConnection, both: bool)
    requires ConnIndexOk(connections)
    requires c.source != null && c.target != null && c.source != c.target
    requires both || c.target.data.id == c.source.data.id
    ensures ConnIndexOk(Filed(connections, c, both))
  {
    var m := AppendToBucket(connections, c.source.data.id, c);
    var r := if both then AppendToBucket(m, c.target.data.id, c) else m;
    forall k, d: NodeConnection | k in r && d in r[k]
      ensures EntryOk(r, k, d)
    {
      AddConnectionAt(connections, c, both, k, d);
    }
  }

  lemma AddConnectionAt(connections: map<string, seq<NodeConnection>>, c: NodeConnection, both: bool,
                        k: string, d: NodeConnection)
    requires ConnIndexOk(connections)
    requires c.source != null && c.target != null && c.source != c.target
    requires both || c.target.data.id == c.source.data.id
    requires var m := AppendToBucket(connections, c.source.data.id, c);
      var r := if both then AppendToBucket(m, c.target.data.id, c) else m;
      Listed(r, k, d)
    ensures var m := AppendToBucket(connections, c.source.data.id, c);
      var r := if both then AppendToBucket(m, c.target.data.id, c) else m;
      EntryOk(r, k, d)
  {
    var s, t := c.source.data.id, c.target.data.id;
    var m := AppendToBucket(connections, s, c);
    var r := if both then AppendToBucket(m, t, c) else m;
    AppendedBucket(connections, s, c, k);
    if both {
      AppendedBucket(m, t, c, k);
    }
    if d != c {
      assert Listed(connections, k, d);
      assert FiledUnderBoth(connections, d);
      AppendedBucket(connections, s, c, d.source.data.id);
      AppendedBucket(connections, s, c, d.target.data.id);
      if both {
        AppendedBucket(m, t, c, d.source.data.id);
        AppendedBucket(m, t, c, d.target.data.id);
      }
    } else {
      if Listed(connections, k, c) {
        assert k == EndpointId(c.source) || k == EndpointId(c.target);
      }
      AppendedBucket(connections, s, c, t);
      if both {
        AppendedBucket(m, t, c, s);
      }
    }
  }

  /** Appending `c` under `j` keeps every bucket as a prefix and adds nothing but `c`. */
  lemma AppendedBucket(m: map<string, seq<NodeConnection>>, j: string, c: NodeConnection, k: string)
    ensures Bucket(m, k) <= Bucket(AppendToBucket(m, j, c), k)
    ensures forall d :: d in Bucket(AppendToBucket(m, j, c), k) ==> d == c || d in Bucket(m, k)
    ensures k == j ==> c in Bucket(AppendToBucket(m, j, c), k)
  {
  }

  /** Taking connections out of the index keeps it right. */
  lemma WithoutKeepsIndex(connections: map<string, seq<NodeConnection>>, gone: set<NodeConnection>)
    requires ConnIndexOk(connections)
    ensures ConnIndexOk(WithoutAll(connections, gone))
  {
    var r := WithoutAll(connections, gone);
    forall k, c: NodeConnection | k in r && c in r[k]
      ensures EntryOk(r, k, c)
    {
      WithoutAt(connections, gone, k, c);
    }
  }

  lemma WithoutAt(connections: map<string, seq<NodeConnection>>, gone: set<NodeConnection>, k: string, c: NodeConnection)
    requires ConnIndexOk(connections)
    requires Listed(WithoutAll(connections, gone), k, c)
    ensures var r := WithoutAll(connections, gone);
      EntryOk(r, k, c)
  {
    var r := WithoutAll(connections, gone);
    assert Listed(connections, k, c) && c !in gone;
    assert FiledUnderBoth(connections, c);
    var s, t := c.source.data.id, c.target.data.id;
    assert c in Without(connections[s], gone);
    assert c in Without(connections[t], gone);
  }

  /**
   * What a bucket of a right node index means: it holds each node once,
   * every node it holds is registered and has the bucket's key, and every
   * registered node with that key is in it.
   */
  lemma BucketMeans<K>(registry: map<string, AnyNode>, index: map<K, seq<InteractiveNode>>,
                       keysOf: InteractiveNode -> seq<K>, g: K)
    ensures IndexOk(registry, index, keysOf) ==>
      NoDup(Bucket(index, g)) &&
      (forall i :: 0 <= i < |Bucket(index, g)| ==> Belongs(registry, keysOf, g, Bucket(index, g)[i])) &&
      (forall k :: k in registry && g in keysOf(registry[k].base) ==> registry[k].base in Bucket(index, g))
  {
    if IndexOk(registry, index, keysOf) {
      var b := Bucket(index, g);
      forall i | 0 <= i < |b|
        ensures Belongs(registry, keysOf, g, b[i])
      {
        assert Listed(index, g, b[i]);
      }
      forall k | k in registry && g in keysOf(registry[k].base)
        ensures registry[k].base in b
      {
        assert HasKey(registry, keysOf, k, g);
      }
    }
  }

  /**
   * What a bucket of a right connection index means: it holds exactly the
   * indexed connections with an endpoint of that id.
   */
  lemma ConnBucketMeans(connections: map<string, seq<NodeConnection>>, id: string)
    ensures ConnIndexOk(connections) ==>
      (forall i :: 0 <= i < |Bucket(connections, id)| ==>
         id == EndpointId(Bucket(connections, id)[i].source) || id == EndpointId(Bucket(connections, id)[i].target)) &&
      (forall k: string, c: NodeConnection :: k in connections && c in connections[k] && (id == EndpointId(c.source) || id == EndpointId(c.target))
         ==> c in Bucket(connections, id))
  {
    if ConnIndexOk(connections) {
      var b := Bucket(connections, id);
      forall i | 0 <= i < |b|
        ensures id == EndpointId(b[i].source) || id == EndpointId(b[i].target)
      {
        assert Listed(connections, id, b[i]);
      }
      forall k: string, c: NodeConnection | k in connections && c in connections[k] && (id == EndpointId(c.source) || id == EndpointId(c.target))
        ensures c in b
      {
        assert Listed(connections, k, c);
      }
    }
  }

  /** Under a right index, a connection is listed only under the ids of its endpoints. */
  lemma FiledOnlyAtEndpoints(connections: map<string, seq<NodeConnection>>, c: NodeConnection)
    requires ConnIndexOk(connections)
    ensures forall k :: k in connections && c in connections[k] ==> k == EndpointId(c.source) || k == EndpointId(c.target)
  {
    forall k | k in connections && c in connections[k]
      ensures k == EndpointId(c.source) || k == EndpointId(c.target)
    {
      assert Listed(connections, k, c);
    }
  }

  /** Every connection of `list` is filed under the id of its source. */
  ghost predicate AllFiled(connections: map<string, seq<NodeConnection>>, list: seq<NodeConnection>)
  {
    forall i :: 0 <= i < |list| ==> list[i] in Bucket(connections, EndpointId(list[i].source))
  }

  /** Every connection of a list drawn from a filed list is filed too. */
  lemma AllFiledWithin(connections: map<string, seq<NodeConnection>>, list: seq<NodeConnection>, sub: seq<NodeConnection>)
    requires AllFiled(connections, list)
    requires forall i :: 0 <= i < |sub| ==> sub[i] in list
    ensures AllFiled(connections, sub)
  {
    forall i | 0 <= i < |sub|
      ensures sub[i] in Bucket(connections, EndpointId(sub[i].source))
    {
      var j :| 0 <= j < |list| && list[j] == sub[i];
    }
  }

  /** Under a right index, every bucket lists connections filed under their source. */
  lemma BucketFiled(connections: map<string, seq<NodeConnection>>, k: string)
    requires ConnIndexOk(connections)
    ensures AllFiled(connections, Bucket(connections, k))
  {
    var list := Bucket(connections, k);
    forall i | 0 <= i < |list|
      ensures list[i] in Bucket(connections, EndpointId(list[i].source))
    {
      assert Listed(connections, k, list[i]);
    }
  }

  /** Taking other connections out leaves `c` filed where it was. */
  lemma StillFiled(connections: map<string, seq<NodeConnection>>, gone: set<NodeConnection>, c: NodeConnection, k: string)
    requires c in Bucket(connections, k) && c !in gone
    ensures c in Bucket(WithoutAll(connections, gone), k)
  {
    assert c in Without(connections[k], gone);
  }

  /** In a list without repeats whose connections are all filed, a connection not yet taken out is still filed under its source. */
  lemma FiledStill(connections: map<string, seq<NodeConnection>>, list: seq<NodeConnection>, gone: set<NodeConnection>, i: nat)
    requires NoDup(list) && AllFiled(connections, list)
    requires i < |list| && gone == Elements(list[..i])
    ensures EndpointId(list[i].source) in WithoutAll(connections, gone)
  {
    var c := list[i];
    forall j | 0 <= j < i
      ensures list[..i][j] != c
    {
      assert list[..i][j] == list[j];
    }
    assert c !in list[..i];
    StillFiled(connections, gone, c, EndpointId(c.source));
  }

  /** Nothing is filed under `id` and no indexed connection has an endpoint with that id. */
  ghost predicate Untouched(connections: map<string, seq<NodeConnection>>, id: string)
  {
    id !in connections &&
    forall k, c: NodeConnection :: k in connections && c in connections[k] ==>
      EndpointId(c.source) != id && EndpointId(c.target) != id
  }

  /**
   * Once every connection filed under `id` is taken out of a right index,
   * no connection left in it has an endpoint with that id.
   */
  lemma WithoutBucketClears(connections: map<string, seq<NodeConnection>>, id: string)
    requires ConnIndexOk(connections)
    ensures Untouched(WithoutAll(connections, Elements(Bucket(connections, id))), id)
  {
    var gone := Elements(Bucket(connections, id));
    var r := WithoutAll(connections, gone);
    assert forall c :: c in Bucket(connections, id) ==> c in gone;
    forall k, c: NodeConnection | k in r && c in r[k]
      ensures EndpointId(c.source) != id && EndpointId(c.target) != id
    {
      ClearedAt(connections, id, gone, k, c);
    }
    WithoutOwnBucket(connections, id);
  }

  lemma ClearedAt(connections: map<string, seq<NodeConnection>>, id: string, gone: set<NodeConnection>,
                  k: string, c: NodeConnection)
    requires ConnIndexOk(connections)
    requires forall c :: c in Bucket(connections, id) ==> c in gone
    requires k in WithoutAll(connections, gone) && c in WithoutAll(connections, gone)[k]
    ensures EndpointId(c.source) != id && EndpointId(c.target) != id
  {
    assert Listed(connections, k, c) && c !in gone;
    assert FiledUnderBoth(connections, c);
  }

  /** Nothing registered, indexed or connected is a right state. */
  lemma EmptyIndicesOk()
    ensures NodeIndicesOk(map[], map[], map[], [])
    ensures ConnIndexOk(map[])
  {
  }
}
