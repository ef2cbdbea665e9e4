/**
 * The value side of the manager's self-check: which registry entries and
 * which indexed connections the engine no longer holds alive, and the
 * scans that collect them. Engine liveness is given as explicit sets of
 * live nodes and live connections.
 */
module Validation {
  import opened Util
  import opened Nodes
  import opened Connections
  import opened Buckets
  import opened GraphIndex

  /** The registry entries whose node is alive. */
  function LiveRegistry(registry: map<string, AnyNode>, live: set<InteractiveNode>): (r: map<string, AnyNode>)
  {
    map k | k in registry && registry[k].base in live :: registry[k]
  }

  /** Dropping dead entries keeps the registry keyed by node id and free of the empty id, and leaves only live nodes. */
  lemma LiveRegistryKeepsKeys(registry: map<string, AnyNode>, live: set<InteractiveNode>)
    requires "" !in registry && KeyedRegistry(registry)
    ensures "" !in LiveRegistry(registry, live) && KeyedRegistry(LiveRegistry(registry, live))
    ensures forall k :: k in LiveRegistry(registry, live) ==> LiveRegistry(registry, live)[k].base in live
    ensures forall k :: k in registry && registry[k].base in live ==> k in LiveRegistry(registry, live)
  {
  }

  /** When every node is alive, nothing is dropped. */
  lemma AllLiveRegistry(registry: map<string, AnyNode>, live: set<InteractiveNode>)
    requires forall k :: k in registry ==> registry[k].base in live
    ensures LiveRegistry(registry, live) == registry
  {
  }

  /** A connection the self-check removes: no longer alive, or not `IsValid` (an endpoint missing or inactive). */
  predicate Broken(c: NodeConnection, liveConns: set<NodeConnection>)
    reads c
  {
    c !in liveConns || !c.IsValid()
  }

  /** `c` is broken and listed in some bucket of the index. */
  ghost predicate BrokenListed(connections: map<string, seq<NodeConnection>>, c: NodeConnection, liveConns: set<NodeConnection>)
    reads c
  {
    Broken(c, liveConns) && exists k :: Listed(connections, k, c)
  }

  /** Some connection of `s` is alive. */
  predicate HasLive(s: seq<NodeConnection>, liveConns: set<NodeConnection>)
  {
    exists i :: 0 <= i < |s| && s[i] in liveConns
  }

  /** The buckets of the connection index that still hold a live connection. */
  function LiveBuckets(connections: map<string, seq<NodeConnection>>, liveConns: set<NodeConnection>): (r: map<string, seq<NodeConnection>>)
  {
    map k | k in connections && HasLive(connections[k], liveConns) :: connections[k]
  }

  /** With no empty bucket and every listed connection alive, no bucket is dropped. */
  lemma AllLiveBuckets(connections: map<string, seq<NodeConnection>>, liveConns: set<NodeConnection>)
    requires NoEmptyBucket(connections)
    requires forall k, c :: Listed(connections, k, c) ==> c in liveConns
    ensures LiveBuckets(connections, liveConns) == connections
  {
    forall k | k in connections
      ensures HasLive(connections[k], liveConns)
    {
      assert Listed(connections, k, connections[k][0]);
    }
  }

  /** A bucket without a live connection is dropped, and one with a live connection is kept. */
  lemma LiveBucketsMeans(connections: map<string, seq<NodeConnection>>, liveConns: set<NodeConnection>, k: string)
    requires k in connections
    ensures k in LiveBuckets(connections, liveConns) <==> exists c :: c in connections[k] && c in liveConns
  {
    if exists c :: c in connections[k] && c in liveConns {
      var c :| c in connections[k] && c in liveConns;
      var i :| 0 <= i < |connections[k]| && connections[k][i] == c;
      assert HasLive(connections[k], liveConns);
    }
  }

  /**
   * The first scan of `ValidateSystem`: the ids of the registry entries
   * whose node is no longer alive, each once.
   */
  method CollectDeadIds(registry: map<string, AnyNode>, live: set<InteractiveNode>) returns (dead: seq<string>)
    ensures NoDup(dead)
    ensures forall k :: k in dead <==> k in registry && registry[k].base !in live
  {
    dead := [];
    var todo := registry.Keys;
    while todo != {}
      invariant todo <= registry.Keys
      invariant NoDup(dead)
      invariant forall k :: k in dead <==> k in registry && k !in todo && registry[k].base !in live
      decreases todo
    {
      var k :| k in todo;
      if registry[k].base !in live {
        dead := dead + [k];
      }
      todo := todo - {k};
    }
  }

  /** Removing each key of `keys` in turn removes them all. */
  method RemoveKeys<V>(m: map<string, V>, keys: seq<string>) returns (r: map<string, V>)
    ensures r == m - Elements(keys)
  {
    r := m;
    var i := 0;
    while i < |keys|
      invariant 0 <= i <= |keys|
      invariant r == m - Elements(keys[..i])
    {
      var next := i + 1;
      ElementsStep(keys, i, next);
      r := r - {keys[i]};
      i := next;
    }
  }

  /**
   * The second scan of `ValidateSystem`: every broken connection listed in
   * any bucket of the index, each once.
   */
  method CollectBroken(connections: map<string, seq<NodeConnection>>, liveConns: set<NodeConnection>) returns (bad: seq<NodeConnection>)
    ensures NoDup(bad)
    ensures forall i :: 0 <= i < |bad| ==> BrokenListed(connections, bad[i], liveConns)
    ensures forall k, c :: Listed(connections, k, c) && Broken(c, liveConns) ==> c in bad
  {
    bad := [];
    var todo := connections.Keys;
    while todo != {}
      invariant todo <= connections.Keys
      invariant NoDup(bad)
      invariant forall i :: 0 <= i < |bad| ==> BrokenListed(connections, bad[i], liveConns)
      invariant forall k, c :: Listed(connections, k, c) && k !in todo && Broken(c, liveConns) ==> c in bad
      decreases todo
    {
      var k :| k in todo;
      bad := CollectBrokenIn(connections, k, liveConns, bad);
      todo := todo - {k};
    }
  }

  /** The inner loop of `CollectBroken`: the broken connections of bucket `k` are added to `bad`, each once. */
  method CollectBrokenIn(connections: map<string, seq<NodeConnection>>, k: string, liveConns: set<NodeConnection>,
                         bad: seq<NodeConnection>) returns (bad': seq<NodeConnection>)
    requires k in connections
    requires NoDup(bad)
    requires forall i :: 0 <= i < |bad| ==> BrokenListed(connections, bad[i], liveConns)
    ensures NoDup(bad')
    ensures forall c :: c in bad ==> c in bad'
    ensures forall i :: 0 <= i < |bad'| ==> BrokenListed(connections, bad'[i], liveConns)
    ensures forall c :: c in connections[k] && Broken(c, liveConns) ==> c in bad'
  {
    var bucket := connections[k];
    bad' := bad;
    var j := 0;
    while j < |bucket|
      invariant 0 <= j <= |bucket|
      invariant NoDup(bad')
      invariant forall c :: c in bad ==> c in bad'
      invariant forall i :: 0 <= i < |bad'| ==> BrokenListed(connections, bad'[i], liveConns)
      invariant forall i :: 0 <= i < j && Broken(bucket[i], liveConns) ==> bucket[i] in bad'
    {
      var c := bucket[j];
      if Broken(c, liveConns) {
        assert Listed(connections, k, c);
        bad' := AddUnique(bad', c);
      }
      j := j + 1;
    }
  }

  /** The first scan of `CleanupInvalidReferences`: the keys of the buckets holding no live connection. */
  method CollectLifelessBuckets(connections: map<string, seq<NodeConnection>>, liveConns: set<NodeConnection>) returns (keys: seq<string>)
    ensures forall k :: k in keys <==> k in connections && !HasLive(connections[k], liveConns)
  {
    keys := [];
    var todo := connections.Keys;
    while todo != {}
      invariant todo <= connections.Keys
      invariant forall k :: k in keys <==> k in connections && k !in todo && !HasLive(connections[k], liveConns)
      decreases todo
    {
      var k :| k in todo;
      var bucket := connections[k];
      var found := false;
      var j := 0;
      while j < |bucket| && !found
        invariant 0 <= j <= |bucket|
        invariant found <==> exists i :: 0 <= i < j && bucket[i] in liveConns
      {
        found := bucket[j] in liveConns;
        j := j + 1;
      }
      assert found <==> HasLive(bucket, liveConns);
      if !found {
        keys := keys + [k];
      }
      todo := todo - {k};
    }
  }

  /** One more removal: from the index and the active list, one value more taken out. */
  lemma RemovalStep(connections: map<string, seq<NodeConnection>>, active: seq<NodeConnection>,
                    gone: set<NodeConnection>, c: NodeConnection)
    ensures WithoutAll(WithoutAll(connections, gone), {c}) == WithoutAll(connections, gone + {c})
    ensures RemoveAll(Without(active, gone), c) == Without(active, gone + {c})
  {
    WithoutAllTwice(connections, gone, {c});
    RemoveAllIsWithout(Without(active, gone), c);
    WithoutTwice(active, gone, {c});
  }
}
