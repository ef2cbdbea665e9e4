/**
 * A scene: an interactive node that owns a list of child nodes, indexes
 * them by id, switches them on and off with the scene, and completes when
 * every child has completed.
 */
module Scenes {
  import opened Util
  import opened NodeTypes
  import opened Nodes

  /** A child's state after the scene is activated: Inactive children become Active. */
  predicate ActivatedFrom(before: NodeState, after: NodeState)
  {
    after == (if before == Inactive then Active else before)
  }

  /** A child's state after the scene is deactivated: Active children become Inactive. */
  predicate DeactivatedFrom(before: NodeState, after: NodeState)
  {
    after == (if before == Active then Inactive else before)
  }

  /** Activation and deactivation undo each other on the two states they touch, and nothing else moves. */
  lemma ActivationRoundTrip(s: NodeState, a: NodeState, d: NodeState)
    requires ActivatedFrom(s, a) && DeactivatedFrom(a, d)
    ensures s == Inactive ==> d == Inactive
    ensures s == Active ==> d == Inactive
    ensures s !in {Inactive, Active} ==> a == s && d == s
  {
  }

  /** Every child is Completed (vacuously true without children). */
  predicate AllCompleted(nodes: seq<InteractiveNode>)
    reads set n | n in nodes
  {
    forall i :: 0 <= i < |nodes| ==> nodes[i].state == Completed
  }

  /** The number of generation specs that carry a node class, which are the only ones that spawn. */
  function SpawnableCount(specs: seq<NodeGenerateData>): (n: nat)
    ensures n <= |specs|
  {
    CountWhere(specs, (d: NodeGenerateData) => d.nodeClass.Some?)
  }

  class SceneNode {
    const node: InteractiveNode
    var children: seq<InteractiveNode>
    var childMap: map<string, InteractiveNode>
    var isActiveScene: bool
    var pendingSpawns: seq<NodeGenerateData>
    var storyChapterId: string

    /**
     * Children are listed once each; every id-map entry names a listed
     * child under that child's own id. (Two children may share an id, so a
     * child need not be in the map.)
     */
    ghost predicate Valid()
      reads this
    {
      NoDup(children) &&
      forall k :: k in childMap ==> childMap[k] in children && childMap[k].data.id == k
    }

    /**
     * Spawning a scene and initialising it with `d`: no children, not the
     * active scene; an Active initial state runs the scene's state hook,
     * which activates the scene.
     */
    constructor(d: NodeData)
      ensures Valid() && fresh(node) && node.Valid()
      ensures node.data == d && node.state == d.initialState
      ensures children == [] && childMap == map[] && pendingSpawns == [] && storyChapterId == ""
      ensures isActiveScene <==> d.initialState == Active
    {
      node := new InteractiveNode(d);
      children := [];
      childMap := map[];
      isActiveScene := false;
      pendingSpawns := [];
      storyChapterId := "";
      new;
      if node.state == Active {
        ActivateScene();
      }
    }

    /** `GetChildNode`: the child mapped under `id`, or null. */
    function GetChildNode(id: string): (r: InteractiveNode?)
      reads this
      requires Valid()
      ensures r != null ==> r in children && r.data.id == id
      ensures r == null <==> id !in childMap
    {
      if id in childMap then childMap[id] else null
    }

    function GetChildNodesByType(t: NodeType): (r: seq<InteractiveNode>)
      reads this
      ensures forall i :: 0 <= i < |r| ==> r[i] in children && r[i].data.nodeType == t
      ensures forall i :: 0 <= i < |children| && children[i].data.nodeType == t ==> children[i] in r
    {
      NodesOfType(children, t)
    }

    function GetChildNodesByState(s: NodeState): (r: seq<InteractiveNode>)
      reads this, set n | n in children
      ensures forall i :: 0 <= i < |r| ==> r[i] in children && r[i].state == s
      ensures forall i :: 0 <= i < |children| && children[i].state == s ==> children[i] in r
    {
      NodesInState(children, s)
    }

    /**
     * `AddChildNode`: a node already listed is ignored; otherwise it is
     * appended and mapped under its id, and in an active scene an Inactive
     * newcomer is made Active.
     */
    method AddChildNode(n: InteractiveNode?)
      requires Valid()
      modifies this, (if n == null then {} else {n})`state, (if n == null then {} else {n})`stateChanges
      ensures Valid()
      ensures n == null || n in old(children) ==> children == old(children) && childMap == old(childMap)
      ensures n != null && n !in old(children) ==>
        children == old(children) + [n] && childMap == old(childMap)[n.data.id := n]
      ensures n != null && n !in old(children) && isActiveScene && old(n.state) == Inactive ==> n.state == Active
      ensures n != null && !(n !in old(children) && isActiveScene && old(n.state) == Inactive) ==> n.state == old(n.state)
      ensures isActiveScene == old(isActiveScene) && pendingSpawns == old(pendingSpawns) && storyChapterId == old(storyChapterId)
    {
      if n == null || n in children {
        return;
      }
      children := children + [n];
      childMap := childMap[n.data.id := n];
      if isActiveScene {
        if n.state == Inactive {
          n.SetNodeState(Active);
        }
      }
    }

    /**
     * `RemoveChildNode`: non-members are ignored; otherwise the child leaves
     * the list and its id leaves the map.
     */
    method RemoveChildNode(n: InteractiveNode?)
      requires Valid()
      modifies this
      ensures Valid()
      ensures n == null || n !in old(children) ==> children == old(children) && childMap == old(childMap)
      ensures n != null && n in old(children) ==>
        children == RemoveAll(old(children), n) && childMap == old(childMap) - {n.data.id}
      ensures n != null && n in old(children) ==> n !in children && |children| == |old(children)| - 1
      ensures isActiveScene == old(isActiveScene) && pendingSpawns == old(pendingSpawns) && storyChapterId == old(storyChapterId)
    {
      if n == null || n !in children {
        return;
      }
      childMap := childMap - {n.data.id};
      children := RemoveAll(children, n);
    }

    /** `RemoveChildNodeByID`: removes the child mapped under `id`, if any. */
    method RemoveChildNodeByID(id: string)
      requires Valid()
      modifies this
      ensures Valid()
      ensures id !in old(childMap) ==> children == old(children) && childMap == old(childMap)
      ensures id in old(childMap) ==> old(childMap)[id] !in children && id !in childMap
      ensures id in old(childMap) ==> |children| == |old(children)| - 1
      ensures forall c :: c in children ==> c in old(children)
      ensures isActiveScene == old(isActiveScene) && pendingSpawns == old(pendingSpawns) && storyChapterId == old(storyChapterId)
    {
      if id in childMap {
        var n := childMap[id];
        RemoveChildNode(n);
      }
    }

    /**
     * `UpdateChildrenStates`: in an active scene every Inactive child other
     * than the scene itself becomes Active; other states are untouched.
     */
    method UpdateChildrenStates()
      requires Valid()
      modifies (set c | c in children)`state, (set c | c in children)`stateChanges
      ensures forall c :: c in children && c != node && isActiveScene ==> ActivatedFrom(old(c.state), c.state)
      ensures forall c :: c in children && c != node && !isActiveScene ==> c.state == old(c.state)
      ensures node.state == old(node.state) || (node in children && old(node.state) == Inactive && node.state == Active)
      ensures node.interactions == old(node.interactions)
    {
      if !isActiveScene {
        return;
      }
      var i := 0;
      while i < |children|
        invariant 0 <= i <= |children|
        invariant forall j :: 0 <= j < i ==> ActivatedFrom(old(children[j].state), children[j].state)
        invariant forall j :: i <= j < |children| ==> children[j].state == old(children[j].state)
        invariant node.state == old(node.state) || (node in children && old(node.state) == Inactive && node.state == Active)
        invariant node.interactions == old(node.interactions)
      {
        var c := children[i];
        if c.state == Inactive {
          c.SetNodeState(Active);
        }
        i := i + 1;
      }
    }

    /**
     * `ActivateScene`: idempotent. The flag is raised before the scene's own
     * state is set to Active, so the state hook does not re-enter; then the
     * Inactive children are switched on.
     */
    method ActivateScene()
      requires Valid()
      modifies this, node`state, node`stateChanges, (set c | c in children)`state, (set c | c in children)`stateChanges
      decreases if isActiveScene then 0 else 2
      ensures Valid() && isActiveScene
      ensures children == old(children) && childMap == old(childMap)
      ensures pendingSpawns == old(pendingSpawns) && storyChapterId == old(storyChapterId)
      ensures old(isActiveScene) ==> node.state == old(node.state)
      ensures old(isActiveScene) ==> forall c :: c in children ==> c.state == old(c.state)
      ensures !old(isActiveScene) ==> node.state == Active
      ensures !old(isActiveScene) ==> forall c :: c in children && c != node ==> ActivatedFrom(old(c.state), c.state)
      ensures node.interactions == old(node.interactions)
    {
      if isActiveScene {
        return;
      }
      isActiveScene := true;
      SetSceneState(Active);
      UpdateChildrenStates();
    }

    /**
     * `DeactivateScene`: idempotent. It lowers the flag and turns Active
     * children Inactive; the scene's own state is not changed (unless the
     * scene lists itself as a child).
     */
    method DeactivateScene()
      requires Valid()
      modifies this, (set c | c in children)`state, (set c | c in children)`stateChanges
      ensures Valid() && !isActiveScene
      ensures children == old(children) && childMap == old(childMap)
      ensures pendingSpawns == old(pendingSpawns) && storyChapterId == old(storyChapterId)
      ensures !old(isActiveScene) ==> forall c :: c in children ==> c.state == old(c.state)
      ensures old(isActiveScene) ==> forall c :: c in children ==> DeactivatedFrom(old(c.state), c.state)
      ensures node !in children ==> node.state == old(node.state)
      ensures node.interactions == old(node.interactions)
    {
      if !isActiveScene {
        return;
      }
      isActiveScene := false;
      var i := 0;
      while i < |children|
        invariant 0 <= i <= |children|
        invariant children == old(children) && childMap == old(childMap) && !isActiveScene
        invariant pendingSpawns == old(pendingSpawns) && storyChapterId == old(storyChapterId)
        invariant node.interactions == old(node.interactions)
        invariant forall j :: 0 <= j < i ==> DeactivatedFrom(old(children[j].state), children[j].state)
        invariant forall j :: i <= j < |children| ==> children[j].state == old(children[j].state)
        invariant node !in children ==> node.state == old(node.state)
      {
        var c := children[i];
        if c.state == Active {
          c.SetNodeState(Inactive);
        }
        i := i + 1;
      }
    }

    /**
     * The scene's state setter: the node's setter followed by the scene's
     * `OnStateChanged` hook, which activates the scene on Active and
     * deactivates it on Inactive or Locked.
     */
    method SetSceneState(s: NodeState)
      requires Valid()
      modifies this, node`state, node`stateChanges, (set c | c in children)`state, (set c | c in children)`stateChanges
      decreases if isActiveScene then 1 else 3
      ensures Valid() && node.state == s
      ensures children == old(children) && childMap == old(childMap)
      ensures pendingSpawns == old(pendingSpawns) && storyChapterId == old(storyChapterId)
      ensures old(node.state) != s && s == Active && !old(isActiveScene) ==>
        isActiveScene && forall c :: c in children && c != node ==> ActivatedFrom(old(c.state), c.state)
      ensures old(node.state) != s && s in {Inactive, Locked} && old(isActiveScene) ==>
        !isActiveScene && forall c :: c in children && c != node ==> DeactivatedFrom(old(c.state), c.state)
      ensures !(old(node.state) != s && s == Active && !old(isActiveScene)) &&
              !(old(node.state) != s && s in {Inactive, Locked} && old(isActiveScene)) ==>
        isActiveScene == old(isActiveScene) && forall c :: c in children && c != node ==> c.state == old(c.state)
      ensures node.interactions == old(node.interactions)
    {
      if node.state == s {
        return;
      }
      node.SetNodeState(s);
      if s == Active {
        if !isActiveScene {
          ActivateScene();
        }
      } else if s == Inactive || s == Locked {
        if isActiveScene {
          DeactivateScene();
        }
      }
    }

    /**
     * A child's state-change notification: when a child completes and every
     * child is now Completed, the scene completes, unless it already has.
     */
    method OnChildNodeStateChanged(child: InteractiveNode?, s: NodeState)
      requires Valid()
      modifies this, node`state, node`stateChanges, (set c | c in children)`state, (set c | c in children)`stateChanges
      ensures Valid() && children == old(children) && childMap == old(childMap) && isActiveScene == old(isActiveScene)
      ensures child != null && s == Completed && old(AllCompleted(children)) ==> node.state == Completed
      ensures !(child != null && s == Completed && old(AllCompleted(children))) ==> node.state == old(node.state)
      ensures forall c :: c in children && c != node ==> c.state == old(c.state)
    {
      if child == null {
        return;
      }
      if s == Completed {
        var allCompleted := true;
        var i := 0;
        while i < |children|
          invariant 0 <= i <= |children|
          invariant allCompleted <==> forall j :: 0 <= j < i ==> children[j].state == Completed
        {
          if children[i].state != Completed {
            allCompleted := false;
            break;
          }
          i := i + 1;
        }
        if allCompleted && node.state != Completed {
          SetSceneState(Completed);
        }
      }
    }

    /** A child's story trigger: each of its event ids is added to the scene's own list. */
    method OnChildNodeStoryTriggered(child: InteractiveNode?, events: seq<string>)
      requires node.Valid()
      modifies node
      ensures node.Valid() && node.state == old(node.state)
      ensures child == null ==> node.triggerEvents == old(node.triggerEvents)
      ensures child != null ==> forall e :: e in events && e != "" ==> e in node.triggerEvents
      ensures forall e :: e in old(node.triggerEvents) ==> e in node.triggerEvents
      ensures forall e :: e in node.triggerEvents ==> e in old(node.triggerEvents) || e in events
    {
      if child == null {
        return;
      }
      var i := 0;
      while i < |events|
        invariant 0 <= i <= |events|
        invariant node.Valid() && node.state == old(node.state)
        invariant forall j :: 0 <= j < i && events[j] != "" ==> events[j] in node.triggerEvents
        invariant forall e :: e in old(node.triggerEvents) ==> e in node.triggerEvents
        invariant forall e :: e in node.triggerEvents ==> e in old(node.triggerEvents) || e in events[..i]
      {
        node.AddTriggerEvent(events[i]);
        i := i + 1;
      }
    }

    /**
     * The scene's `OnInteract`: a refused interaction does nothing; an
     * accepted one runs the node's interaction (a chapter id also raises a
     * story trigger) and then enters the scene if it is not active.
     */
    method OnInteract(d: InteractionData)
      requires Valid()
      modifies this, node, set c | c in children
      ensures Valid() && children == old(children)
      ensures !old(node.CanInteract(d)) ==> node.interactions == old(node.interactions) && isActiveScene == old(isActiveScene)
      ensures old(node.CanInteract(d)) ==> isActiveScene
      ensures old(node.CanInteract(d)) && node !in children ==> node.interactions == old(node.interactions) + [d]
    {
      if !node.CanInteract(d) {
        return;
      }
      node.OnInteract(d, storyChapterId != "");
      if !isActiveScene {
        ActivateScene();
      }
    }

    method QueueNodeSpawn(d: NodeGenerateData)
      modifies this
      ensures pendingSpawns == old(pendingSpawns) + [d]
      ensures children == old(children) && childMap == old(childMap) && isActiveScene == old(isActiveScene)
    {
      pendingSpawns := pendingSpawns + [d];
    }

    /**
     * `ProcessPendingSpawns`: the pending list is emptied first, then every
     * spec of the snapshot that names a node class spawns a fresh node that
     * is added as a child; specs without a class spawn nothing.
     */
    method ProcessPendingSpawns()
      requires Valid()
      modifies this
      ensures Valid() && pendingSpawns == []
      ensures |children| == |old(children)| + SpawnableCount(old(pendingSpawns))
      ensures children[..|old(children)|] == old(children)
      ensures forall i :: |old(children)| <= i < |children| ==> fresh(children[i])
      ensures isActiveScene == old(isActiveScene)
    {
      var specs := pendingSpawns;
      pendingSpawns := [];
      var i := 0;
      while i < |specs|
        invariant 0 <= i <= |specs|
        invariant Valid() && pendingSpawns == [] && isActiveScene == old(isActiveScene)
        invariant |children| == |old(children)| + SpawnableCount(specs[..i])
        invariant children[..|old(children)|] == old(children)
        invariant forall j :: |old(children)| <= j < |children| ==> fresh(children[j])
      {
        var next := i + 1;
        assert specs[..next] == specs[..i] + [specs[i]];
        CountAppend(specs[..i], [specs[i]], (d: NodeGenerateData) => d.nodeClass.Some?);
        if specs[i].nodeClass.Some? {
          var n := new InteractiveNode(specs[i].nodeData);
          AddChildNode(n);
        }
        i := next;
      }
      assert specs[..i] == specs;
    }
  }
}
