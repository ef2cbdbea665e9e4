/**
 * The spatial capability: a container of nodes bounded by a capacity,
 * joined to its owner by Parent connections, with per-node access
 * permissions and a teleport target.
 *
 * The manager calls are outside the capability: the Parent connection the
 * manager creates for a new child is passed in (`created`, null when the
 * manager is missing or refuses), and the connection a release asks the
 * manager to remove is handed back. A node's dynamic class is passed
 * alongside it.
 */
module SpatialCapabilities {
  import opened Util
  import opened Text
  import opened NodeTypes
  import opened Nodes
  import opened Connections
  import opened Items

  datatype Vector = Vector(x: real, y: real, z: real)

  /** `IsA` on node classes: every node is an interactive node, and each subclass is itself. */
  predicate ClassIsA(c: NodeClass, allowed: NodeClass)
  {
    allowed == InteractiveNodeClass || c == allowed
  }

  /** The configuration keys the spatial capability recognises. */
  datatype ConfigKey = MaxContainedKey | EntryKey | ExitKey | TeleportNodeKey | LightingKey | OtherKey

  /** How `ApplyConfigValue` reads a key: the five field names, compared ignoring case. */
  function ConfigKeyOf(key: string): ConfigKey
  {
    if EqualsIgnoreCase(key, "MaxContainedNodes") then MaxContainedKey
    else if EqualsIgnoreCase(key, "AllowsEntry") then EntryKey
    else if EqualsIgnoreCase(key, "AllowsExit") then ExitKey
    else if EqualsIgnoreCase(key, "TeleportTargetNode") then TeleportNodeKey
    else if EqualsIgnoreCase(key, "LightingRadius") then LightingKey
    else OtherKey
  }

  /** Every field name, in any case, selects its own field. */
  lemma ConfigKeysSelect(key: string)
    ensures EqualsIgnoreCase(key, "MaxContainedNodes") ==> ConfigKeyOf(key) == MaxContainedKey
    ensures EqualsIgnoreCase(key, "AllowsEntry") ==> ConfigKeyOf(key) == EntryKey
    ensures EqualsIgnoreCase(key, "AllowsExit") ==> ConfigKeyOf(key) == ExitKey
    ensures EqualsIgnoreCase(key, "TeleportTargetNode") ==> ConfigKeyOf(key) == TeleportNodeKey
    ensures EqualsIgnoreCase(key, "LightingRadius") ==> ConfigKeyOf(key) == LightingKey
  {
  }

  class SpatialCapability {
    const base: ItemCapability
    var canContainNodes: bool
    var maxContainedNodes: int
    /** The class a contained node must be; None stands for no class, which admits every node. */
    var allowedNodeClass: Option<NodeClass>
    var allowsEntry: bool
    var allowsExit: bool
    var teleportDestination: Vector
    var teleportToNode: bool
    var teleportTargetNodeId: string
    var lightingRadius: real
    var containedNodes: seq<InteractiveNode>
    var nodeConnectionMap: map<InteractiveNode, NodeConnection>
    var accessPermissions: map<string, bool>
    var spatialConfig: map<string, string>

    /** The contained list holds each node once, and the connection map has an entry exactly for the contained nodes. */
    ghost predicate Valid()
      reads this
    {
      NoDup(containedNodes) && (forall n :: n in nodeConnectionMap ==> n in containedNodes) &&
      (forall n :: n in containedNodes ==> n in nodeConnectionMap)
    }

    /** The defaults: a container of up to five interactive nodes, open both ways, no teleport target. */
    constructor()
      ensures fresh(base) && base.kind == Spatial && base.owner == null && !base.capabilityActive
      ensures base.currentCooldown == 0.0 && base.cooldownDuration == 0.0
      ensures canContainNodes && maxContainedNodes == DefaultMaxContainedNodes
      ensures allowedNodeClass == Some(InteractiveNodeClass) && allowsEntry && allowsExit
      ensures teleportDestination == Vector(0.0, 0.0, 0.0) && !teleportToNode && teleportTargetNodeId == ""
      ensures lightingRadius == 1000.0
      ensures containedNodes == [] && nodeConnectionMap == map[] && accessPermissions == map[] && spatialConfig == map[]
      ensures Valid()
    {
      base := new ItemCapability(Spatial);
      canContainNodes := true;
      maxContainedNodes := DefaultMaxContainedNodes;
      allowedNodeClass := Some(InteractiveNodeClass);
      allowsEntry := true;
      allowsExit := true;
      teleportDestination := Vector(0.0, 0.0, 0.0);
      teleportToNode := false;
      teleportTargetNodeId := "";
      lightingRadius := 1000.0;
      containedNodes := [];
      nodeConnectionMap := map[];
      accessPermissions := map[];
      spatialConfig := map[];
    }

    /** The class check shared by containment and entry. */
    predicate ClassAllowed(cls: NodeClass)
      reads this
    {
      allowedNodeClass.None? || ClassIsA(cls, allowedNodeClass.value)
    }

    /** Containment is switched on and the container is full. */
    predicate Full()
      reads this
    {
      canContainNodes && |containedNodes| >= maxContainedNodes
    }

    /** `CanUse`: the base gate, and not a full container. */
    predicate CanUse(d: InteractionData)
      reads this, base`capabilityActive, base`owner, base`currentCooldown
      reads if base.owner == null then {} else {base.owner.node}`state
    {
      base.CanUse(d) && !Full()
    }

    /**
     * `ValidateNodeForContainment`: a node of an allowed class, not the
     * owner itself, neither Hidden nor Locked.
     */
    predicate ValidateNodeForContainment(n: InteractiveNode?, cls: NodeClass)
      reads this, base`owner, if n == null then {} else {n}`state
    {
      n != null && ClassAllowed(cls) && (base.owner == null || n != base.owner.node) &&
      n.state != Hidden && n.state != Locked
    }

    /** `IsNodeContained`. */
    predicate IsNodeContained(n: InteractiveNode?)
      reads this
    {
      n != null && n in containedNodes
    }

    /**
     * `CanNodeEnter`: entry must be allowed; an explicit permission for
     * the node's id decides alone; otherwise the class must be allowed and
     * the container not full.
     */
    predicate CanNodeEnter(n: InteractiveNode?, cls: NodeClass)
      reads this
    {
      n != null && allowsEntry &&
      if n.data.id in accessPermissions then accessPermissions[n.data.id]
      else ClassAllowed(cls) && !Full()
    }

    /** `CanNodeExit`: any node may leave when exits are allowed, contained or not. */
    predicate CanNodeExit(n: InteractiveNode?)
      reads this
    {
      n != null && allowsExit
    }

    /**
     * `Use`: refused exactly when `CanUse` fails; otherwise the base use
     * runs, and the use succeeds only for a click by a player whom
     * `TeleportPlayer` moves (`teleported` is that call's result).
     */
    method Use(d: InteractionData, teleported: bool) returns (ok: bool)
      modifies base`currentCooldown
      ensures ok <==> old(CanUse(d)) && d.interactionType == Click && d.instigator.Some? && teleported
      ensures !old(CanUse(d)) ==> base.currentCooldown == old(base.currentCooldown)
    {
      if !CanUse(d) {
        return false;
      }
      var used := base.Use(d);
      ok := d.interactionType == Click && d.instigator.Some? && teleported;
    }

    /**
     * `ContainNode`: refused when containment is off, the node or the
     * owner is missing, the node is already inside, the container is full,
     * or the node fails validation; otherwise it succeeds exactly when the
     * manager created the Parent connection, and then the node is appended
     * and its connection recorded.
     */
    method ContainNode(n: InteractiveNode?, cls: NodeClass, created: NodeConnection?) returns (ok: bool)
      modifies `containedNodes, `nodeConnectionMap
      ensures ok <==> old(canContainNodes && n != null && base.owner != null && n !in containedNodes &&
                          |containedNodes| < maxContainedNodes && ValidateNodeForContainment(n, cls)) && created != null
      ensures ok ==> containedNodes == old(containedNodes) + [n] && nodeConnectionMap == old(nodeConnectionMap)[n := created]
      ensures ok ==> |containedNodes| <= maxContainedNodes && n != base.owner.node && n.state != Hidden && n.state != Locked
      ensures !ok ==> containedNodes == old(containedNodes) && nodeConnectionMap == old(nodeConnectionMap)
      ensures old(Valid()) ==> Valid()
    {
      if !canContainNodes || n == null || base.owner == null {
        return false;
      }
      if n in containedNodes {
        return false;
      }
      if |containedNodes| >= maxContainedNodes {
        return false;
      }
      if !ValidateNodeForContainment(n, cls) {
        return false;
      }
      if created != null {
        containedNodes := containedNodes + [n];
        nodeConnectionMap := nodeConnectionMap[n := created];
        return true;
      }
      return false;
    }

    /**
     * `ReleaseNode`: false for a missing or non-contained node; otherwise
     * the node leaves the list and the map, and, when there is an owner,
     * its recorded connection is the one the manager is asked to remove.
     */
    method ReleaseNode(n: InteractiveNode?) returns (ok: bool, dropped: NodeConnection?)
      modifies `containedNodes, `nodeConnectionMap
      ensures ok <==> old(IsNodeContained(n))
      ensures ok ==> containedNodes == RemoveAll(old(containedNodes), n) && nodeConnectionMap == old(nodeConnectionMap) - {n}
      ensures ok ==> dropped == if base.owner != null && n in old(nodeConnectionMap) then old(nodeConnectionMap)[n] else null
      ensures !ok ==> containedNodes == old(containedNodes) && nodeConnectionMap == old(nodeConnectionMap) && dropped == null
      ensures old(Valid()) ==> Valid()
    {
      if n == null || n !in containedNodes {
        return false, null;
      }
      dropped := if base.owner != null && n in nodeConnectionMap then nodeConnectionMap[n] else null;
      containedNodes := RemoveAll(containedNodes, n);
      nodeConnectionMap := nodeConnectionMap - {n};
      ok := true;
    }

    /**
     * `ReleaseAllNodes`: releases every node of a snapshot of the list.
     * The container ends empty, and the result is true exactly when no
     * node was listed twice (a repeated node's second release fails).
     */
    method ReleaseAllNodes() returns (ok: bool)
      modifies `containedNodes, `nodeConnectionMap
      ensures containedNodes == []
      ensures ok <==> NoDup(old(containedNodes))
      ensures forall n :: n in nodeConnectionMap <==> n in old(nodeConnectionMap) && n !in old(containedNodes)
      ensures old(Valid()) ==> ok && Valid() && nodeConnectionMap == map[]
    {
      var snapshot := containedNodes;
      ok := true;
      var i := 0;
      while i < |snapshot|
        invariant 0 <= i <= |snapshot|
        invariant forall n :: n in containedNodes <==> n in snapshot && n !in snapshot[..i]
        invariant forall n :: n in nodeConnectionMap <==> n in old(nodeConnectionMap) && n !in snapshot[..i]
        invariant ok <==> NoDup(snapshot[..i])
      {
        assert snapshot[..i + 1] == snapshot[..i] + [snapshot[i]];
        var released, _ := ReleaseNode(snapshot[i]);
        NoDupSnoc(snapshot[..i], snapshot[i]);
        ok := ok && released;
        i := i + 1;
      }
      assert snapshot[..i] == snapshot;
      HeadIsMember(containedNodes);
    }

    /** `OnContainedNodeDestroyed`: a destroyed contained node leaves the list and the map; any other is ignored. */
    method OnContainedNodeDestroyed(n: InteractiveNode?)
      modifies `containedNodes, `nodeConnectionMap
      ensures n != null && n in old(containedNodes) ==>
        containedNodes == RemoveAll(old(containedNodes), n) && nodeConnectionMap == old(nodeConnectionMap) - {n}
      ensures !(n != null && n in old(containedNodes)) ==>
        containedNodes == old(containedNodes) && nodeConnectionMap == old(nodeConnectionMap)
      ensures old(Valid()) ==> Valid()
    {
      if n != null && n in containedNodes {
        containedNodes := RemoveAll(containedNodes, n);
        nodeConnectionMap := nodeConnectionMap - {n};
      }
    }

    /** `SetNodeAccess`: an empty id is ignored; otherwise the id's permission is set. */
    method SetNodeAccess(id: string, allow: bool)
      modifies `accessPermissions
      ensures id == "" ==> accessPermissions == old(accessPermissions)
      ensures id != "" ==> accessPermissions == old(accessPermissions)[id := allow]
    {
      if id == "" {
        return;
      }
      accessPermissions := accessPermissions[id := allow];
    }

    /** `SetTeleportTarget`: a fixed destination, which switches off teleporting to a node. */
    method SetTeleportTarget(location: Vector)
      modifies `teleportDestination, `teleportToNode
      ensures teleportDestination == location && !teleportToNode
    {
      teleportDestination := location;
      teleportToNode := false;
    }

    /** `SetTeleportTargetNode`: teleport to the node with this id. */
    method SetTeleportTargetNode(id: string)
      modifies `teleportTargetNodeId, `teleportToNode
      ensures teleportTargetNodeId == id && teleportToNode
    {
      teleportTargetNodeId := id;
      teleportToNode := true;
    }

    /** `ApplyConfigValue`: a recognised key sets its field, and the raw pair is always kept. */
    method ApplyConfigValue(key: string, value: string)
      modifies `maxContainedNodes, `allowsEntry, `allowsExit, `teleportTargetNodeId, `teleportToNode
      modifies `lightingRadius, `spatialConfig
      ensures spatialConfig == old(spatialConfig)[key := value]
      ensures maxContainedNodes == if ConfigKeyOf(key) == MaxContainedKey then Atoi(value) else old(maxContainedNodes)
      ensures allowsEntry == if ConfigKeyOf(key) == EntryKey then ToBool(value) else old(allowsEntry)
      ensures allowsExit == if ConfigKeyOf(key) == ExitKey then ToBool(value) else old(allowsExit)
      ensures teleportTargetNodeId == if ConfigKeyOf(key) == TeleportNodeKey then value else old(teleportTargetNodeId)
      ensures teleportToNode == (ConfigKeyOf(key) == TeleportNodeKey || old(teleportToNode))
      ensures lightingRadius == if ConfigKeyOf(key) == LightingKey then Atof(value) else old(lightingRadius)
    {
      ApplyConfigKey(ConfigKeyOf(key), value);
      spatialConfig := spatialConfig[key := value];
    }

    /** The field update of `ApplyConfigValue` for an already classified key. */
    method ApplyConfigKey(k: ConfigKey, value: string)
      modifies `maxContainedNodes, `allowsEntry, `allowsExit, `teleportTargetNodeId, `teleportToNode, `lightingRadius
      ensures maxContainedNodes == if k == MaxContainedKey then Atoi(value) else old(maxContainedNodes)
      ensures allowsEntry == if k == EntryKey then ToBool(value) else old(allowsEntry)
      ensures allowsExit == if k == ExitKey then ToBool(value) else old(allowsExit)
      ensures teleportTargetNodeId == if k == TeleportNodeKey then value else old(teleportTargetNodeId)
      ensures teleportToNode == (k == TeleportNodeKey || old(teleportToNode))
      ensures lightingRadius == if k == LightingKey then Atof(value) else old(lightingRadius)
    {
      match k
      case MaxContainedKey => maxContainedNodes := Atoi(value);
      case EntryKey => allowsEntry := ToBool(value);
      case ExitKey => allowsExit := ToBool(value);
      case TeleportNodeKey => SetTeleportTargetNode(value);
      case LightingKey => lightingRadius := Atof(value);
      case OtherKey =>
    }
  }

  lemma HeadIsMember<T>(s: seq<T>)
    ensures s == [] || s[0] in s
  {
  }

  /** An explicit permission decides entry alone: neither the class nor the capacity is consulted. */
  lemma PermissionOverrides(c: SpatialCapability, n: InteractiveNode, cls: NodeClass)
    requires n.data.id in c.accessPermissions
    ensures c.CanNodeEnter(n, cls) <==> c.allowsEntry && c.accessPermissions[n.data.id]
  {
  }

  /** Without a permission, entry needs an allowed class and room, and containment never accepts the owner or a Hidden or Locked node. */
  lemma EntryAndContainmentRules(c: SpatialCapability, n: InteractiveNode, cls: NodeClass)
    ensures n.data.id !in c.accessPermissions ==> (c.CanNodeEnter(n, cls) <==> c.allowsEntry && c.ClassAllowed(cls) && !c.Full())
    ensures c.base.owner != null && n == c.base.owner.node ==> !c.ValidateNodeForContainment(n, cls)
    ensures n.state in {Hidden, Locked} ==> !c.ValidateNodeForContainment(n, cls)
    ensures c.allowedNodeClass == Some(SceneNodeClass) && cls != SceneNodeClass ==> !c.ValidateNodeForContainment(n, cls)
  {
  }
}
