/**
 * An item: an interactive node carrying a list of capabilities (with a
 * class-to-instance cache), story ids it unlocks on completion and node
 * specs it may spawn under a condition; and the shared base of every
 * capability: an activation switch, an owner and a cooldown gate.
 *
 * A capability class is identified by its `CapabilityType`; the kind
 * `NoCapability` stands for the base capability class itself, of which
 * every capability is an instance. An absent class is `None`.
 *
 * A capability carries two independent switches: its own
 * `capabilityActive` (the one `CanUse` looks at) and the engine
 * component's `engineActive` (the one the item's state hook drives).
 */
module Items {
  import opened Util
  import opened NodeTypes
  import opened Nodes

  /** The class name of a capability kind, which is also a new capability's id. */
  function CapabilityClassName(k: CapabilityType): (r: string)
    ensures |r| > 10
  {
    match k
    case NoCapability => "ItemCapability"
    case Spatial => "SpatialCapability"
    case State => "StateCapability"
    case Interactive => "InteractiveCapability"
    case Narrative => "NarrativeCapability"
    case System => "SystemCapability"
    case Numerical => "NumericalCapability"
  }

  /** `IsA`: a capability of kind `k` is an instance of class `cls`. */
  predicate IsA(k: CapabilityType, cls: CapabilityType)
  {
    cls == NoCapability || k == cls
  }

  /** The trigger event an item raises when one of its capabilities is used. */
  function CapabilityUsedEvent(capabilityId: string): (r: string)
    ensures |r| == 15 + |capabilityId| && r[..15] == "CapabilityUsed_" && r[15..] == capabilityId
  {
    "CapabilityUsed_" + capabilityId
  }

  /** The trigger event a completed item raises for each story id it unlocks. */
  function UnlockStoryEvent(storyId: string): (r: string)
    ensures |r| == 12 + |storyId| && r[..12] == "UnlockStory_" && r[12..] == storyId
  {
    "UnlockStory_" + storyId
  }

  /** The `UnlockStory_` event of each story id, in order. */
  function UnlockStoryEvents(storyIds: seq<string>): (r: seq<string>)
    ensures |r| == |storyIds|
    ensures forall k :: 0 <= k < |storyIds| ==> r[k] == UnlockStoryEvent(storyIds[k])
  {
    if storyIds == [] then [] else UnlockStoryEvents(storyIds[..|storyIds| - 1]) + [UnlockStoryEvent(storyIds[|storyIds| - 1])]
  }

  lemma UnlockStoryEventsStep(storyIds: seq<string>, k: nat)
    requires k < |storyIds|
    ensures UnlockStoryEvents(storyIds[..k + 1]) == UnlockStoryEvents(storyIds[..k]) + [UnlockStoryEvent(storyIds[k])]
  {
    assert storyIds[..k + 1][..k] == storyIds[..k];
  }

  /** The number of `true` entries. */
  function CountTrue(flags: seq<bool>): (n: nat)
    ensures n <= |flags|
  {
    if flags == [] then 0 else (if flags[0] then 1 else 0) + CountTrue(flags[1..])
  }

  /** The count is zero exactly when no entry is `true`. */
  lemma {:induction false} CountTrueZero(flags: seq<bool>)
    ensures CountTrue(flags) == 0 <==> forall i :: 0 <= i < |flags| ==> !flags[i]
  {
    if flags != [] {
      CountTrueZero(flags[1..]);
      assert forall i :: 1 <= i < |flags| ==> flags[i] == flags[1..][i - 1];
    }
  }

  lemma CountTrueAppend(a: seq<bool>, b: seq<bool>)
    ensures CountTrue(a + b) == CountTrue(a) + CountTrue(b)
  {
    if a == [] {
      assert a + b == b;
    } else {
      assert (a + b)[1..] == a[1..] + b;
      CountTrueAppend(a[1..], b);
    }
  }

  /** The keys of an association list (a map that keeps insertion order). */
  function Keys<V>(entries: seq<(string, V)>): (r: seq<string>)
    ensures |r| == |entries|
    ensures forall i :: 0 <= i < |r| ==> r[i] == entries[i].0
  {
    if entries == [] then [] else [entries[0].0] + Keys(entries[1..])
  }

  /** The value under `k`, if any. */
  function Lookup<V>(entries: seq<(string, V)>, k: string): (r: Option<V>)
    ensures r.None? <==> k !in Keys(entries)
    ensures r.Some? ==> (k, r.value) in entries
  {
    if entries == [] then None
    else if entries[0].0 == k then Some(entries[0].1)
    else Lookup(entries[1..], k)
  }

  /**
   * `TMap::Add` on an insertion-ordered map: an existing key keeps its
   * place and takes the new value, a new key goes at the end.
   */
  function Put<V>(entries: seq<(string, V)>, k: string, v: V): (r: seq<(string, V)>)
    ensures k in Keys(entries) ==> |r| == |entries|
    ensures k !in Keys(entries) ==> r == entries + [(k, v)]
  {
    if entries == [] then [(k, v)]
    else if entries[0].0 == k then [(k, v)] + entries[1..]
    else [entries[0]] + Put(entries[1..], k, v)
  }

  /** After `Put`, the key reads back the new value. */
  lemma {:induction false} PutLookupSame<V>(entries: seq<(string, V)>, k: string, v: V)
    ensures Lookup(Put(entries, k, v), k) == Some(v)
  {
    if entries != [] && entries[0].0 != k {
      PutLookupSame(entries[1..], k, v);
      assert Put(entries, k, v)[1..] == Put(entries[1..], k, v);
    }
  }

  /** After `Put`, every other key reads as before. */
  lemma {:induction false} PutLookupOther<V>(entries: seq<(string, V)>, k: string, v: V, k': string)
    requires k' != k
    ensures Lookup(Put(entries, k, v), k') == Lookup(entries, k')
  {
    if entries != [] && entries[0].0 != k {
      PutLookupOther(entries[1..], k, v, k');
      assert Put(entries, k, v)[1..] == Put(entries[1..], k, v);
    } else if entries != [] {
      assert Put(entries, k, v)[1..] == entries[1..];
    }
  }

  /** `Put` keeps the key list, adding the key at the end when it is new. */
  lemma {:induction false} PutKeys<V>(entries: seq<(string, V)>, k: string, v: V)
    ensures Keys(Put(entries, k, v)) == if k in Keys(entries) then Keys(entries) else Keys(entries) + [k]
  {
    if entries != [] && entries[0].0 != k {
      PutKeys(entries[1..], k, v);
      assert Keys(entries) == [entries[0].0] + Keys(entries[1..]);
      assert Keys(Put(entries, k, v)) == [entries[0].0] + Keys(Put(entries[1..], k, v));
    } else if entries != [] {
      assert Keys(Put(entries, k, v)) == [k] + Keys(entries[1..]);
    }
  }

  /** So keys stay distinct under `Put`. */
  lemma PutKeysDistinct<V>(entries: seq<(string, V)>, k: string, v: V)
    requires NoDup(Keys(entries))
    ensures NoDup(Keys(Put(entries, k, v)))
  {
    PutKeys(entries, k, v);
  }

  /** The values of an association list, in insertion order. */
  function Values<V>(entries: seq<(string, V)>): (r: seq<V>)
    ensures |r| == |entries|
    ensures forall i :: 0 <= i < |r| ==> r[i] == entries[i].1
  {
    if entries == [] then [] else [entries[0].1] + Values(entries[1..])
  }

  /** The first capability of `caps` that is an instance of `cls`. */
  function FirstOfClass(caps: seq<ItemCapability>, cls: CapabilityType): (r: ItemCapability?)
    ensures r == null <==> forall i :: 0 <= i < |caps| ==> !IsA(caps[i].kind, cls)
    ensures r != null ==> exists i :: 0 <= i < |caps| && caps[i] == r && IsA(r.kind, cls) &&
                                      forall j :: 0 <= j < i ==> !IsA(caps[j].kind, cls)
  {
    if caps == [] then null
    else if IsA(caps[0].kind, cls) then caps[0]
    else
      var r := FirstOfClass(caps[1..], cls);
      assert r != null ==> exists i :: 0 <= i < |caps| && caps[i] == r && IsA(r.kind, cls) &&
                                       forall j :: 0 <= j < i ==> !IsA(caps[j].kind, cls) by {
        if r != null {
          var i :| 0 <= i < |caps[1..]| && caps[1..][i] == r && IsA(r.kind, cls) &&
                   forall j :: 0 <= j < i ==> !IsA(caps[1..][j].kind, cls);
          assert caps[i + 1] == r;
          forall j | 0 <= j < i + 1
            ensures !IsA(caps[j].kind, cls)
          {
            if j > 0 {
              assert caps[j] == caps[1..][j - 1];
            }
          }
        }
      }
      r
  }

  /** The base capability: an activation switch, an owner and a cooldown gate. */
  class ItemCapability {
    const kind: CapabilityType
    var owner: ItemNode?
    var capabilityActive: bool
    var engineActive: bool
    var cooldownDuration: real
    var currentCooldown: real
    var capabilityId: string
    var usagePrompt: string

    /** The remaining cooldown is never negative. */
    ghost predicate Valid()
      reads this
    {
      currentCooldown >= 0.0
    }

    /** A new capability of class `k`: inactive, ownerless, no cooldown, id = its class name, prompt "Use". */
    constructor(k: CapabilityType)
      ensures kind == k && owner == null
      ensures !capabilityActive && !engineActive
      ensures cooldownDuration == 0.0 && currentCooldown == 0.0
      ensures capabilityId == CapabilityClassName(k) && usagePrompt == "Use"
      ensures Valid()
    {
      kind := k;
      owner := null;
      capabilityActive := false;
      engineActive := false;
      cooldownDuration := 0.0;
      currentCooldown := 0.0;
      capabilityId := CapabilityClassName(k);
      usagePrompt := "Use";
    }

    /** `Initialize`: attach to an owner (possibly none). */
    method Initialize(o: ItemNode?)
      modifies this
      ensures owner == o
      ensures capabilityActive == old(capabilityActive) && engineActive == old(engineActive)
      ensures cooldownDuration == old(cooldownDuration) && currentCooldown == old(currentCooldown)
      ensures capabilityId == old(capabilityId)
    {
      owner := o;
    }

    /** `CapabilityActivate`: already active stays so; without an owner it refuses. */
    method CapabilityActivate()
      modifies this
      ensures capabilityActive <==> old(capabilityActive) || owner != null
      ensures owner == old(owner) && engineActive == old(engineActive)
      ensures cooldownDuration == old(cooldownDuration) && currentCooldown == old(currentCooldown)
      ensures capabilityId == old(capabilityId)
    {
      if capabilityActive {
        return;
      }
      if owner == null {
        return;
      }
      capabilityActive := true;
    }

    /** `CapabilityDeactivate`: switching off an active capability clears its cooldown. */
    method CapabilityDeactivate()
      modifies this
      ensures !capabilityActive
      ensures old(capabilityActive) ==> currentCooldown == 0.0
      ensures !old(capabilityActive) ==> currentCooldown == old(currentCooldown)
      ensures old(Valid()) ==> Valid()
      ensures owner == old(owner) && engineActive == old(engineActive)
      ensures cooldownDuration == old(cooldownDuration) && capabilityId == old(capabilityId)
    {
      if !capabilityActive {
        return;
      }
      capabilityActive := false;
      ResetCooldown();
    }

    predicate OnCooldown()
      reads `currentCooldown
    {
      currentCooldown > 0.0
    }

    /**
     * `CanUse` of the base class: switched on, owned, the owner Active,
     * not on cooldown (the base prerequisites always hold).
     */
    predicate CanUse(d: InteractionData)
      reads `capabilityActive, `owner, `currentCooldown, if owner == null then {} else {owner.node}`state
    {
      capabilityActive && owner != null && owner.node.state == Active && !OnCooldown()
    }

    /** `Use`: refused exactly when `CanUse` fails; a use with a positive duration starts the cooldown. */
    method Use(d: InteractionData) returns (ok: bool)
      modifies `currentCooldown
      ensures ok == old(CanUse(d))
      ensures ok && cooldownDuration > 0.0 ==> currentCooldown == cooldownDuration && OnCooldown()
      ensures !(ok && cooldownDuration > 0.0) ==> currentCooldown == old(currentCooldown)
      ensures old(Valid()) ==> Valid()
    {
      if !CanUse(d) {
        return false;
      }
      if cooldownDuration > 0.0 {
        StartCooldown();
      }
      return true;
    }

    /** `StartCooldown`: a positive duration becomes the remaining cooldown. */
    method StartCooldown()
      modifies `currentCooldown
      ensures cooldownDuration > 0.0 ==> currentCooldown == cooldownDuration
      ensures cooldownDuration <= 0.0 ==> currentCooldown == old(currentCooldown)
      ensures old(Valid()) ==> Valid()
    {
      if cooldownDuration <= 0.0 {
        return;
      }
      currentCooldown := cooldownDuration;
    }

    /** `ResetCooldown`, also what the cooldown timer does when it fires. */
    method ResetCooldown()
      modifies `currentCooldown
      ensures currentCooldown == 0.0 && !OnCooldown() && Valid()
    {
      currentCooldown := 0.0;
    }

    /**
     * One tick of `dt` seconds: a running cooldown counts down and stops
     * at zero; it never goes negative and never grows for a non-negative
     * step.
     */
    method Tick(dt: real)
      modifies `currentCooldown
      ensures old(currentCooldown) > 0.0 ==> 0.0 <= currentCooldown
      ensures old(currentCooldown) > 0.0 && dt >= old(currentCooldown) ==> currentCooldown == 0.0
      ensures old(currentCooldown) > 0.0 && 0.0 <= dt < old(currentCooldown) ==> currentCooldown + dt == old(currentCooldown)
      ensures old(currentCooldown) <= 0.0 ==> currentCooldown == old(currentCooldown)
      ensures old(Valid()) ==> Valid()
    {
      if currentCooldown > 0.0 {
        currentCooldown := MaxR(0.0, currentCooldown - dt);
      }
    }

    /** `GetCooldownProgress`: 1 without a cooldown duration, otherwise the fraction already elapsed. */
    function CooldownProgress(): (r: real)
      reads this
      ensures cooldownDuration <= 0.0 ==> r == 1.0
      ensures cooldownDuration > 0.0 && 0.0 <= currentCooldown <= cooldownDuration ==> 0.0 <= r <= 1.0
      ensures cooldownDuration > 0.0 ==> (r == 1.0 <==> currentCooldown == 0.0)
      ensures cooldownDuration > 0.0 ==> (r == 0.0 <==> currentCooldown == cooldownDuration)
    {
      if cooldownDuration <= 0.0 then 1.0 else 1.0 - currentCooldown / cooldownDuration
    }

    /**
     * `OnOwnerStateChanged` of the base class. Only the engine switch
     * moves: an Active owner that auto-activates switches it on for a
     * capability whose own switch is off; an Inactive, Locked or Hidden
     * owner switches it off for a capability whose own switch is on;
     * Completed leaves it. The capability's own switch never changes.
     */
    method OnOwnerStateChanged(s: NodeState)
      modifies `engineActive
      ensures s == Active ==>
        (engineActive <==> old(engineActive) || (!capabilityActive && owner != null && owner.autoActivateCapabilities))
      ensures s in {Inactive, Locked, Hidden} ==> (engineActive <==> old(engineActive) && !capabilityActive)
      ensures s == Completed ==> engineActive == old(engineActive)
    {
      match s
      case Active =>
        if !capabilityActive && owner != null && owner.autoActivateCapabilities {
          engineActive := true;
        }
      case Inactive =>
        if capabilityActive {
          engineActive := false;
        }
      case Locked =>
        if capabilityActive {
          engineActive := false;
        }
      case Hidden =>
        if capabilityActive {
          engineActive := false;
        }
      case Completed =>
    }
  }

  /** The ids of `caps`, position by position. */
  ghost function CapabilityIds(caps: seq<ItemCapability>): (r: seq<string>)
    reads (set c | c in caps)`capabilityId
    ensures |r| == |caps|
    ensures forall i :: 0 <= i < |caps| ==> r[i] == caps[i].capabilityId
  {
    if caps == [] then [] else [caps[0].capabilityId] + CapabilityIds(caps[1..])
  }

  /** The `CapabilityUsed_` events raised for the capabilities flagged as used, in order. */
  function UsedEvents(ids: seq<string>, used: seq<bool>): (r: seq<string>)
    requires |ids| == |used|
  {
    if ids == [] then []
    else
      var n := |ids| - 1;
      UsedEvents(ids[..n], used[..n]) + (if used[n] then [CapabilityUsedEvent(ids[n])] else [])
  }

  /**
   * One event per capability flagged as used, and each flagged capability's
   * event is among them.
   */
  lemma {:induction false} UsedEventsListsUsed(ids: seq<string>, used: seq<bool>)
    requires |ids| == |used|
    ensures |UsedEvents(ids, used)| == CountTrue(used)
    ensures forall i :: 0 <= i < |ids| && used[i] ==> CapabilityUsedEvent(ids[i]) in UsedEvents(ids, used)
  {
    if ids != [] {
      var n := |ids| - 1;
      UsedEventsListsUsed(ids[..n], used[..n]);
      assert used == used[..n] + [used[n]];
      CountTrueAppend(used[..n], [used[n]]);
      forall i | 0 <= i < n && used[i]
        ensures CapabilityUsedEvent(ids[i]) in UsedEvents(ids, used)
      {
        assert ids[..n][i] == ids[i] && used[..n][i] == used[i];
      }
    }
  }

  lemma UsedEventsStep(ids: seq<string>, used: seq<bool>, n: nat)
    requires n < |ids| == |used|
    ensures UsedEvents(ids[..n + 1], used[..n + 1]) ==
      UsedEvents(ids[..n], used[..n]) + (if used[n] then [CapabilityUsedEvent(ids[n])] else [])
  {
    assert ids[..n + 1][..n] == ids[..n] && used[..n + 1][..n] == used[..n];
  }

  /** Whether each of `caps` may be used right now, position by position. */
  ghost function UsableFlags(caps: seq<ItemCapability>, d: InteractionData): (r: seq<bool>)
    reads (set c | c in caps)`capabilityActive, (set c | c in caps)`owner, (set c | c in caps)`currentCooldown
    reads (set c | c in caps && c.owner != null :: c.owner.node)`state
    ensures |r| == |caps|
    ensures forall i :: 0 <= i < |caps| ==> r[i] == caps[i].CanUse(d)
  {
    if caps == [] then [] else [caps[0].CanUse(d)] + UsableFlags(caps[1..], d)
  }

  class ItemNode {
    const node: InteractiveNode
    var capabilities: seq<ItemCapability>
    var capabilityMap: map<CapabilityType, ItemCapability>
    var carryable: bool
    var autoActivateCapabilities: bool
    var unlockStories: seq<string>
    var conditionalSpawns: seq<(string, NodeGenerateData)>

    /**
     * Capabilities are listed once each; every cache entry names a listed
     * capability of exactly that class; unlock-story ids are non-empty and
     * distinct; spawn conditions are distinct keys.
     */
    ghost predicate Valid()
      reads this, node
    {
      node.Valid() &&
      CacheConsistent() &&
      WellFormedEvents(unlockStories) &&
      NoDup(Keys(conditionalSpawns))
    }

    /** The capability list and its class cache agree. */
    ghost predicate CacheConsistent()
      reads this
    {
      NoDup(capabilities) &&
      forall k :: k in capabilityMap ==> capabilityMap[k] in capabilities && capabilityMap[k].kind == k
    }

    /** Spawning an item with data `d`: no capabilities, not carryable, auto-activation on. */
    constructor(d: NodeData)
      ensures Valid() && fresh(node)
      ensures node.data == d && node.state == d.initialState
      ensures capabilities == [] && capabilityMap == map[]
      ensures !carryable && autoActivateCapabilities
      ensures unlockStories == [] && conditionalSpawns == []
    {
      node := new InteractiveNode(d);
      capabilities := [];
      capabilityMap := map[];
      carryable := false;
      autoActivateCapabilities := true;
      unlockStories := [];
      conditionalSpawns := [];
    }

    /**
     * `GetCapability`: none for an absent class; the cached instance of
     * that class if any; otherwise the first listed instance of it.
     */
    function GetCapability(cls: Option<CapabilityType>): (r: ItemCapability?)
      reads this
      ensures cls.None? ==> r == null
      ensures CacheConsistent() && r != null ==> r in capabilities && IsA(r.kind, cls.value)
      ensures CacheConsistent() && cls.Some? ==>
        (r == null <==> forall i :: 0 <= i < |capabilities| ==> !IsA(capabilities[i].kind, cls.value))
      ensures cls.Some? && cls.value in capabilityMap ==> r == capabilityMap[cls.value]
    {
      if cls.None? then null
      else if cls.value in capabilityMap then
        assert CacheConsistent() ==> capabilityMap[cls.value] in capabilities &&
                                     IsA(capabilityMap[cls.value].kind, cls.value);
        capabilityMap[cls.value]
      else FirstOfClass(capabilities, cls.value)
    }

    predicate HasCapability(cls: Option<CapabilityType>)
      reads this
    {
      GetCapability(cls) != null
    }

    /** `ShouldTriggerStory` of an item: the node's own condition, or some story to unlock. */
    predicate ShouldTriggerStory()
      reads this, node
    {
      node.ShouldTriggerStory() || |unlockStories| > 0
    }

    /**
     * `AddCapabilityInstance` on a live item: an absent or already-listed
     * instance is ignored; otherwise it is appended, cached under its
     * class, given this item as owner and, with auto-activation on,
     * switched on at the engine level.
     */
    method AddCapabilityInstance(c: ItemCapability?)
      requires Valid()
      modifies this, c
      ensures Valid()
      ensures c == null || old(c in capabilities) ==>
        capabilities == old(capabilities) && capabilityMap == old(capabilityMap) &&
        (c != null ==> c.owner == old(c.owner) && c.engineActive == old(c.engineActive))
      ensures c != null && old(c !in capabilities) ==>
        capabilities == old(capabilities) + [c] && capabilityMap == old(capabilityMap)[c.kind := c] &&
        c.owner == this && (c.engineActive <==> old(c.engineActive) || autoActivateCapabilities)
      ensures c != null ==>
        c.capabilityActive == old(c.capabilityActive) && c.currentCooldown == old(c.currentCooldown) &&
        c.cooldownDuration == old(c.cooldownDuration) && c.capabilityId == old(c.capabilityId)
      ensures autoActivateCapabilities == old(autoActivateCapabilities) && unlockStories == old(unlockStories)
      ensures conditionalSpawns == old(conditionalSpawns) && carryable == old(carryable)
    {
      if c == null || c in capabilities {
        return;
      }
      capabilities := capabilities + [c];
      capabilityMap := capabilityMap[c.kind := c];
      c.Initialize(this);
      if autoActivateCapabilities && !c.engineActive {
        c.engineActive := true;
      }
    }

    /**
     * `AddCapability`: none for an absent class; the existing instance
     * when the item already holds one of that class, with nothing added;
     * otherwise a new capability of that class, added as above.
     */
    method AddCapability(cls: Option<CapabilityType>) returns (c: ItemCapability?)
      requires Valid()
      modifies this
      ensures Valid()
      ensures cls.None? ==> c == null
      ensures cls.None? || old(HasCapability(cls)) ==>
        capabilities == old(capabilities) && capabilityMap == old(capabilityMap)
      ensures cls.Some? && old(HasCapability(cls)) ==> c == old(GetCapability(cls))
      ensures cls.Some? && !old(HasCapability(cls)) ==>
        c != null && fresh(c) && c.kind == cls.value && c.owner == this &&
        capabilities == old(capabilities) + [c] && capabilityMap == old(capabilityMap)[cls.value := c] &&
        !c.capabilityActive && c.engineActive == autoActivateCapabilities && HasCapability(cls) &&
        c.capabilityId == CapabilityClassName(cls.value)
      ensures autoActivateCapabilities == old(autoActivateCapabilities) && unlockStories == old(unlockStories)
      ensures conditionalSpawns == old(conditionalSpawns) && carryable == old(carryable)
    {
      if cls.None? {
        return null;
      }
      if HasCapability(cls) {
        return GetCapability(cls);
      }
      c := new ItemCapability(cls.value);
      AddCapabilityInstance(c);
    }

    /**
     * `RemoveCapability`: true iff the item holds a capability of that
     * class; that instance (the one `GetCapability` finds) then leaves the
     * list, the cache entry of its class is dropped and it is switched off
     * at the engine level.
     */
    method RemoveCapability(cls: Option<CapabilityType>) returns (removed: bool)
      requires Valid()
      modifies this, set c | c in capabilities
      ensures Valid()
      ensures removed == old(HasCapability(cls))
      ensures !removed ==> capabilities == old(capabilities) && capabilityMap == old(capabilityMap)
      ensures removed ==>
        var c := old(GetCapability(cls));
        c != null && c !in capabilities && !c.engineActive &&
        capabilities == RemoveAll(old(capabilities), c) && |capabilities| == |old(capabilities)| - 1 &&
        capabilityMap == old(capabilityMap) - {c.kind}
      ensures forall c :: c in old(capabilities) && c != old(GetCapability(cls)) ==>
        c.engineActive == old(c.engineActive)
      ensures forall c :: c in old(capabilities) ==>
        c.capabilityActive == old(c.capabilityActive) && c.currentCooldown == old(c.currentCooldown) && c.owner == old(c.owner)
      ensures autoActivateCapabilities == old(autoActivateCapabilities) && unlockStories == old(unlockStories)
      ensures conditionalSpawns == old(conditionalSpawns) && carryable == old(carryable)
    {
      var c := GetCapability(cls);
      if c == null {
        return false;
      }
      capabilityMap := capabilityMap - {c.kind};
      if c.engineActive {
        c.engineActive := false;
      }
      capabilities := RemoveAll(capabilities, c);
      return true;
    }

    /**
     * `UseCapability`: the capability of that class is used when it may
     * be; a successful use raises its `CapabilityUsed_` trigger event.
     */
    method UseCapability(cls: Option<CapabilityType>, d: InteractionData) returns (ok: bool)
      requires Valid()
      modifies node, set c | c in capabilities
      ensures Valid()
      ensures ok == old(GetCapability(cls) != null && GetCapability(cls).CanUse(d))
      ensures ok ==> node.triggerEvents == WithTriggerEvent(old(node.triggerEvents), CapabilityUsedEvent(old(GetCapability(cls)).capabilityId))
      ensures !ok ==> node.triggerEvents == old(node.triggerEvents)
      ensures node.state == old(node.state) && node.stateChanges == old(node.stateChanges)
      ensures node.interactions == old(node.interactions) && node.storyTriggers == old(node.storyTriggers)
    {
      var c := GetCapability(cls);
      if c != null && c.CanUse(d) {
        ok := c.Use(d);
        node.AddTriggerEvent(CapabilityUsedEvent(c.capabilityId));
        return;
      }
      ok := false;
    }

    /**
     * `UseAllCapabilities`: every capability that may be used is used, in
     * list order, each raising its `CapabilityUsed_` event; the result is
     * how many were used. Using one capability never changes whether
     * another may be used, so the count is that of the capabilities usable
     * before the call.
     */
    method UseAllCapabilities(d: InteractionData) returns (used: nat)
      requires Valid()
      modifies node`triggerEvents, (set c | c in capabilities)`currentCooldown
      ensures Valid()
      ensures used == CountTrue(old(UsableFlags(capabilities, d)))
      ensures forall i :: 0 <= i < |capabilities| ==>
        capabilities[i].currentCooldown ==
          if old(capabilities[i].CanUse(d)) && capabilities[i].cooldownDuration > 0.0
          then capabilities[i].cooldownDuration
          else old(capabilities[i].currentCooldown)
      ensures node.triggerEvents ==
        WithTriggerEvents(old(node.triggerEvents), old(UsedEvents(CapabilityIds(capabilities), UsableFlags(capabilities, d))))
    {
      used := UseEach(capabilities, d);
    }

    /** The loop of `UseAllCapabilities` over the list `caps`, which holds no capability twice. */
    method UseEach(caps: seq<ItemCapability>, d: InteractionData) returns (used: nat)
      requires node.Valid() && NoDup(caps)
      modifies node`triggerEvents, (set c | c in caps)`currentCooldown
      ensures node.Valid()
      ensures used == CountTrue(old(UsableFlags(caps, d)))
      ensures node.triggerEvents == WithTriggerEvents(old(node.triggerEvents), old(UsedEvents(CapabilityIds(caps), UsableFlags(caps, d))))
      ensures forall j :: 0 <= j < |caps| ==>
        caps[j].currentCooldown ==
          if old(caps[j].CanUse(d)) && caps[j].cooldownDuration > 0.0 then caps[j].cooldownDuration else old(caps[j].currentCooldown)
    {
      ghost var flags := UsableFlags(caps, d);
      ghost var ids := CapabilityIds(caps);
      ghost var events := [];
      ghost var start := node.triggerEvents;
      used := 0;
      var i := 0;
      while i < |caps|
        invariant 0 <= i <= |caps|
        invariant node.Valid()
        invariant used == CountTrue(flags[..i])
        invariant events == UsedEvents(ids[..i], flags[..i])
        invariant node.triggerEvents == WithTriggerEvents(start, events)
        invariant forall j :: i <= j < |caps| ==> caps[j].CanUse(d) == flags[j]
        invariant forall j :: 0 <= j < |caps| ==>
          caps[j].currentCooldown ==
            if j < i && flags[j] && caps[j].cooldownDuration > 0.0 then caps[j].cooldownDuration else old(caps[j].currentCooldown)
      {
        used, events := UseAt(caps, d, i, used, flags, ids, start, events);
        i := i + 1;
      }
      assert flags[..|caps|] == flags && ids[..|caps|] == ids;
    }

    /** One pass of the loop of `UseEach`: the capability at `i` is tried and the running results advance by one. */
    method UseAt(caps: seq<ItemCapability>, d: InteractionData, i: nat, used: nat,
                 ghost flags: seq<bool>, ghost ids: seq<string>, ghost start: seq<string>, ghost events: seq<string>)
      returns (used': nat, ghost events': seq<string>)
      requires i < |caps| == |flags| == |ids| && NoDup(caps) && ids[i] == caps[i].capabilityId
      requires node.Valid()
      requires used == CountTrue(flags[..i])
      requires events == UsedEvents(ids[..i], flags[..i])
      requires node.triggerEvents == WithTriggerEvents(start, events)
      requires forall j :: i <= j < |caps| ==> caps[j].CanUse(d) == flags[j]
      modifies node`triggerEvents, {caps[i]}`currentCooldown
      ensures node.Valid()
      ensures used' == CountTrue(flags[..i + 1])
      ensures events' == UsedEvents(ids[..i + 1], flags[..i + 1])
      ensures node.triggerEvents == WithTriggerEvents(start, events')
      ensures forall j :: i < j < |caps| ==> caps[j].CanUse(d) == flags[j]
      ensures forall j :: 0 <= j < |caps| ==>
        caps[j].currentCooldown ==
          if j == i && flags[i] && caps[i].cooldownDuration > 0.0 then caps[i].cooldownDuration else old(caps[j].currentCooldown)
    {
      var c := caps[i];
      assert flags[..i + 1] == flags[..i] + [flags[i]];
      CountTrueAppend(flags[..i], [flags[i]]);
      UsedEventsStep(ids, flags, i);
      ghost var e := CapabilityUsedEvent(c.capabilityId);
      var ok := UseIfUsable(c, d);
      used' := used;
      events' := events;
      if ok {
        used' := used + 1;
        WithTriggerEventsSnoc(start, events, e);
        events' := events + [e];
      }
      forall j | 0 <= j < |caps| && j != i
        ensures caps[j] != c
      {
      }
    }

    /** One step of `UseAllCapabilities`: `c` is used if it may be, raising its `CapabilityUsed_` event. */
    method UseIfUsable(c: ItemCapability, d: InteractionData) returns (ok: bool)
      requires node.Valid()
      modifies c`currentCooldown, node`triggerEvents
      ensures ok == old(c.CanUse(d))
      ensures node.Valid()
      ensures ok && c.cooldownDuration > 0.0 ==> c.currentCooldown == c.cooldownDuration
      ensures !(ok && c.cooldownDuration > 0.0) ==> c.currentCooldown == old(c.currentCooldown)
      ensures node.triggerEvents == if ok then WithTriggerEvent(old(node.triggerEvents), CapabilityUsedEvent(c.capabilityId)) else old(node.triggerEvents)
    {
      ok := false;
      if c.CanUse(d) {
        ok := c.Use(d);
        node.AddTriggerEvent(CapabilityUsedEvent(c.capabilityId));
      }
    }

    /** `AddUnlockStory`: empty and already-listed ids are ignored. */
    method AddUnlockStory(id: string)
      requires Valid()
      modifies this
      ensures Valid()
      ensures unlockStories == WithTriggerEvent(old(unlockStories), id)
      ensures capabilities == old(capabilities) && capabilityMap == old(capabilityMap)
      ensures conditionalSpawns == old(conditionalSpawns) && autoActivateCapabilities == old(autoActivateCapabilities)
      ensures carryable == old(carryable)
    {
      if id != "" && id !in unlockStories {
        unlockStories := unlockStories + [id];
      }
    }

    /** `AddConditionalSpawn`: the spec is stored under its condition, replacing any earlier one. */
    method AddConditionalSpawn(condition: string, spec: NodeGenerateData)
      requires Valid()
      modifies this
      ensures Valid()
      ensures conditionalSpawns == Put(old(conditionalSpawns), condition, spec)
      ensures capabilities == old(capabilities) && capabilityMap == old(capabilityMap)
      ensures unlockStories == old(unlockStories) && autoActivateCapabilities == old(autoActivateCapabilities)
      ensures carryable == old(carryable)
    {
      PutKeysDistinct(conditionalSpawns, condition, spec);
      conditionalSpawns := Put(conditionalSpawns, condition, spec);
    }

    /**
     * `GetConditionalSpawns`: every stored spec, in insertion order, for
     * the empty condition; otherwise the spec stored under that condition,
     * if any.
     */
    function GetConditionalSpawns(condition: string): (r: seq<NodeGenerateData>)
      reads this
      ensures condition == "" ==>
        |r| == |conditionalSpawns| && forall i :: 0 <= i < |r| ==> r[i] == conditionalSpawns[i].1
      ensures condition != "" && condition !in Keys(conditionalSpawns) ==> r == []
      ensures condition != "" && condition in Keys(conditionalSpawns) ==>
        |r| == 1 && (condition, r[0]) in conditionalSpawns
    {
      if condition == "" then Values(conditionalSpawns)
      else match Lookup(conditionalSpawns, condition)
        case None => []
        case Some(v) => [v]
    }

    /**
     * The item's state hook after a change of state: every capability
     * hears the new owner state, then entering Active switches every
     * capability on at the engine level (with auto-activation on) and
     * entering Inactive or Locked switches every one off.
     */
    method OnStateChanged()
      requires Valid()
      modifies (set c | c in capabilities)`engineActive
      ensures node.state == Active && autoActivateCapabilities ==> forall c :: c in capabilities ==> c.engineActive
      ensures node.state == Active && !autoActivateCapabilities ==> forall c :: c in capabilities ==>
        (c.engineActive <==> old(c.engineActive) || (!c.capabilityActive && c.owner != null && c.owner.autoActivateCapabilities))
      ensures node.state in {Inactive, Locked} ==> forall c :: c in capabilities ==> !c.engineActive
      ensures node.state == Hidden ==> forall c :: c in capabilities ==>
        (c.engineActive <==> old(c.engineActive) && !c.capabilityActive)
      ensures node.state == Completed ==> forall c :: c in capabilities ==> c.engineActive == old(c.engineActive)
    {
      var s := node.state;
      var i := 0;
      while i < |capabilities|
        invariant 0 <= i <= |capabilities|
        invariant forall j :: i <= j < |capabilities| ==> capabilities[j].engineActive == old(capabilities[j].engineActive)
        invariant forall j :: 0 <= j < i ==>
          var c := capabilities[j];
          (s == Active ==> (c.engineActive <==> old(c.engineActive) || (!c.capabilityActive && c.owner != null && c.owner.autoActivateCapabilities))) &&
          (s in {Inactive, Locked, Hidden} ==> (c.engineActive <==> old(c.engineActive) && !c.capabilityActive)) &&
          (s == Completed ==> c.engineActive == old(c.engineActive))
      {
        capabilities[i].OnOwnerStateChanged(s);
        forall j | i < j < |capabilities|
          ensures capabilities[j] != capabilities[i]
        {
        }
        i := i + 1;
      }
      if s == Active && autoActivateCapabilities {
        SetEngineActive(true);
      } else if s == Inactive || s == Locked {
        SetEngineActive(false);
      }
    }

    /** The engine-level switch of every listed capability set to `on`. */
    method SetEngineActive(on: bool)
      requires Valid()
      modifies (set c | c in capabilities)`engineActive
      ensures forall c :: c in capabilities ==> c.engineActive == on
    {
      var i := 0;
      while i < |capabilities|
        invariant 0 <= i <= |capabilities|
        invariant forall j :: 0 <= j < i ==> capabilities[j].engineActive == on
      {
        if capabilities[i].engineActive != on {
          capabilities[i].engineActive := on;
        }
        i := i + 1;
      }
    }

    /**
     * The item's state setter: the node's setter, followed by the item's
     * state hook when the state actually changed.
     */
    method SetItemState(s: NodeState)
      requires Valid()
      modifies node`state, node`stateChanges, (set c | c in capabilities)`engineActive
      ensures Valid()
      ensures node.state == s
      ensures old(node.state) == s ==>
        node.stateChanges == old(node.stateChanges) &&
        forall c :: c in capabilities ==> c.engineActive == old(c.engineActive)
      ensures old(node.state) != s ==> node.stateChanges == old(node.stateChanges) + [StateChange(old(node.state), s)]
      ensures old(node.state) != s && s == Active && autoActivateCapabilities ==> forall c :: c in capabilities ==> c.engineActive
      ensures old(node.state) != s && s in {Inactive, Locked} ==> forall c :: c in capabilities ==> !c.engineActive
      ensures old(node.state) != s && s == Hidden ==> forall c :: c in capabilities ==>
        (c.engineActive <==> old(c.engineActive) && !c.capabilityActive)
      ensures s == Completed ==> forall c :: c in capabilities ==> c.engineActive == old(c.engineActive)
    {
      if node.state == s {
        return;
      }
      node.SetNodeState(s);
      OnStateChanged();
    }

    /**
     * `CheckStoryConditions`: a Completed item adds an `UnlockStory_`
     * trigger event for each of its unlock-story ids, in order; in any
     * other state nothing changes.
     */
    method CheckStoryConditions()
      requires Valid()
      modifies node`triggerEvents
      ensures Valid()
      ensures node.state == Completed ==>
        node.triggerEvents == WithTriggerEvents(old(node.triggerEvents), UnlockStoryEvents(unlockStories))
      ensures node.state != Completed ==> node.triggerEvents == old(node.triggerEvents)
    {
      if node.state == Completed && |unlockStories| > 0 {
        ghost var start := node.triggerEvents;
        var k := 0;
        while k < |unlockStories|
          invariant 0 <= k <= |unlockStories|
          invariant node.Valid()
          invariant node.triggerEvents == WithTriggerEvents(start, UnlockStoryEvents(unlockStories[..k]))
        {
          UnlockStoryEventsStep(unlockStories, k);
          WithTriggerEventsSnoc(start, UnlockStoryEvents(unlockStories[..k]), UnlockStoryEvent(unlockStories[k]));
          node.AddTriggerEvent(UnlockStoryEvent(unlockStories[k]));
          k := k + 1;
        }
        assert unlockStories[..k] == unlockStories;
      }
    }

    /**
     * `OnInteract` of an item: a refused interaction changes nothing.
     * Otherwise the node's interaction runs (with the unlock stories
     * counting towards the story check), every usable capability is used,
     * an Active item on which no capability was used completes, and a
     * Completed item raises its unlock-story events.
     */
    method OnInteract(d: InteractionData)
      requires Valid()
      modifies node`interactions, node`storyTriggers, node`state, node`stateChanges, node`triggerEvents
      modifies (set c | c in capabilities)`currentCooldown, (set c | c in capabilities)`engineActive
      ensures Valid()
      ensures !old(node.CanInteract(d)) ==>
        node.state == old(node.state) && node.interactions == old(node.interactions) &&
        node.triggerEvents == old(node.triggerEvents) && node.storyTriggers == old(node.storyTriggers)
      ensures old(node.CanInteract(d)) ==> node.interactions == old(node.interactions) + [d]
      ensures old(node.CanInteract(d)) && old(ShouldTriggerStory()) ==>
        node.storyTriggers == old(node.storyTriggers) + [StoryTrigger(old(node.triggerEvents))]
      ensures old(node.CanInteract(d)) && old(node.state) == Active && CountTrue(old(UsableFlags(capabilities, d))) == 0 ==>
        node.state == Completed && node.stateChanges == old(node.stateChanges) + [StateChange(Active, Completed)]
      ensures !(old(node.CanInteract(d)) && old(node.state) == Active && CountTrue(old(UsableFlags(capabilities, d))) == 0) ==>
        node.state == old(node.state) && node.stateChanges == old(node.stateChanges)
      ensures old(node.CanInteract(d)) && node.state == Completed ==>
        forall k :: 0 <= k < |unlockStories| ==> UnlockStoryEvent(unlockStories[k]) in node.triggerEvents
      ensures old(node.triggerEvents) <= node.triggerEvents
    {
      if !node.CanInteract(d) {
        return;
      }
      ghost var flags := UsableFlags(capabilities, d);
      node.OnInteract(d, |unlockStories| > 0);
      forall i | 0 <= i < |capabilities|
        ensures capabilities[i].CanUse(d) == flags[i]
      {
      }
      assert UsableFlags(capabilities, d) == flags;
      var used := UseAllOrComplete(d);
      ghost var mid := node.triggerEvents;
      CheckStoryConditions();
      if node.state == Completed {
        WithTriggerEventsKeeps(mid, UnlockStoryEvents(unlockStories));
      }
    }

    /**
     * The middle of `OnInteract`: every usable capability is used, and an
     * Active item on which none was used completes.
     */
    method UseAllOrComplete(d: InteractionData) returns (used: nat)
      requires Valid()
      modifies node`state, node`stateChanges, node`triggerEvents
      modifies (set c | c in capabilities)`currentCooldown, (set c | c in capabilities)`engineActive
      ensures Valid()
      ensures used == CountTrue(old(UsableFlags(capabilities, d)))
      ensures old(node.state) == Active && used == 0 ==>
        node.state == Completed && node.stateChanges == old(node.stateChanges) + [StateChange(Active, Completed)]
      ensures !(old(node.state) == Active && used == 0) ==>
        node.state == old(node.state) && node.stateChanges == old(node.stateChanges)
      ensures old(node.triggerEvents) <= node.triggerEvents
    {
      ghost var before := node.triggerEvents;
      ghost var events := UsedEvents(CapabilityIds(capabilities), UsableFlags(capabilities, d));
      used := UseAllCapabilities(d);
      WithTriggerEventsKeeps(before, events);
      if used == 0 && node.state == Active {
        SetItemState(Completed);
      }
    }

    /** `CleanupCapabilities` at end of play: every capability is uncached and switched off, and the list emptied. */
    method CleanupCapabilities()
      requires Valid()
      modifies this, set c | c in capabilities
      ensures Valid()
      ensures capabilities == [] && capabilityMap == map[]
      ensures forall c :: c in old(capabilities) ==> !c.engineActive && c.capabilityActive == old(c.capabilityActive)
      ensures unlockStories == old(unlockStories) && conditionalSpawns == old(conditionalSpawns)
      ensures autoActivateCapabilities == old(autoActivateCapabilities) && carryable == old(carryable)
    {
      SetEngineActive(false);
      capabilities := [];
      capabilityMap := map[];
    }
  }

  /** Every capability is an instance of the base class, so the base class is held iff any capability is. */
  lemma BaseClassMatchesAny(item: ItemNode)
    requires item.Valid()
    ensures item.HasCapability(Some(NoCapability)) <==> |item.capabilities| > 0
  {
    if |item.capabilities| > 0 {
      assert IsA(item.capabilities[0].kind, NoCapability);
    }
  }
}
