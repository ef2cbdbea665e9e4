# MyProject node-relation graph, modelled in Dafny

MyProject is an Unreal Engine game framework in which the world is a graph of
*interactive nodes* (scenes and items) joined by *node connections* of seven
relation types (dependency, prerequisite, trigger, sequence, parent, mutual,
emotional). A central *node system manager* registers nodes and connections,
indexes them by type, state and tag, answers queries and path searches, and
propagates state changes along connections. Item nodes carry *capabilities*
(state, spatial, interactive, narrative, numerical and system) that add
behaviour when the item is used, when its owner changes state, and on timers.
A small converter turns JSON text into the node data the manager spawns from.

This project models that core in Dafny:

- `node_types.dfy` – the enumerations and data records of the shared header.
- `interactive_node.dfy`, `scene_node.dfy`, `item_node.dfy` – the three node
  classes, with their fields as class fields and their methods as methods.
- `connection.dfy` – a node connection: its relation-type rules, its
  propagation table and its opposite-node lookup.
- `buckets.dfy`, `graph_index.dfy`, `manager.dfy`, `path_search.dfy` – the
  manager's registry and index maps, its queries, connection bookkeeping,
  state propagation and breadth-first path search.
- `converter.dfy`, `spawning.dfy`, `validation.dfy` – JSON-to-node-data
  conversion, generation queues and the consistency check of the system.
- `*_capability.dfy`, `narrative_rules.dfy`, `system_rules.dfy` – the six
  capabilities; the `_rules` files hold the pure parts (condition rules,
  template substitution, clue and combination logic) that the classes call.
- `util.dfy`, `text.dfy` – the engine containers and string functions the
  source relies on (`TArray::AddUnique`, `FString::Replace`, `FCString::Atoi`
  and so on), written out so that their behaviour is explicit.

Engine objects whose fields change in place are Dafny classes; value types
(node data, relation data, interaction data, configuration records) are
datatypes. Floating-point values are `real`s, 32-bit integers are `int`s with
the width made explicit where it matters. The engine's delegates, timers, the
world's actors and its random stream are not part of this model; the values
they would deliver are parameters of the methods that receive them.

## Model

| member | source | states |
|---|---|---|
| NodeTypes.StateOrdinal | MyProject/Public/Core/NodeDataTypes.h:19-28 | every node state has a position in the declared list that holds exactly that state |
| NodeTypes.StateFromOrdinal | MyProject/Public/Core/NodeDataTypes.h:19-28 | exactly the integers 0..4 name a state, and the named state has that integer as its ordinal |
| NodeTypes.NodeStateEnumeration | MyProject/Public/Core/NodeDataTypes.h:19-28 | the five node states are Inactive, Active, Completed, Locked, Hidden, each once, and every state survives ordinal and back |
| NodeTypes.RelationOrdinal | MyProject/Public/Core/NodeDataTypes.h:41-52 | every relation type has a position in the declared list that holds exactly that type |
| NodeTypes.RelationTypeEnumeration | MyProject/Public/Core/NodeDataTypes.h:41-52 | there are exactly seven relation types, none listed twice |
| NodeTypes.CapabilityOrdinal | MyProject/Public/Core/NodeDataTypes.h:256-266 | each capability kind has its fixed value in 0..6 and reads back as itself |
| NodeTypes.CapabilityFromOrdinal | MyProject/Public/Core/NodeDataTypes.h:256-266 | exactly 0..6 name a capability kind |
| NodeTypes.CapabilityOrdinalRoundTrip | MyProject/Public/Core/NodeDataTypes.h:256-266 | reading a value in 0..6 as a capability kind and taking its value again gives the same integer |
| Nodes.WithTriggerEvent | MyProject/Private/Nodes/InteractiveNode.cpp:220-226 | adding an event id keeps the list free of empty ids and duplicates, keeps every old id, adds only that id, and grows the list by at most one |
| Nodes.WithTriggerEventIdempotent | MyProject/Private/Nodes/InteractiveNode.cpp:220-226 | adding the same trigger event twice has the effect of adding it once |
| Nodes.WithTriggerEventsKeeps | MyProject/Private/Nodes/InteractiveNode.cpp:220-226 | adding a series of ids keeps the old list as a prefix, keeps it well formed, and leaves every non-empty added id in it |
| Nodes.InteractiveNode.constructor | MyProject/Private/Nodes/InteractiveNode.cpp:94-110 | a new node holds its data and starts Inactive, interactable, with range 100000 and empty lists; a non-Inactive initial state is applied through the setter and broadcast once |
| Nodes.InteractiveNode.SetNodeState | MyProject/Private/Nodes/InteractiveNode.cpp:112-125 | setting the current state changes and broadcasts nothing; any other state is stored and broadcast once with old and new state |
| Nodes.InteractiveNode.OnInteract | MyProject/Private/Nodes/InteractiveNode.cpp:139-158 | a refused interaction records nothing; an accepted one is broadcast once, and a story trigger with the node's events is broadcast exactly when the node has a story pending |
| Nodes.InteractiveNode.SetStoryFragment | MyProject/Private/Nodes/InteractiveNode.cpp:215-218 | the fragment is replaced and nothing else changes |
| Nodes.InteractiveNode.AddTriggerEvent | MyProject/Private/Nodes/InteractiveNode.cpp:220-226 | the event list becomes the list with the id added once, and stays free of empty ids and duplicates |
| Nodes.NodesInState | MyProject/Private/Nodes/SceneNode.cpp:101-114 | the result holds exactly the given nodes that are in the state, and no more of them than were given |
| Nodes.NodesOfType | MyProject/Private/Nodes/SceneNode.cpp:86-99 | the result holds exactly the given nodes whose data declares the type |
| Nodes.StoryPendingEitherSource | MyProject/Private/Nodes/InteractiveNode.cpp:228-231 | a plain node has a story pending exactly when it has a fragment or at least one trigger event |
| Nodes.NoInstigatorNoInteraction | MyProject/Private/Nodes/InteractiveNode.cpp:251-274 | an interaction without an instigator is always refused |
| Nodes.NonPositiveRangeIgnoresDistance | MyProject/Private/Nodes/InteractiveNode.cpp:251-274 | with a range of zero or less every interaction that has an instigator is accepted, whatever the distance |
| Connections.RelationTypeName | MyProject/Private/Nodes/NodeConnection.cpp:110-138 | the display name of a relation type carries the enum prefix `ENodeRelationType::` and more |
| Connections.RelationTypeNameInjective | MyProject/Private/Nodes/NodeConnection.cpp:110-138 | two relation types with the same display name are the same type, so connection ids tell types apart |
| Connections.RelationRuleProperties | MyProject/Private/Nodes/NodeConnection.cpp:627-650 | the relation-type rule is idempotent; Parent and Mutual are always bidirectional, Sequence never, and the requested flag survives only for the other types |
| Connections.PropagationByState | MyProject/Private/Nodes/NodeConnection.cpp:277-314 | read by state: Completed travels along every type but Emotional, Active along Trigger, Mutual and Parent, the other states only along Parent |
| Connections.PropagationEffect | MyProject/Private/Nodes/NodeConnection.cpp:328-385 | exactly: Dependency and Prerequisite unlock the far end when the source completes and the far end is Locked; Trigger activates it when the source becomes Active; Sequence activates it when the source completes; Parent copies the state at strength 0.5 or more; Mutual and Emotional never change the far end |
| Connections.TriggerCompletedHasNoEffect | MyProject/Private/Nodes/NodeConnection.cpp:328-385 | a Trigger connection is allowed to carry Completed, but carrying it never changes the far end |
| Connections.EffectIsActiveOrCopy | MyProject/Private/Nodes/NodeConnection.cpp:328-385 | every propagated state either activates the far end or, along Parent, copies the sender's state |
| Connections.NodeConnection.constructor | MyProject/Private/Nodes/NodeConnection.cpp:110-138 | with both ends set the connection takes them, the type and the id `source_to_target_type`; otherwise it stays empty; it starts active, one-way unless the type forces otherwise, with weight and strength 1 |
| Connections.NodeConnection.GetOppositeNode | MyProject/Private/Nodes/NodeConnection.cpp:168-185 | the result is set exactly when the connection is valid and the node is one of its ends, and is then one of the ends |
| Connections.NodeConnection.PropagationOf | MyProject/Private/Nodes/NodeConnection.cpp:328-385 | a state is propagated only where the table allows it and only to the opposite node; for all types but Parent only from the source and only as Active; conversely, every case the table allows does propagate, Parent in both directions |
| Connections.NodeConnection.SetConnectionWeight | MyProject/Private/Nodes/NodeConnection.cpp:140-144 | the weight is the argument clamped to [0, 1], unchanged when already in range, and nothing else changes |
| Connections.NodeConnection.SetBidirectional | MyProject/Private/Nodes/NodeConnection.cpp:146-150 | the flag becomes the requested one as corrected by the relation-type rule; nothing else changes |
| Connections.NodeConnection.ApplyRelationTypeRules | MyProject/Private/Nodes/NodeConnection.cpp:627-650 | the flag is corrected by the relation-type rule; nothing else changes |
| Connections.NodeConnection.Activate | MyProject/Private/Nodes/NodeConnection.cpp:197-218 | the connection ends up active; an already active one is left as it was, an inactive one starts animating |
| Connections.Propagated | MyProject/Private/Nodes/NodeConnection.cpp:400-402 | the passed-on interaction keeps its type, instigator and duration and every other context entry, and gains the sender id and the relation type name |
| Connections.NodeConnection.Deactivate | MyProject/Private/Nodes/NodeConnection.cpp:220-237 | the connection ends up inactive; an inactive one is left as it was, an active one stops animating |
| Connections.NodeConnection.PropagateInteraction | MyProject/Private/Nodes/NodeConnection.cpp:387-410 | only a connection that lets interactions through passes one on, and only to the node opposite the sender; that node records the tagged interaction exactly when it accepts it, and otherwise no node changes |
| Connections.OppositeInvolution | MyProject/Private/Nodes/NodeConnection.cpp:168-185 | across a connection between two distinct nodes and back again returns to the start |
| Connections.ConnectingLeadsAcross | MyProject/Private/Nodes/NodeConnection.cpp:157-185 | when a connection joins a to b, the opposite node of a is b, whatever the direction |
| Connections.OppositeIgnoresDirection | MyProject/Private/Nodes/NodeConnection.cpp:157-185 | a one-way connection does not connect its target to its source, yet its opposite lookup leads from the target back to the source |
| Connections.InactiveCarriesNothing | MyProject/Private/Nodes/NodeConnection.cpp:152-185 | an inactive connection carries no state, no interaction and has no opposite node |
| Scenes.ActivationRoundTrip | MyProject/Private/Nodes/SceneNode.cpp:116-154 | deactivating after activating returns every Inactive or Active child to Inactive and leaves every other state where it was |
| Scenes.SpawnableCount | MyProject/Private/Nodes/SceneNode.cpp:183-194 | at most one node is spawned per queued spec |
| Scenes.SceneNode.constructor | MyProject/Private/Nodes/SceneNode.cpp:8-29 | a new scene has no children, no queue and no chapter, and is the active scene exactly when it starts Active |
| Scenes.SceneNode.GetChildNode | MyProject/Private/Nodes/SceneNode.cpp:77-84 | the child found under an id is a listed child with that id, and nothing is found exactly when no child is mapped under the id |
| Scenes.SceneNode.GetChildNodesByType | MyProject/Private/Nodes/SceneNode.cpp:86-99 | the result holds exactly the children whose data declares the type |
| Scenes.SceneNode.GetChildNodesByState | MyProject/Private/Nodes/SceneNode.cpp:101-114 | the result holds exactly the children currently in the state |
| Scenes.SceneNode.AddChildNode | MyProject/Private/Nodes/SceneNode.cpp:31-52 | a listed or null node changes nothing; a new one is appended and mapped under its id, and in an active scene an Inactive newcomer becomes Active |
| Scenes.SceneNode.RemoveChildNode | MyProject/Private/Nodes/SceneNode.cpp:54-66 | a non-member changes nothing; a member leaves the list (one entry shorter) and its id leaves the map |
| Scenes.SceneNode.RemoveChildNodeByID | MyProject/Private/Nodes/SceneNode.cpp:68-75 | an unmapped id changes nothing; a mapped child leaves the list and its id the map, and no child is added |
| Scenes.SceneNode.UpdateChildrenStates | MyProject/Private/Nodes/SceneNode.cpp:258-279 | in an active scene Inactive children become Active and others keep their state; in an inactive scene nothing changes |
| Scenes.SceneNode.ActivateScene | MyProject/Private/Nodes/SceneNode.cpp:116-133 | idempotent; a first activation makes the scene Active and switches its Inactive children on; children and map are kept |
| Scenes.SceneNode.DeactivateScene | MyProject/Private/Nodes/SceneNode.cpp:135-154 | idempotent; a deactivation lowers the flag and switches Active children off, without changing the scene's own state |
| Scenes.SceneNode.SetSceneState | MyProject/Private/Nodes/SceneNode.cpp:212-233 | the scene takes the state; becoming Active enters the scene, becoming Inactive or Locked leaves it, and every other change leaves the scene flag and children alone |
| Scenes.SceneNode.OnChildNodeStateChanged | MyProject/Private/Nodes/SceneNode.cpp:331-360 | the scene completes exactly when a child reports Completed and all children are Completed; no child is changed |
| Scenes.SceneNode.OnChildNodeStoryTriggered | MyProject/Private/Nodes/SceneNode.cpp:375-391 | the scene's event list gains every non-empty event of the child and loses none, and gains nothing else |
| Scenes.SceneNode.OnInteract | MyProject/Private/Nodes/SceneNode.cpp:196-210 | a refused interaction changes nothing; an accepted one is recorded and leaves the scene active |
| Scenes.SceneNode.QueueNodeSpawn | MyProject/Private/Nodes/SceneNode.cpp:178-181 | the spec is appended to the queue; the children are untouched |
| Scenes.SceneNode.ProcessPendingSpawns | MyProject/Private/Nodes/SceneNode.cpp:183-194 | the queue ends empty and exactly one fresh child is appended for each queued spec that names a node class, after the old children |
| Items.CapabilityClassName | MyProject/Private/Nodes/ItemNode.cpp:50-78 | a new capability's id is its class name, a non-trivial string |
| Items.CapabilityUsedEvent | MyProject/Private/Nodes/ItemNode.cpp:421-439 | the event is `CapabilityUsed_` followed by exactly the capability's id |
| Items.UnlockStoryEvent | MyProject/Private/Nodes/ItemNode.cpp:395-419 | the event is `UnlockStory_` followed by exactly the story id |
| Items.UnlockStoryEvents | MyProject/Private/Nodes/ItemNode.cpp:395-419 | one `UnlockStory_` event per story id, position by position |
| Items.CountTrueZero | MyProject/Private/Nodes/ItemNode.cpp:218-245 | no capability was used exactly when no flag is set, which is what completes an item |
| Items.Lookup | MyProject/Private/Nodes/ItemNode.cpp:203-216 | a key is absent exactly when the map has no entry for it, and a found value is stored under that key |
| Items.Put | MyProject/Private/Nodes/ItemNode.cpp:198-201 | storing under a present key keeps the size; a new key is appended at the end |
| Items.PutLookupSame | MyProject/Private/Nodes/ItemNode.cpp:198-201 | after storing a spec under a condition, that condition reads back the new spec |
| Items.PutLookupOther | MyProject/Private/Nodes/ItemNode.cpp:198-201 | storing under one condition leaves every other condition's spec as it was |
| Items.PutKeys | MyProject/Private/Nodes/ItemNode.cpp:198-201 | storing keeps the conditions in insertion order, a new condition going last |
| Items.PutKeysDistinct | MyProject/Private/Nodes/ItemNode.cpp:198-201 | conditions stay distinct under storing |
| Items.FirstOfClass | MyProject/Private/Nodes/ItemNode.cpp:128-151 | the result is null exactly when no capability is of the class, and is otherwise the first capability of that class |
| Items.ItemCapability.constructor | MyProject/Private/Nodes/Capabilities/ItemCapability.cpp:9-21 | a new capability is inactive, ownerless, without cooldown, with prompt "Use" and its class name as id |
| Items.ItemCapability.Initialize | MyProject/Private/Nodes/Capabilities/ItemCapability.cpp:63-76 | the owner is set and nothing else changes |
| Items.ItemCapability.CapabilityActivate | MyProject/Private/Nodes/Capabilities/ItemCapability.cpp:78-100 | the capability is on afterwards exactly when it was already on or it has an owner |
| Items.ItemCapability.CapabilityDeactivate | MyProject/Private/Nodes/Capabilities/ItemCapability.cpp:102-116 | the capability is off afterwards; switching off an active one clears its cooldown |
| Items.ItemCapability.Use | MyProject/Private/Nodes/Capabilities/ItemCapability.cpp:147-167 | the use succeeds exactly when the capability may be used, and a success with a positive duration starts the cooldown |
| Items.ItemCapability.StartCooldown | MyProject/Private/Nodes/Capabilities/ItemCapability.cpp:237-257 | a positive duration becomes the remaining cooldown; otherwise nothing changes |
| Items.ItemCapability.ResetCooldown | MyProject/Private/Nodes/Capabilities/ItemCapability.cpp:259-267 | the cooldown is cleared and the capability is off cooldown |
| Items.ItemCapability.Tick | MyProject/Private/Nodes/Capabilities/ItemCapability.cpp:52-61 | a running cooldown counts down by the step and stops at zero, never negative |
| Items.ItemCapability.CooldownProgress | MyProject/Private/Nodes/Capabilities/ItemCapability.cpp:169-177 | progress is 1 without a duration, otherwise a fraction in [0, 1] that is 1 exactly when the cooldown is over and 0 exactly when it just started |
| Items.ItemCapability.OnOwnerStateChanged | MyProject/Private/Nodes/Capabilities/ItemCapability.cpp:179-206 | an Active owner with auto-activation switches an idle capability on, Inactive, Locked and Hidden switch an idle one off, Completed changes nothing |
| Items.UsedEventsListsUsed | MyProject/Private/Nodes/ItemNode.cpp:171-188 | one `CapabilityUsed_` event is raised per capability used, and each used capability's event is among them |
| Items.ItemNode.constructor | MyProject/Private/Nodes/ItemNode.cpp:10-40 | a new item has no capabilities, no unlock stories and no conditional spawns, is not carryable and auto-activates |
| Items.ItemNode.GetCapability | MyProject/Private/Nodes/ItemNode.cpp:128-151 | none for an absent class; the cached instance if any; otherwise a listed instance of the class, and none exactly when no listed capability has the class |
| Items.ItemNode.AddCapabilityInstance | MyProject/Private/Nodes/ItemNode.cpp:80-101 | a null or listed instance changes nothing; a new one is appended, cached under its class and given this item as owner |
| Items.ItemNode.AddCapability | MyProject/Private/Nodes/ItemNode.cpp:50-78 | none for an absent class; the held instance when one of the class exists, with nothing added; otherwise a fresh capability of the class owned by this item |
| Items.ItemNode.RemoveCapability | MyProject/Private/Nodes/ItemNode.cpp:103-126 | true exactly when a capability of the class is held; that instance then leaves the list and the cache and is switched off, and no other capability changes |
| Items.ItemNode.UseCapability | MyProject/Private/Nodes/ItemNode.cpp:158-169 | the use succeeds exactly when the class is held and its capability may be used; a success raises its `CapabilityUsed_` event and nothing else on the node changes |
| Items.ItemNode.UseAllCapabilities | MyProject/Private/Nodes/ItemNode.cpp:171-188 | the count is the number of usable capabilities, each usable one has started its cooldown and raised its event in list order, and the others are untouched |
| Items.ItemNode.UseEach | MyProject/Private/Nodes/ItemNode.cpp:171-188 | the loop over a duplicate-free capability list raises exactly the events of the usable ones, in order, and counts them |
| Items.ItemNode.UseIfUsable | MyProject/Private/Nodes/ItemNode.cpp:171-188 | a capability is used exactly when it may be, and its event is raised exactly then |
| Items.ItemNode.AddUnlockStory | MyProject/Private/Nodes/ItemNode.cpp:190-196 | the story id is added once unless empty or already listed |
| Items.ItemNode.AddConditionalSpawn | MyProject/Private/Nodes/ItemNode.cpp:198-201 | the spec is stored under its condition, replacing an earlier one |
| Items.ItemNode.GetConditionalSpawns | MyProject/Private/Nodes/ItemNode.cpp:203-216 | the empty condition gives all specs in insertion order; another condition gives its one spec, or nothing when it has none |
| Items.ItemNode.OnStateChanged | MyProject/Private/Nodes/ItemNode.cpp:267-303 | entering Active switches every capability on (with auto-activation), Inactive or Locked switches all off, Hidden switches idle ones off, Completed changes nothing |
| Items.ItemNode.SetEngineActive | MyProject/Private/Nodes/ItemNode.cpp:267-303 | every listed capability's engine switch is set to the given value |
| Items.ItemNode.SetItemState | MyProject/Private/Nodes/ItemNode.cpp:267-303 | the item takes the state and broadcasts a real change once; the capabilities follow the new state as the state hook says |
| Items.ItemNode.CheckStoryConditions | MyProject/Private/Nodes/ItemNode.cpp:395-419 | a Completed item raises the `UnlockStory_` event of each unlock story in order; in any other state nothing changes |
| Items.ItemNode.OnInteract | MyProject/Private/Nodes/ItemNode.cpp:218-245 | a refused interaction changes nothing; an accepted one is recorded, may raise a story, uses every usable capability, and completes an Active item on which none was usable, which then raises all its unlock-story events |
| Items.ItemNode.UseAllOrComplete | MyProject/Private/Nodes/ItemNode.cpp:218-245 | all usable capabilities are used and counted; an Active item on which none was used completes with one broadcast, otherwise its state is kept |
| Items.ItemNode.CleanupCapabilities | MyProject/Private/Nodes/ItemNode.cpp:476-489 | at end of play every capability is switched off and the list and cache are emptied |
| Items.BaseClassMatchesAny | MyProject/Private/Nodes/ItemNode.cpp:153-156 | asking for the base capability class is the same as asking whether the item has any capability |
| Buckets.AddToBucket | MyProject/Private/Nodes/NodeSystemManager.cpp:1510-1538 | filing a node under a key adds it once to that key's list, creating the key if needed, and leaves every other key's list alone |
| Buckets.AppendToBucket | MyProject/Private/Nodes/NodeSystemManager.cpp:501-578 | filing a connection under an id appends it to that id's list even if present, and leaves every other id alone |
| Buckets.RemoveFromBucket | MyProject/Private/Nodes/NodeSystemManager.cpp:1510-1538 | taking a value out of a key's list removes every copy of it, drops the key once its list is empty, and leaves other keys alone |
| Buckets.AddToBucketsAt | MyProject/Private/Nodes/NodeSystemManager.cpp:1540-1573 | after filing a node under each of its tags, each tag's list gained the node once and every other list is unchanged |
| Buckets.AddToBucketsNoEmpty | MyProject/Private/Nodes/NodeSystemManager.cpp:1540-1573 | filing under several keys never leaves an empty list in the index |
| Buckets.RemoveFromBucketsAt | MyProject/Private/Nodes/NodeSystemManager.cpp:1540-1573 | after taking a node out under each of its tags, each tag's list lost the node (and vanished when empty) and every other list is unchanged |
| Buckets.RemoveFromBucketsNoEmpty | MyProject/Private/Nodes/NodeSystemManager.cpp:1540-1573 | taking out under several keys never leaves an empty list in the index |
| Buckets.AddThenRemoveBuckets | MyProject/Private/Nodes/NodeSystemManager.cpp:1540-1573 | filing a node that was nowhere and then taking it out again restores the index exactly |
| Buckets.AddThenRemoveBucket | MyProject/Private/Nodes/NodeSystemManager.cpp:1510-1538 | the same round trip for the single type key |
| Buckets.Without | MyProject/Private/Nodes/NodeSystemManager.cpp:599-644 | the result keeps exactly the elements not taken out, in order |
| Buckets.WithoutAll | MyProject/Private/Nodes/NodeSystemManager.cpp:675-696 | taking a set of connections out of every list leaves no empty list, shrinks each list to its remaining elements and drops only lists that became empty |
| Buckets.WithoutTwice | MyProject/Private/Nodes/NodeSystemManager.cpp:675-696 | taking connections out in two rounds is taking their union out once |
| Buckets.WithoutAllTwice | MyProject/Private/Nodes/NodeSystemManager.cpp:675-696 | the same for a whole index |
| Buckets.WithoutAllNothing | MyProject/Private/Nodes/NodeSystemManager.cpp:675-696 | taking nothing out of an index without empty lists leaves it as it is |
| Buckets.WithoutOwnBucket | MyProject/Private/Nodes/NodeSystemManager.cpp:675-696 | taking out everything listed under an id drops that id from the index |
| Buckets.RemoveFromTwoBuckets | MyProject/Private/Nodes/NodeSystemManager.cpp:599-644 | removing a connection from the lists of its two endpoints is taking it out of the whole index, since it is listed nowhere else |
| GraphIndex.RegisterKeepsNodeIndices | MyProject/Private/Nodes/NodeSystemManager.cpp:324-366 | registering a node under a fresh non-empty id and filing it by type and tags keeps the registry, both indices and the active list consistent |
| GraphIndex.UnregisterKeepsNodeIndices | MyProject/Private/Nodes/NodeSystemManager.cpp:374-407 | unregistering a node and taking it out of both indices and the active list keeps them consistent |
| GraphIndex.TypeKeysFiling | MyProject/Private/Nodes/NodeSystemManager.cpp:1510-1538 | filing a node by type is filing it under its one type key |
| GraphIndex.RegisterKeepsIndex | MyProject/Private/Nodes/NodeSystemManager.cpp:1540-1573 | filing a newly registered node under its keys keeps an index listing exactly the registered nodes under their keys |
| GraphIndex.UnregisterKeepsIndex | MyProject/Private/Nodes/NodeSystemManager.cpp:1540-1573 | taking an unregistered node out of its keys keeps an index listing exactly the registered nodes under their keys |
| GraphIndex.RegisterUnregisterRoundTrip | MyProject/Private/Nodes/NodeSystemManager.cpp:324-407 | registering a node and unregistering it again restores the registry and the index exactly |
| GraphIndex.Filed | MyProject/Private/Nodes/NodeSystemManager.cpp:501-578 | filing a connection keeps every old list as a prefix and lists the connection under its source's id, and under its target's id when bidirectional |
| GraphIndex.AddConnectionKeepsIndex | MyProject/Private/Nodes/NodeSystemManager.cpp:501-578 | filing a connection between two distinct nodes under both endpoint ids keeps the connection index consistent |
| GraphIndex.WithoutKeepsIndex | MyProject/Private/Nodes/NodeSystemManager.cpp:599-696 | taking connections out of the connection index keeps it consistent |
| GraphIndex.BucketMeans | MyProject/Private/Nodes/NodeSystemManager.cpp:419-455 | a list of a consistent node index holds each node once and holds exactly the registered nodes with that key |
| GraphIndex.ConnBucketMeans | MyProject/Private/Nodes/NodeSystemManager.cpp:718-725 | a list of a consistent connection index holds exactly the indexed connections with an endpoint of that id |
| GraphIndex.FiledOnlyAtEndpoints | MyProject/Private/Nodes/NodeSystemManager.cpp:599-644 | in a consistent index a connection is listed only under the ids of its endpoints |
| GraphIndex.WithoutBucketClears | MyProject/Private/Nodes/NodeSystemManager.cpp:675-696 | once every connection listed under an id is taken out, no connection left touches a node of that id |
| GraphIndex.EmptyIndicesOk | MyProject/Private/Nodes/NodeSystemManager.cpp:1086-1119 | an empty registry, empty indices and an empty connection index are consistent |
| Manager.FirstTo | MyProject/Private/Nodes/NodeSystemManager.cpp:699-716 | the found connection is in the list and ends at a node of that id, and none is found exactly when no connection of the list does |
| Manager.FirstToAppend | MyProject/Private/Nodes/NodeSystemManager.cpp:699-716 | appending a connection never changes a match found before; without one, the appended connection decides |
| Manager.FiledFirst | MyProject/Private/Nodes/NodeSystemManager.cpp:501-578 | a connection filed where no connection to its target's id was listed is the one the lookup then finds |
| Manager.FiledKeepsLookup | MyProject/Private/Nodes/NodeSystemManager.cpp:501-578 | filing more connections never loses a connection the lookup found |
| Manager.FiledKeepsLinked | MyProject/Private/Nodes/NodeSystemManager.cpp:1306-1329 | a relation request that was honoured stays honoured once more connections are filed |
| Manager.Spawn | MyProject/Private/Nodes/NodeSystemManager.cpp:99-289 | the spawned actor is new, of the requested class, carries the spec's node data in its initial state; a scene starts empty and well formed |
| Manager.RelationEnds | MyProject/Private/Nodes/NodeSystemManager.cpp:1262-1304 | a relation of a generated node always has the new node at one end, and runs into it only when it names the node as target |
| Manager.ConnectingIn | MyProject/Private/Nodes/NodeSystemManager.cpp:646-673 | the collected connections are exactly those of the list that join a to b, each once |
| Manager.WithoutConnecting | MyProject/Private/Nodes/NodeSystemManager.cpp:646-673 | taking out the collected connections leaves none joining a to b |
| Manager.NeighboursIn | MyProject/Private/Nodes/NodeSystemManager.cpp:765-783 | every node found is reached from the start by a connection of the type, each is found once, and every node such a connection reaches is found |
| Manager.DefaultQueryDropsInactive | MyProject/Private/Nodes/NodeSystemManager.cpp:859-920 | the default query selects exactly the nodes that are not Inactive |
| Manager.SingleStateQuery | MyProject/Private/Nodes/NodeSystemManager.cpp:859-920 | a query on one state that admits Inactive nodes selects exactly the nodes in that state |
| Manager.AllPrerequisitesCompleted | MyProject/Private/Nodes/NodeSystemManager.cpp:1406-1429 | the loop answers true exactly when every Prerequisite connection's source is Completed |
| Manager.NodeSystemManager.constructor | MyProject/Private/Nodes/NodeSystemManager.cpp:19-35 | a new manager is consistent and empty, with no scene, at most 50 nodes per scene and auto-registration on |
| Manager.NodeSystemManager.GetNode | MyProject/Private/Nodes/NodeSystemManager.cpp:410-417 | a node is found exactly when its id is registered, and is the node registered under that id |
| Manager.NodeSystemManager.GetNodesByType | MyProject/Private/Nodes/NodeSystemManager.cpp:419-427 | under a consistent index the answer is exactly the registered nodes of the type, each once |
| Manager.NodeSystemManager.GetNodesByTag | MyProject/Private/Nodes/NodeSystemManager.cpp:444-455 | under a consistent index the answer is exactly the registered nodes with the tag, each once |
| Manager.NodeSystemManager.GetConnectionsForNode | MyProject/Private/Nodes/NodeSystemManager.cpp:718-725 | under a consistent index the answer is exactly the indexed connections with an endpoint of that id |
| Manager.NodeSystemManager.GetOutgoingConnections | MyProject/Private/Nodes/NodeSystemManager.cpp:727-744 | the answer is exactly the indexed connections whose source has the id |
| Manager.NodeSystemManager.GetIncomingConnections | MyProject/Private/Nodes/NodeSystemManager.cpp:746-763 | the answer is exactly the indexed connections whose target has the id |
| Manager.NodeSystemManager.GetConnection | MyProject/Private/Nodes/NodeSystemManager.cpp:699-716 | the found connection is listed under the source id and ends at the target id; none is found exactly when no listed connection does |
| Manager.NodeSystemManager.UpdateNodeTypeMap | MyProject/Private/Nodes/NodeSystemManager.cpp:1510-1538 | the node is filed under its type or taken out of that list |
| Manager.NodeSystemManager.UpdateNodeTagMap | MyProject/Private/Nodes/NodeSystemManager.cpp:1540-1573 | the node is filed under every one of its tags or taken out of each |
| Manager.NodeSystemManager.RegisterNode | MyProject/Private/Nodes/NodeSystemManager.cpp:324-366 | accepted exactly for a node with a non-empty unregistered id; it is then registered, indexed by type and tags and listed as active iff Active; a refusal changes nothing; the manager stays consistent |
| Manager.NodeSystemManager.CreateConnection | MyProject/Private/Nodes/NodeSystemManager.cpp:501-578 | refused exactly for a missing end or a self-connection; an existing connection between the ids is returned unchanged; otherwise a new one built from the relation data is filed under both ends and is what the lookup finds |
| Manager.NodeSystemManager.FileConnection | MyProject/Private/Nodes/NodeSystemManager.cpp:501-578 | the new connection is filed under its endpoints and listed as active, and the index stays consistent |
| Manager.NodeSystemManager.CreateConnectionBetween | MyProject/Private/Nodes/NodeSystemManager.cpp:580-597 | refused exactly when an id is unregistered or both are the same; otherwise as creating a one-way weight-1 connection between the two registered nodes |
| Manager.NodeSystemManager.RemoveConnection | MyProject/Private/Nodes/NodeSystemManager.cpp:599-644 | the connection leaves every list of the index and the active list, and the answer is whether its source's id was listed; the index stays consistent |
| Manager.NodeSystemManager.RemoveEach | MyProject/Private/Nodes/NodeSystemManager.cpp:646-696 | every connection of the list leaves the index and the active list; the count is the number removed, all of them when each was filed once |
| Manager.NodeSystemManager.CollectConnecting | MyProject/Private/Nodes/NodeSystemManager.cpp:646-673 | the loop collects exactly the connections joining the two nodes, each once |
| Manager.NodeSystemManager.RemoveConnectionsBetween | MyProject/Private/Nodes/NodeSystemManager.cpp:646-673 | every connection joining the two nodes is removed and counted, and afterwards none joins them |
| Manager.NodeSystemManager.RemoveAllConnectionsForNode | MyProject/Private/Nodes/NodeSystemManager.cpp:675-696 | every connection filed under the id is removed and afterwards no indexed connection touches a node of that id |
| Manager.NodeSystemManager.ForgetNode | MyProject/Private/Nodes/NodeSystemManager.cpp:374-407 | the node's id leaves the registry and the node leaves both indices and the active list |
| Manager.NodeSystemManager.UnregisterNode | MyProject/Private/Nodes/NodeSystemManager.cpp:374-407 | accepted exactly for a registered node; it is then forgotten with all its connections; a refusal changes nothing |
| Manager.NodeSystemManager.UnregisterNodeByID | MyProject/Private/Nodes/NodeSystemManager.cpp:368-372 | accepted exactly for a registered id, which then leaves the registry and no connection touches it any more |
| Manager.NodeSystemManager.GetNodesByState | MyProject/Private/Nodes/NodeSystemManager.cpp:429-442 | the answer holds exactly the registered nodes in the state |
| Manager.NodeSystemManager.ExecuteNodeQuery | MyProject/Private/Nodes/NodeSystemManager.cpp:859-920 | the answer holds exactly the registered nodes that pass the type, state, distance and inactive filters |
| Manager.NodeSystemManager.FindNodesWithCapability | MyProject/Private/Nodes/NodeSystemManager.cpp:477-498 | nothing for an absent class; otherwise exactly the registered items holding a capability of the class |
| Manager.NodeSystemManager.GetConnectedNodes | MyProject/Private/Nodes/NodeSystemManager.cpp:765-783 | the answer is the set of nodes the node's connections of the type lead to, each once |
| Manager.NodeSystemManager.FindPath | MyProject/Private/Nodes/NodeSystemManager.cpp:922-977 | empty for a missing endpoint or a start equal to the end; a non-empty answer is a path from start to end along valid connections and no path has fewer nodes; an empty answer otherwise means no path exists |
| Manager.NodeSystemManager.SetActiveScene | MyProject/Private/Nodes/NodeSystemManager.cpp:786-810 | refused exactly for a missing scene; otherwise the scene is the active one and activated, and a different previous scene is deactivated |
| Manager.NodeSystemManager.QueueNodeGeneration | MyProject/Private/Nodes/NodeSystemManager.cpp:836-839 | the request joins the back of the node queue |
| Manager.NodeSystemManager.QueueConnectionGeneration | MyProject/Private/Nodes/NodeSystemManager.cpp:841-844 | the request joins the back of the relation queue |
| Manager.NodeSystemManager.ClearGenerationQueues | MyProject/Private/Nodes/NodeSystemManager.cpp:852-856 | both queues are emptied |
| Manager.NodeSystemManager.ProcessConnectionGeneration | MyProject/Private/Nodes/NodeSystemManager.cpp:1306-1329 | an empty queue changes nothing; a front request whose ids are both registered is honoured and leaves; any other goes to the back of the queue |
| Manager.NodeSystemManager.CreateNode | MyProject/Private/Nodes/NodeSystemManager.cpp:99-289 | an actor exists exactly when a class is given; it is new and built from the spec, and it is registered exactly when auto-registration is on and its id is non-empty and free; otherwise the registry and indices are unchanged |
| Manager.NodeSystemManager.ProcessGenerationQueue | MyProject/Private/Nodes/NodeSystemManager.cpp:846-850 | one timer firing takes one node request and one connection request: the node request leaves the queue and spawns an actor exactly when the scene has room and a class is given; the connection request is linked and dropped when both ids are registered, otherwise it goes to the back of its queue |
| Manager.NodeSystemManager.LinkRelations | MyProject/Private/Nodes/NodeSystemManager.cpp:1262-1304 | afterwards every relation of the new node is honoured, and every request honoured before still is |
| Manager.NodeSystemManager.LinkOne | MyProject/Private/Nodes/NodeSystemManager.cpp:1262-1304 | the one relation is honoured afterwards and nothing honoured before is lost |
| Manager.NodeSystemManager.ProcessNodeGeneration | MyProject/Private/Nodes/NodeSystemManager.cpp:1262-1304 | one request leaves the queue; it is dropped when the active scene is full; otherwise an actor is made exactly when the spec names a class, joins the scene and has its relations honoured; the manager stays consistent |
| Manager.NodeSystemManager.GenerateNode | MyProject/Private/Nodes/NodeSystemManager.cpp:1262-1304 | an actor is made exactly when the spec names a class, and then is new, registered as far as possible, in the active scene and linked |
| Manager.NodeSystemManager.Place | MyProject/Private/Nodes/NodeSystemManager.cpp:1262-1304 | the new node joins the active scene and every relation of its spec is honoured |
| Manager.NodeSystemManager.JoinScene | MyProject/Private/Nodes/NodeSystemManager.cpp:1262-1304 | the new node is a child of the active scene, if there is one |
| Manager.NodeSystemManager.ResetSystem | MyProject/Private/Nodes/NodeSystemManager.cpp:1086-1119 | afterwards nothing is registered, indexed, connected, active or queued, no scene is active, and the settings are kept |
| Manager.NodeSystemManager.UnregisterAll | MyProject/Private/Nodes/NodeSystemManager.cpp:1086-1119 | every registered node is unregistered, which empties the registry |
| Manager.NodeSystemManager.UpdateNodeIndices | MyProject/Private/Nodes/NodeSystemManager.cpp:1331-1352 | both indices are rebuilt to list exactly the registered nodes under their keys |
| Manager.NodeSystemManager.RebuildTypeIndex | MyProject/Private/Nodes/NodeSystemManager.cpp:1331-1352 | the type index lists exactly the registered nodes under their types |
| Manager.NodeSystemManager.RebuildTagIndex | MyProject/Private/Nodes/NodeSystemManager.cpp:1331-1352 | the tag index lists exactly the registered nodes under their tags |
| Manager.NodeSystemManager.CleanupInvalidReferences | MyProject/Private/Nodes/NodeSystemManager.cpp:1354-1398 | only the live registry entries remain, only the lists holding a live connection remain, and the indices are rebuilt to match |
| Manager.NodeSystemManager.RemoveConnections | MyProject/Private/Nodes/NodeSystemManager.cpp:1121-1174 | every listed connection leaves the index and the active list |
| Manager.NodeSystemManager.DropDeadNodes | MyProject/Private/Nodes/NodeSystemManager.cpp:1121-1174 | only the live registry entries remain, and the answer says whether a dead one was found |
| Manager.NodeSystemManager.DropBrokenConnections | MyProject/Private/Nodes/NodeSystemManager.cpp:1121-1174 | every dead or invalid connection is removed, the answer says whether one was found, and nothing new is listed |
| Manager.NodeSystemManager.ValidateSystem | MyProject/Private/Nodes/NodeSystemManager.cpp:1121-1174 | the answer is true exactly when every registered node is live and every indexed connection is live and valid; then nothing changes; otherwise dead entries and broken connections are gone |
| Manager.NodeSystemManager.Listeners | MyProject/Private/Nodes/NodeSystemManager.cpp:1466-1498 | the listeners of a node are indexed connections under its id of which it is an endpoint |
| Manager.NodeSystemManager.CheckPrerequisites | MyProject/Private/Nodes/NodeSystemManager.cpp:1406-1429 | true exactly for a present node whose incoming Prerequisite connections all come from Completed nodes |
| Manager.NodeSystemManager.TrackActive | MyProject/Private/Nodes/NodeSystemManager.cpp:1177-1214 | the node is in the active list afterwards exactly when the new state is Active, and nothing is listed twice |
| Manager.NodeSystemManager.ChangeState | MyProject/Private/Nodes/InteractiveNode.cpp:112-125 | setting the current state changes nothing; a real change is recorded first in the node's broadcast log, and every other log only grows |
| Manager.NodeSystemManager.Broadcast | MyProject/Private/Nodes/InteractiveNode.cpp:276-279 | a state change reaches the manager first, which on completion runs the unlock rule over the outgoing connections, then every listening connection in order, each applying its propagation to the states the previous handlers left |
| Manager.NodeSystemManager.NotifyManager | MyProject/Private/Nodes/NodeSystemManager.cpp:1466-1476 | the manager hears a change only of a node it registered; on completion it runs the unlock rule over the outgoing connections, and otherwise no node changes |
| Manager.NodeSystemManager.NotifyListeners | MyProject/Private/Nodes/NodeConnection.cpp:556-574 | every connection listening to the node handles the change in turn, each step following the propagation table on the states the previous one left |
| Manager.NodeSystemManager.NotifyAt | MyProject/Private/Nodes/NodeConnection.cpp:601-625 | one more listener handles the change, extending the record of handled steps by one |
| Manager.NodeSystemManager.OnNodeStateChanged | MyProject/Private/Nodes/NodeSystemManager.cpp:1177-1214 | the active list follows a non-completed state and nothing else changes; a completed node runs the unlock rule once per outgoing connection, in order, each step unlocking exactly the targets that rule allows |
| Manager.NodeSystemManager.UnlockDependent | MyProject/Private/Nodes/NodeSystemManager.cpp:1431-1463 | the target of a Prerequisite or Dependency connection goes from Locked to Active, and logs that change, exactly when before the call it was Locked with its prerequisites met; otherwise nothing changes |
| Manager.NodeSystemManager.ActivateDependentNodes | MyProject/Private/Nodes/NodeSystemManager.cpp:1431-1463 | the unlock rule is applied to every outgoing connection of the completed node, in order, each step seeing the states the previous ones left |
| Manager.NodeSystemManager.UnlocksAgree | MyProject/Private/Nodes/NodeSystemManager.cpp:1441-1460 | the unlock rule read on the live nodes and on their snapshot agree |
| Manager.NodeSystemManager.HandleNodeStateChange | MyProject/Private/Nodes/NodeConnection.cpp:601-625 | a connection that cannot carry the state, or waits for an activation delay, changes nothing; otherwise the far node takes the propagated state and logs the change whenever that state is new to it, as the propagation table says |
| Manager.NodeSystemManager.EffectAgrees | MyProject/Private/Nodes/NodeConnection.cpp:601-625 | the effect of a connection read on a snapshot of its nodes is its propagation, or none while an activation delay is pending |
| Manager.NodeSystemManager.OnConnectionStateChanged | MyProject/Private/Nodes/NodeSystemManager.cpp:1243-1259 | the active list holds the connection exactly when it is active, and no other connection's membership changes |
| PathSearch.ClosedHoldsPath | MyProject/Private/Nodes/NodeSystemManager.cpp:922-977 | a path that starts inside a set that no move leaves ends inside it, which is why an exhausted search proves the goal unreachable |
| PathSearch.StepInEndpoints | MyProject/Private/Nodes/NodeSystemManager.cpp:922-977 | every move of the search lands on an endpoint of an indexed connection, so the search ranges over finitely many nodes |
| PathSearch.PathDepth | MyProject/Private/Nodes/NodeSystemManager.cpp:922-977 | no path from the start reaches a visited node in fewer moves than its depth |
| PathSearch.Dequeue | MyProject/Private/Nodes/NodeSystemManager.cpp:922-977 | taking a non-goal node off the front of the queue opens it for expansion and keeps the search state |
| PathSearch.Discover | MyProject/Private/Nodes/NodeSystemManager.cpp:966-973 | recording an unvisited neighbour with the expanded node as predecessor, one move deeper, keeps the search state |
| PathSearch.DiscoverFrontier | MyProject/Private/Nodes/NodeSystemManager.cpp:966-973 | a newly discovered node joins the back of the queue and is an endpoint of the connection that leads to it |
| PathSearch.DiscoverRecorded | MyProject/Private/Nodes/NodeSystemManager.cpp:966-973 | a newly discovered node records the expanded node as predecessor, one move closer to the start |
| PathSearch.DiscoverLayered | MyProject/Private/Nodes/NodeSystemManager.cpp:966-973 | a newly discovered node is one deeper than the expanded node, which keeps the queue ordered by depth and every move at most one deeper |
| PathSearch.CloseCurrent | MyProject/Private/Nodes/NodeSystemManager.cpp:922-977 | once every neighbour of the expanded node is visited, the node is closed |
| PathSearch.Exhausted | MyProject/Private/Nodes/NodeSystemManager.cpp:922-977 | when the queue runs empty without meeting the goal, no path from the start reaches the goal |
| PathSearch.GoalInQueue | MyProject/Private/Nodes/NodeSystemManager.cpp:922-977 | when the goal reaches the front of the queue, the predecessors lead back from it to the start |
| PathSearch.Expand | MyProject/Private/Nodes/NodeSystemManager.cpp:922-977 | expanding a node visits, queues and records every unvisited node one move away and closes the node |
| PathSearch.Begin | MyProject/Private/Nodes/NodeSystemManager.cpp:922-977 | the search starts with the start node alone visited and queued |
| PathSearch.Round | MyProject/Private/Nodes/NodeSystemManager.cpp:922-977 | one round takes the front of the queue, which is then done, and keeps the search state |
| PathSearch.Search | MyProject/Private/Nodes/NodeSystemManager.cpp:922-977 | breadth-first search either finds the goal with predecessors tracing back to the start and a depth that no path beats, or proves that no path reaches the goal |
| PathSearch.PathCons | MyProject/Private/Nodes/NodeSystemManager.cpp:922-977 | a path extends backwards by one move into its first node |
| PathSearch.ShortestPath | MyProject/Private/Nodes/NodeSystemManager.cpp:922-977 | the search and the rebuilding together give a path from start to goal with as few nodes as any other, or nothing exactly when no path exists |
| Converter.StringToNodeType | MyProject/Private/Utils/SimpleNodeDataConverter.cpp:174-194 | the result is never Custom, and is Item exactly when the text names none of scene, trigger and story, in any case |
| Converter.NodeTypeNameParses | MyProject/Private/Utils/SimpleNodeDataConverter.cpp:174-194 | every node kind but Custom reads back from its name in any case; "custom" reads as an item |
| Converter.StringToNodeState | MyProject/Private/Utils/SimpleNodeDataConverter.cpp:196-220 | a state other than the Inactive fallback is only read from its own name, in any case |
| Converter.NodeStateNameParses | MyProject/Private/Utils/SimpleNodeDataConverter.cpp:196-220 | every state reads back from its name in any case |
| Converter.StringToRelationType | MyProject/Private/Utils/SimpleNodeDataConverter.cpp:222-250 | no text ever reads as Emotional |
| Converter.RelationTypeNameParses | MyProject/Private/Utils/SimpleNodeDataConverter.cpp:222-250 | every relation kind but Emotional reads back from its name in any case; "emotional" reads as Dependency |
| Converter.StringToInteractionType | MyProject/Private/Utils/SimpleNodeDataConverter.cpp:358-386 | a kind other than the Click fallback is only read from its own name, in any case |
| Converter.InteractionTypeNameParses | MyProject/Private/Utils/SimpleNodeDataConverter.cpp:358-386 | every interaction kind reads back from its name in any case |
| Converter.InteractionTypesOf | MyProject/Private/Utils/SimpleNodeDataConverter.cpp:338-356 | the kinds a list yields are exactly those of its kept elements, each once |
| Converter.ClickOnlyFromItsName | MyProject/Private/Utils/SimpleNodeDataConverter.cpp:338-356 | Click is only kept from an element that names it |
| Converter.ParseInteractionTypes | MyProject/Private/Utils/SimpleNodeDataConverter.cpp:338-356 | the loop yields each kept kind once, in order of first appearance |
| Converter.Accepted | MyProject/Private/Utils/SimpleNodeDataConverter.cpp:9-65 | the accepted values are exactly those of the present elements that parse, and there are no more of them than elements |
| Converter.AcceptedEmpty | MyProject/Private/Utils/SimpleNodeDataConverter.cpp:9-65 | nothing is accepted exactly when no present element parses |
| Converter.Collect | MyProject/Private/Utils/SimpleNodeDataConverter.cpp:9-65 | the loop over an array field adds exactly the accepted values, in order |
| Converter.StringEntries | MyProject/Private/Utils/SimpleNodeDataConverter.cpp:288-336 | the entries kept from a JSON object are exactly its string-valued ones, with their values |
| Converter.ParseInteractiveConfig | MyProject/Private/Utils/SimpleNodeDataConverter.cpp:288-336 | string-valued dialogue options and observable infos are kept exactly, and a given attempt limit replaces the default |
| Converter.ParseCapability | MyProject/Private/Utils/SimpleNodeDataConverter.cpp:252-286 | exactly the interactive and spatial kinds are accepted, with id `<type>_capability`, no class and auto-activation on; a spatial capability keeps the default interaction record |
| Converter.ParseNode | MyProject/Private/Utils/SimpleNodeDataConverter.cpp:80-135 | a node object is accepted exactly when it has an id and a name, which it keeps; no class is set and only interactive or spatial capabilities are attached |
| Converter.ParseNodeObject | MyProject/Private/Utils/SimpleNodeDataConverter.cpp:80-135 | the object is accepted exactly as above, and its node type is never Custom |
| Converter.ParseRelation | MyProject/Private/Utils/SimpleNodeDataConverter.cpp:137-162 | a relation is accepted exactly when both ids are non-empty, which it keeps; it is never Emotional, weight 1 and one-way by default |
| Converter.ConvertJSONToNodeData | MyProject/Private/Utils/SimpleNodeDataConverter.cpp:9-65 | a document that does not parse fails and keeps the outputs; otherwise the outputs are the accepted node and relation objects in order, and the call succeeds exactly when some node is accepted |
| Spawning.ConfiguredIdKept | MyProject/Private/Nodes/NodeSystemManager.cpp:154-283 | a capability for which no entry gives a non-empty id keeps its id |
| Spawning.ConfiguredIdLast | MyProject/Private/Nodes/NodeSystemManager.cpp:154-283 | with some non-empty id given for a kind, the capability ends with the last one given |
| Spawning.ConfiguredKeys | MyProject/Private/Nodes/NodeSystemManager.cpp:154-283 | the kinds held after the loop are the earlier ones plus the requested ones; the None kind is never touched |
| Spawning.ConfiguredSeed | MyProject/Private/Nodes/NodeSystemManager.cpp:154-283 | each requested kind ends with the last non-empty id given for it (else its earlier id or class name) and switched on iff an entry asked or it already was |
| Spawning.ConfiguredKinds | MyProject/Private/Nodes/NodeSystemManager.cpp:154-283 | the capability loop's outcome kind by kind: held kinds, their ids and their switches, as the entries decide |
| Spawning.NewItemCapabilities | MyProject/Private/Nodes/NodeSystemManager.cpp:154-283 | on a new auto-activating item, the loop leaves one switched-on capability per requested kind, named by the last id given for it or its class name |
| Spawning.ApplyEntryTwice | MyProject/Private/Nodes/NodeSystemManager.cpp:154-283 | one entry is the capability being found or made, then given the entry's id and switch |
| Spawning.ConfigureOne | MyProject/Private/Nodes/NodeSystemManager.cpp:154-283 | one entry changes the item exactly as the profile update says, adding at most one fresh capability |
| Spawning.FindOrAdd | MyProject/Private/Nodes/ItemNode.cpp:50-78 | the capability of the kind is the cached one, or a fresh one named after its class and switched on iff the item auto-activates |
| Spawning.AddNew | MyProject/Private/Nodes/ItemNode.cpp:50-78 | a kind the item lacks gets one fresh capability, appended and cached under that kind |
| Spawning.CachedAppend | MyProject/Private/Nodes/ItemNode.cpp:80-101 | appending a capability of a new kind and caching it keeps every capability cached under its kind |
| Spawning.Apply | MyProject/Private/Nodes/NodeSystemManager.cpp:187-281 | the entry's non-empty id replaces the capability's id and its activation request switches it on |
| Spawning.ConfigureCapabilities | MyProject/Private/Nodes/NodeSystemManager.cpp:154-283 | the loop leaves the item holding its earlier capabilities plus one per requested kind, each with the id and switch the entries give in order |
| Validation.LiveRegistryKeepsKeys | MyProject/Private/Nodes/NodeSystemManager.cpp:1121-1174 | dropping dead entries keeps the registry keyed by node id and free of the empty id, and keeps exactly the live entries |
| Validation.AllLiveRegistry | MyProject/Private/Nodes/NodeSystemManager.cpp:1121-1174 | when every node is alive nothing is dropped |
| Validation.AllLiveBuckets | MyProject/Private/Nodes/NodeSystemManager.cpp:1354-1398 | when every listed connection is alive no connection list is dropped |
| Validation.LiveBucketsMeans | MyProject/Private/Nodes/NodeSystemManager.cpp:1354-1398 | a connection list is kept exactly when it holds a live connection |
| Validation.CollectDeadIds | MyProject/Private/Nodes/NodeSystemManager.cpp:1121-1174 | the scan lists exactly the ids of dead registry entries, each once |
| Validation.RemoveKeys | MyProject/Private/Nodes/NodeSystemManager.cpp:1121-1174 | removing each listed id in turn removes them all |
| Validation.CollectBroken | MyProject/Private/Nodes/NodeSystemManager.cpp:1121-1174 | the scan lists exactly the broken indexed connections, each once |
| Validation.CollectBrokenIn | MyProject/Private/Nodes/NodeSystemManager.cpp:1121-1174 | one list's broken connections are added to the collection, each once, keeping what was there |
| Validation.CollectLifelessBuckets | MyProject/Private/Nodes/NodeSystemManager.cpp:1354-1398 | the scan lists exactly the ids whose connection list holds no live connection |
| Validation.RemovalStep | MyProject/Private/Nodes/NodeSystemManager.cpp:1121-1174 | removing one more connection from the index and the active list is removing it along with the ones removed before |
| StateCapabilities.NextState | MyProject/Private/Nodes/Capabilities/StateCapability.cpp:130-148 | the state picked next is always one of the possible states |
| StateCapabilities.NextFromAbsent | MyProject/Private/Nodes/Capabilities/StateCapability.cpp:130-148 | from a state outside the cycle the first pick is the first possible state |
| StateCapabilities.NextOfDistinct | MyProject/Private/Nodes/Capabilities/StateCapability.cpp:130-148 | with distinct possible states each use moves to the next one, wrapping from the last to the first |
| StateCapabilities.CycleVisitsAll | MyProject/Private/Nodes/Capabilities/StateCapability.cpp:130-148 | with distinct possible states, repeated uses from the first state visit every state once and return to the first after a full round |
| StateCapabilities.AppearanceIndexIsOrdinal | MyProject/Private/Nodes/Capabilities/StateCapability.cpp:494-522 | the appearance slot of a state is its declared value, so the five states use five distinct slots |
| StateCapabilities.StateByte | MyProject/Private/Nodes/Capabilities/StateCapability.cpp:392-424 | a configured state value is stored as an unsigned byte, 0..255 |
| StateCapabilities.StateByteReadsOrdinal | MyProject/Private/Nodes/Capabilities/StateCapability.cpp:392-424 | a state's value written in decimal is stored back as that value |
| StateCapabilities.UnlocksIsPropagation | MyProject/Private/Nodes/Capabilities/StateCapability.cpp:362-382 | along a Dependency connection, unlocking the target is exactly the connection's own propagation, which makes the target Active |
| StateCapabilities.UnlockedWereLocked | MyProject/Private/Nodes/Capabilities/StateCapability.cpp:362-382 | only Locked targets are unlocked, and only by a Completed state |
| StateCapabilities.PropagateDependencies | MyProject/Private/Nodes/Capabilities/StateCapability.cpp:362-382 | over the owner's connections, exactly the targets unlocked become Active and every other target keeps its state |
| StateCapabilities.ConfigKeysSelect | MyProject/Private/Nodes/Capabilities/StateCapability.cpp:392-424 | each field name selects its field in any case, and a `TargetNode_` key selects the node id after the prefix |
| StateCapabilities.StateCapability.constructor | MyProject/Private/Nodes/Capabilities/StateCapability.cpp:15-45 | the defaults: cycle Active, Inactive, Completed; internal state Inactive; half-second transitions; radius 500; dependency propagation on; no conditions |
| StateCapabilities.StateCapability.AddStateCondition | MyProject/Private/Nodes/Capabilities/StateCapability.cpp:304-307 | the condition is set and every other condition is kept |
| StateCapabilities.StateCapability.RemoveStateCondition | MyProject/Private/Nodes/Capabilities/StateCapability.cpp:309-312 | the condition is gone and every other condition is kept |
| StateCapabilities.StateCapability.OnOwnerStateChanged | MyProject/Private/Nodes/Capabilities/StateCapability.cpp:150-162 | the internal state follows the owner's state and the base hook switches the capability as for any capability |
| StateCapabilities.StateCapability.FinishTransition | MyProject/Private/Nodes/Capabilities/StateCapability.cpp:590-607 | the transition is over |
| StateCapabilities.StateCapability.ChangeOwnState | MyProject/Private/Nodes/Capabilities/StateCapability.cpp:164-195 | nothing happens without an owner, for the current state or for an unavailable state; otherwise owner and internal state take the new state, and a connected node changes only by being unlocked on completion |
| StateCapabilities.StateCapability.Use | MyProject/Private/Nodes/Capabilities/StateCapability.cpp:130-148 | the use succeeds exactly when the capability may be used, and then the internal state moves to the next in the cycle, which the owner takes on a change; a refusal changes nothing |
| StateCapabilities.StateCapability.ChangeTargetNodeState | MyProject/Private/Nodes/Capabilities/StateCapability.cpp:197-222 | an empty id or a node that is not found changes nothing; otherwise the id records the state and the node takes it |
| StateCapabilities.StateCapability.ApplyConfigValue | MyProject/Private/Nodes/Capabilities/StateCapability.cpp:392-424 | the raw pair is always kept; the field the key selects, and only that one, takes the parsed value; a `TargetNode_` key records the state byte under the node id |
| StateCapabilities.StateCapability.ApplyConfigKey | MyProject/Private/Nodes/Capabilities/StateCapability.cpp:392-424 | the field selected by the classified key takes the parsed value and no other field changes |
| StateCapabilities.NoConditionsPass | MyProject/Private/Nodes/Capabilities/StateCapability.cpp:279-302 | with no conditions `CheckStateConditions` always holds |
| StateCapabilities.RequireStateMeansState | MyProject/Private/Nodes/Capabilities/StateCapability.cpp:279-302 | a single `RequireState` condition naming a state's value passes exactly when the owner is in that state or there is no owner |
| StateCapabilities.TargetNodeConfigReadsState | MyProject/Private/Nodes/Capabilities/StateCapability.cpp:392-424 | a `TargetNode_` entry written with a state's value records that very state under the node id |
| SpatialCapabilities.ConfigKeysSelect | MyProject/Private/Nodes/Capabilities/SpatialCapability.cpp:306-331 | each of the five field names selects its own field, in any case |
| SpatialCapabilities.SpatialCapability.constructor | MyProject/Private/Nodes/Capabilities/SpatialCapability.cpp:12-36 | the defaults: a container of up to five interactive nodes, open both ways, lighting radius 1000, no teleport target, nothing contained |
| SpatialCapabilities.SpatialCapability.Use | MyProject/Private/Nodes/Capabilities/SpatialCapability.cpp:72-88 | the use succeeds exactly when the capability may be used and a clicking player is teleported; a refusal changes nothing |
| SpatialCapabilities.SpatialCapability.ContainNode | MyProject/Private/Nodes/Capabilities/SpatialCapability.cpp:105-148 | accepted exactly when containment is on, node and owner exist, the node is new and valid, there is room and the containing connection was made; it then joins the list and the map, never beyond capacity; a refusal changes nothing |
| SpatialCapabilities.SpatialCapability.ReleaseNode | MyProject/Private/Nodes/Capabilities/SpatialCapability.cpp:150-169 | succeeds exactly for a contained node, which then leaves the list and the map, handing back its connection for removal when there is an owner |
| SpatialCapabilities.SpatialCapability.ReleaseAllNodes | MyProject/Private/Nodes/Capabilities/SpatialCapability.cpp:171-185 | the container ends empty; every release succeeds exactly when no node was listed twice, and with a consistent container the map ends empty too |
| SpatialCapabilities.SpatialCapability.OnContainedNodeDestroyed | MyProject/Private/Nodes/Capabilities/SpatialCapability.cpp:434-446 | a destroyed contained node leaves the list and the map; any other node changes nothing |
| SpatialCapabilities.SpatialCapability.SetNodeAccess | MyProject/Private/Nodes/Capabilities/SpatialCapability.cpp:238-249 | an empty id changes nothing; otherwise the id's permission is set |
| SpatialCapabilities.SpatialCapability.SetTeleportTarget | MyProject/Private/Nodes/Capabilities/SpatialCapability.cpp:286-290 | the destination is fixed and teleporting to a node is switched off |
| SpatialCapabilities.SpatialCapability.SetTeleportTargetNode | MyProject/Private/Nodes/Capabilities/SpatialCapability.cpp:292-296 | teleporting goes to the node with this id |
| SpatialCapabilities.SpatialCapability.ApplyConfigValue | MyProject/Private/Nodes/Capabilities/SpatialCapability.cpp:306-331 | the raw pair is always kept; the field the key selects, and only that one, takes the parsed value; a teleport node id also switches node teleporting on |
| SpatialCapabilities.SpatialCapability.ApplyConfigKey | MyProject/Private/Nodes/Capabilities/SpatialCapability.cpp:306-331 | the field selected by the classified key takes the parsed value and no other field changes |
| SpatialCapabilities.PermissionOverrides | MyProject/Private/Nodes/Capabilities/SpatialCapability.cpp:192-219 | an explicit permission for a node decides its entry alone, without class or capacity checks |
| SpatialCapabilities.EntryAndContainmentRules | MyProject/Private/Nodes/Capabilities/SpatialCapability.cpp:192-219 | without a permission, entry needs an allowed class and room; containment never accepts the owner, a Hidden or Locked node, or a non-scene node in a scene-only container |
| InteractiveCapabilities.RemainingAttempts | MyProject/Private/Nodes/Capabilities/InteractiveCapability.cpp:363-367 | the attempts left are never negative, are zero exactly when the allowance is used up, and otherwise make up the allowance with the attempts used |
| InteractiveCapabilities.MatchCount | MyProject/Private/Nodes/Capabilities/InteractiveCapability.cpp:401-419 | the count of agreeing keys is all of them exactly when the nodes agree on every key, and zero exactly when they agree on none |
| InteractiveCapabilities.ConfigKeysSelect | MyProject/Private/Nodes/Capabilities/InteractiveCapability.cpp:451-487 | each field name selects its field in any case, and each of the `Observable_`, `Dialogue_` and `Response_` prefixes hands over exactly the id after it |
| InteractiveCapabilities.InteractiveCapability.constructor | MyProject/Private/Nodes/Capabilities/InteractiveCapability.cpp:13-39 | the defaults: three attempts, answers compared ignoring case, threshold 0.8, observation distance 1000, dialogue at "Initial", nothing stored |
| InteractiveCapabilities.InteractiveCapability.CalculateSimilarity | MyProject/Private/Nodes/Capabilities/InteractiveCapability.cpp:401-419 | the similarity is a fraction in [0, 1]; it is 1 exactly when there are keys and the nodes agree on all of them, and 0 exactly when there is no other node or they agree on none |
| InteractiveCapabilities.InteractiveCapability.AddObservableInfo | MyProject/Private/Nodes/Capabilities/InteractiveCapability.cpp:188-191 | the info is stored under the key and every other entry is kept |
| InteractiveCapabilities.InteractiveCapability.AddDialogueOption | MyProject/Private/Nodes/Capabilities/InteractiveCapability.cpp:231-235 | the option's text and response are stored under its id and every other option is kept |
| InteractiveCapabilities.InteractiveCapability.ClearDialogueHistory | MyProject/Private/Nodes/Capabilities/InteractiveCapability.cpp:237-241 | the history is empty and the dialogue is back at "Initial" |
| InteractiveCapabilities.InteractiveCapability.ProcessDialogue | MyProject/Private/Nodes/Capabilities/InteractiveCapability.cpp:193-215 | an option without a response answers "..." and changes nothing; otherwise the history gains option and response, the dialogue moves to the option, and the answer is the response |
| InteractiveCapabilities.InteractiveCapability.GiveItem | MyProject/Private/Nodes/Capabilities/InteractiveCapability.cpp:243-283 | succeeds exactly for a givable item with an owner when its connection was made; the item then stops being givable and its connection is recorded; a refusal changes nothing |
| InteractiveCapabilities.InteractiveCapability.ReceiveItem | MyProject/Private/Nodes/Capabilities/InteractiveCapability.cpp:290-309 | exactly acceptable items are received and appended; once as many items were received as are acceptable the owner is Completed, otherwise its state is kept |
| InteractiveCapabilities.InteractiveCapability.ValidateAnswer | MyProject/Private/Nodes/Capabilities/InteractiveCapability.cpp:318-361 | a known question with attempts left counts one more attempt; a correct answer is only possible with attempts left and completes the owner, which otherwise keeps its state |
| InteractiveCapabilities.InteractiveCapability.ResetAttempts | MyProject/Private/Nodes/Capabilities/InteractiveCapability.cpp:369-372 | the question's count is forgotten, so the whole allowance is available again |
| InteractiveCapabilities.InteractiveCapability.CompareWithNode | MyProject/Private/Nodes/Capabilities/InteractiveCapability.cpp:374-399 | succeeds exactly with another node, an owner, comparison keys, a similarity at the threshold or above, and the Mutual connection made |
| InteractiveCapabilities.InteractiveCapability.OnOwnerStateChanged | MyProject/Private/Nodes/Capabilities/InteractiveCapability.cpp:138-152 | on completion a configured "CompletedDialogue" becomes the "Completed" option; otherwise the dialogue is unchanged |
| InteractiveCapabilities.InteractiveCapability.Use | MyProject/Private/Nodes/Capabilities/InteractiveCapability.cpp:81-136 | refused exactly when the capability may not be used; a click succeeds exactly when there is dialogue or something to observe for an instigator; a drag succeeds exactly when an item is given away; other kinds fail |
| InteractiveCapabilities.InteractiveCapability.ApplyConfigValue | MyProject/Private/Nodes/Capabilities/InteractiveCapability.cpp:451-487 | the raw pair is always kept; the field or map entry the key selects takes the value, and nothing else changes |
| InteractiveCapabilities.InteractiveCapability.ApplyConfigKey | MyProject/Private/Nodes/Capabilities/InteractiveCapability.cpp:451-487 | the field or entry selected by the classified key takes the value and nothing else changes |
| InteractiveCapabilities.NoKeysNoSimilarity | MyProject/Private/Nodes/Capabilities/InteractiveCapability.cpp:401-419 | without comparison keys or another node the similarity is zero |
| InteractiveCapabilities.SelfIsSimilar | MyProject/Private/Nodes/Capabilities/InteractiveCapability.cpp:583-610 | the owner compared with itself is fully similar exactly when every comparison key is one of its custom properties or names the type or the state; any other key never matches |
| NarrativeRules.FirstLeastIndex | MyProject/Private/Nodes/Capabilities/NarrativeCapability.cpp:515-539 | a scan keeping the strictly lowest importance ends on the first memory of least importance |
| NarrativeRules.ForgetChoice | MyProject/Private/Nodes/Capabilities/NarrativeCapability.cpp:515-539 | the memory picked as written is a memory of least importance below MAX_int32, and nothing is picked exactly when every importance is at least MAX_int32 |
| NarrativeRules.ForgetChoiceStep | MyProject/Private/Nodes/Capabilities/NarrativeCapability.cpp:515-539 | one more scanned memory is picked exactly when it is strictly below the lowest importance seen so far |
| NarrativeRules.LeastImportant | MyProject/Private/Nodes/Capabilities/NarrativeCapability.cpp:515-539 | the memory to forget is listed, of least importance, and never empty |
| NarrativeRules.CleanedFits | MyProject/Private/Nodes/Capabilities/NarrativeCapability.cpp:727-733 | the corrected eviction ends below capacity or with nothing left, keeping only memories that were there |
| NarrativeRules.MemoryBound | MyProject/Private/Nodes/Capabilities/NarrativeCapability.cpp:471-489 | corrected: recording keeps memories non-empty, ends with the new memory at its importance, never exceeds a capacity of at least one, and ignores an empty memory |
| NarrativeRules.CleanupAsWrittenStalls | MyProject/Private/Nodes/Capabilities/NarrativeCapability.cpp:727-733 | at capacity 0 with no memories, or with one memory of importance MAX_int32 at capacity 1, the cleanup as written removes nothing and its loop never ends |
| NarrativeRules.CleanupCorrectedEnds | MyProject/Private/Nodes/Capabilities/NarrativeCapability.cpp:727-733 | in those same states the corrected eviction ends |
| NarrativeRules.Relevant | MyProject/Private/Nodes/Capabilities/NarrativeCapability.cpp:491-513 | the relevant memories are exactly the listed memories containing the context, ignoring case |
| NarrativeRules.InsertByImportance | MyProject/Private/Nodes/Capabilities/NarrativeCapability.cpp:491-513 | inserting keeps the list ordered from most to least important and adds one element |
| NarrativeRules.InsertPermutes | MyProject/Private/Nodes/Capabilities/NarrativeCapability.cpp:491-513 | inserting adds exactly the one memory and loses none |
| NarrativeRules.SortByImportance | MyProject/Private/Nodes/Capabilities/NarrativeCapability.cpp:491-513 | the sorted memories are a reordering of the input, from the most to the least important |
| NarrativeRules.UnprovidedMembers | MyProject/Private/Nodes/Capabilities/NarrativeCapability.cpp:363-400 | the unprovided ids are exactly the ids not yet provided |
| NarrativeRules.UnprovidedNoDup | MyProject/Private/Nodes/Capabilities/NarrativeCapability.cpp:363-400 | distinct clue ids leave distinct unprovided ids |
| NarrativeRules.RemainingClues | MyProject/Private/Nodes/Capabilities/NarrativeCapability.cpp:407-410 | when every clue is listed once and only distinct clues were provided, the count subtraction is exactly the number of clues not yet provided |
| NarrativeRules.NextCluesInOrderSound | MyProject/Private/Nodes/Capabilities/NarrativeCapability.cpp:363-400 | the clues handed out are unprovided, in key order, and at most the requested count, or one when the count is below one |
| NarrativeRules.OrderedIsUnordered | MyProject/Private/Nodes/Capabilities/NarrativeCapability.cpp:694-725 | an ordered match is also an unordered one, and neither accepts a difference in length |
| NarrativeRules.UnorderedIgnoresMultiplicity | MyProject/Private/Nodes/Capabilities/NarrativeCapability.cpp:694-725 | for any two elements that differ (ignoring case), unordered matching accepts a required element given twice against one copy of it beside the other, which ordered matching refuses: only membership is checked |
| NarrativeRules.TrimAll | MyProject/Private/Nodes/Capabilities/NarrativeCapability.cpp:412-447 | each element is trimmed, position by position |
| NarrativeRules.RegisteredElementsRoundTrip | MyProject/Private/Nodes/Capabilities/NarrativeCapability.cpp:449-455 | non-empty, comma-free, trimmed elements are read back unchanged from the comma list they are stored as |
| NarrativeRules.CompletionGateOpensEarly | MyProject/Private/Nodes/Capabilities/NarrativeCapability.cpp:412-447 | with two registered combinations of which only one was validated, the completion check as written already opens |
| NarrativeRules.CompletionGateCorrected | MyProject/Private/Nodes/Capabilities/NarrativeCapability.cpp:412-447 | the intended gate opens exactly once every registered combination is done, and then the gate as written is open too |
| NarrativeRules.StoryProgressBounds | MyProject/Private/Nodes/Capabilities/NarrativeCapability.cpp:204-212 | progress along the story path lies in [0, 1], is 1 exactly at the last beat and 0 exactly at the first of several |
| NarrativeRules.PlainTemplateUnchanged | MyProject/Private/Nodes/Capabilities/NarrativeCapability.cpp:680-692 | a template without braces is returned unchanged |
| NarrativeRules.VariableSubstituted | MyProject/Private/Nodes/Capabilities/NarrativeCapability.cpp:680-692 | a placeholder in otherwise brace-free text is replaced by its variable's value |
| NarrativeRules.TickQueueShape | MyProject/Private/Nodes/Capabilities/NarrativeCapability.cpp:735-770 | a corrected tick fires the leading events whose wait runs out, in queue order, and re-queues the first one still waiting with its wait shortened by the tick |
| NarrativeRules.TickAsWrittenKeepsWait | MyProject/Private/Nodes/Capabilities/NarrativeCapability.cpp:735-770 | the tick as written fires the same events, but the event that stops it goes to the back with its whole wait |
| NarrativeRules.WaitingQueueNeverFires | MyProject/Private/Nodes/Capabilities/NarrativeCapability.cpp:735-770 | as written, a queue in which every event waits longer than one tick fires nothing and comes back with the same events, all still waiting longer than a tick, so it never fires |
| NarrativeRules.LoneEventFallsDue | MyProject/Private/Nodes/Capabilities/NarrativeCapability.cpp:735-770 | with the corrected tick a lone event falls due once the ticks cover its wait |
| NarrativeRules.Requeued | MyProject/Private/Nodes/Capabilities/NarrativeCapability.cpp:225-256 | as written every due event that would trigger is queued again with the full delay |
| NarrativeRules.FiredOnce | MyProject/Private/Nodes/Capabilities/NarrativeCapability.cpp:225-256 | when due events trigger directly, every due triggerable event ends up triggered, each at most once, and nothing else fires |
| NarrativeRules.DelayedEventRequeued | MyProject/Private/Nodes/Capabilities/NarrativeCapability.cpp:735-770 | as written a delayed event that falls due is queued again with the full delay instead of firing |
| NarrativeCapabilities.ConfigKeysSelect | MyProject/Private/Nodes/Capabilities/NarrativeCapability.cpp:549-590 | each of the five field names, in any case, selects its field, and each of the Story_, Event_ and Clue_ prefixes hands over exactly the id that follows it |
| NarrativeCapabilities.StoryNodeIndex | MyProject/Private/Nodes/Capabilities/NarrativeCapability.cpp:138-181 | the search answers the first node carrying the beat as its story fragment, or -1 when no node carries it |
| NarrativeCapabilities.ActivateStoryNode | MyProject/Private/Nodes/Capabilities/NarrativeCapability.cpp:138-181 | the first Story node of the beat becomes Active and every other node keeps its state |
| NarrativeCapabilities.TrimElements | MyProject/Private/Nodes/Capabilities/NarrativeCapability.cpp:412-447 | every provided element loses its surrounding white space, in order |
| NarrativeCapabilities.CollectUnprovided | MyProject/Private/Nodes/Capabilities/NarrativeCapability.cpp:363-400 | the shuffled walk hands out only unprovided clues, at most the requested number, and stops no earlier than the saved position |
| NarrativeCapabilities.NarrativeCapability.constructor | MyProject/Private/Nodes/Capabilities/NarrativeCapability.cpp:15-46 | the defaults: story at "Start", no delay, one clue per use, order-free combinations, ten memories, all lists empty |
| NarrativeCapabilities.NarrativeCapability.LeastImportantIndex | MyProject/Private/Nodes/Capabilities/NarrativeCapability.cpp:515-539 | the scan over the memory list ends on the first memory of least importance |
| NarrativeCapabilities.NarrativeCapability.ForgetOldestMemory | MyProject/Private/Nodes/Capabilities/NarrativeCapability.cpp:515-539 | as written: the memory removed is the one picked by a scan from MAX_int32 keeping strictly lower importance, so nothing is removed when every importance is at least MAX_int32 |
| NarrativeCapabilities.NarrativeCapability.ForgetLeastImportantMemory | MyProject/Private/Nodes/Capabilities/NarrativeCapability.cpp:515-539 | corrected: a non-empty memory list always loses its first memory of least importance, and its importance entry goes with it |
| NarrativeCapabilities.NarrativeCapability.CleanupOldMemories | MyProject/Private/Nodes/Capabilities/NarrativeCapability.cpp:727-733 | corrected: memories of least importance are forgotten until the list is below capacity or empty, and the loop always ends |
| NarrativeCapabilities.NarrativeCapability.RecordImportantMemory | MyProject/Private/Nodes/Capabilities/NarrativeCapability.cpp:471-489 | corrected: an empty memory is ignored; otherwise the list is cleaned to below capacity and the memory appended with its importance |
| NarrativeCapabilities.NarrativeCapability.RecordMemory | MyProject/Private/Nodes/Capabilities/NarrativeCapability.cpp:466-469 | recording a memory is recording it with importance 1 |
| NarrativeCapabilities.NarrativeCapability.GetRelevantMemories | MyProject/Private/Nodes/Capabilities/NarrativeCapability.cpp:491-513 | the answer is a reordering of exactly the memories containing the context ignoring case, most important first |
| NarrativeCapabilities.NarrativeCapability.GetStoryProgress | MyProject/Private/Nodes/Capabilities/NarrativeCapability.cpp:204-212 | on the path, the progress lies in [0, 1] and is 1 exactly at the last beat |
| NarrativeCapabilities.NarrativeCapability.AddStoryFragment | MyProject/Private/Nodes/Capabilities/NarrativeCapability.cpp:214-223 | the fragment is stored under its beat, a new beat joins the end of the path, and the path keeps listing each beat once |
| NarrativeCapabilities.NarrativeCapability.AdvanceStory | MyProject/Private/Nodes/Capabilities/NarrativeCapability.cpp:138-181 | an empty beat or a missing owner changes nothing; otherwise the beat becomes current, the index follows it on the path, and the first Story node of the beat becomes Active |
| NarrativeCapabilities.NarrativeCapability.JumpToStoryBeat | MyProject/Private/Nodes/Capabilities/NarrativeCapability.cpp:183-193 | a beat off the path is ignored; a beat on the path becomes current with the index at its position |
| NarrativeCapabilities.NarrativeCapability.ProcessStoryAdvancement | MyProject/Private/Nodes/Capabilities/NarrativeCapability.cpp:672-678 | at the last beat or off the path nothing moves; otherwise the index goes up by exactly one and the beat follows the path |
| NarrativeCapabilities.NarrativeCapability.FireEvent | MyProject/Private/Nodes/Capabilities/NarrativeCapability.cpp:225-256 | the immediate branch marks the event triggered, records "Event: id" as a memory and adds a trigger event to the owner |
| NarrativeCapabilities.NarrativeCapability.TriggerEvent | MyProject/Private/Nodes/Capabilities/NarrativeCapability.cpp:225-256 | goes ahead exactly for a triggerable event not yet triggered; with a positive delay it is queued and not marked, otherwise it fires at once; an event is never marked twice |
| NarrativeCapabilities.NarrativeCapability.QueueEvent | MyProject/Private/Nodes/Capabilities/NarrativeCapability.cpp:258-273 | the event joins the back of the queue with its delay |
| NarrativeCapabilities.NarrativeCapability.ResetEvents | MyProject/Private/Nodes/Capabilities/NarrativeCapability.cpp:280-289 | afterwards no event counts as triggered and the queue is empty |
| NarrativeCapabilities.NarrativeCapability.TakeDueEvents | MyProject/Private/Nodes/Capabilities/NarrativeCapability.cpp:735-770 | corrected: one tick of the queue; the leading events whose wait, less the 0.1 s tick, runs out leave the queue in order as the due list, and the first event still waiting goes to the back with its wait shortened by 0.1 s while the events behind it keep theirs |
| NarrativeCapabilities.NarrativeCapability.TakeDueEventsAsWritten | MyProject/Private/Nodes/Capabilities/NarrativeCapability.cpp:735-770 | as written: a head still waiting is put back with its whole wait |
| NarrativeCapabilities.NarrativeCapability.OnEventTriggerDelayAsWritten | MyProject/Private/Nodes/Capabilities/NarrativeCapability.cpp:735-770 | as written: with a positive delay the tick marks no event triggered, since due events are sent back to the queue |
| NarrativeCapabilities.NarrativeCapability.OnEventTriggerDelay | MyProject/Private/Nodes/Capabilities/NarrativeCapability.cpp:735-770 | corrected: every due triggerable event is triggered once, the queue keeps the events still waiting, and no event is marked twice |
| NarrativeCapabilities.NarrativeCapability.AddTextTemplate | MyProject/Private/Nodes/Capabilities/NarrativeCapability.cpp:322-325 | the template is stored under its id, a new id joining the template order, which stays the key list |
| NarrativeCapabilities.NarrativeCapability.ReplaceTemplateVariables | MyProject/Private/Nodes/Capabilities/NarrativeCapability.cpp:680-692 | the loop replaces each variable's {name} placeholder, variable by variable |
| NarrativeCapabilities.NarrativeCapability.ProcessTemplate | MyProject/Private/Nodes/Capabilities/NarrativeCapability.cpp:327-336 | an unknown template gives the empty text; a known one is filled in from the variables |
| NarrativeCapabilities.NarrativeCapability.KeywordsMatch | MyProject/Private/Nodes/Capabilities/NarrativeCapability.cpp:291-320 | the keyword loop answers whether every contextual keyword is a key of the context |
| NarrativeCapabilities.NarrativeCapability.GenerateContextualText | MyProject/Private/Nodes/Capabilities/NarrativeCapability.cpp:291-320 | prefix, then the first template filled in from the context only when every keyword is present, then suffix |
| NarrativeCapabilities.NarrativeCapability.GetRemainingClueCount | MyProject/Private/Nodes/Capabilities/NarrativeCapability.cpp:407-410 | never negative, and with consistent clue lists exactly the number of unprovided clues |
| NarrativeCapabilities.NarrativeCapability.ProvideClue | MyProject/Private/Nodes/Capabilities/NarrativeCapability.cpp:338-361 | goes ahead exactly for a known clue not yet provided; it is marked once, remembered and announced, and the clue lists stay consistent |
| NarrativeCapabilities.NarrativeCapability.NextCluesInKeyOrder | MyProject/Private/Nodes/Capabilities/NarrativeCapability.cpp:363-400 | the key-order loop gives the first unprovided clues in key order, at most the requested number |
| NarrativeCapabilities.NarrativeCapability.NextCluesShuffled | MyProject/Private/Nodes/Capabilities/NarrativeCapability.cpp:363-400 | the shuffled walk starts at the saved position, hands out unprovided clues and leaves the position where it stopped |
| NarrativeCapabilities.NarrativeCapability.GetNextClues | MyProject/Private/Nodes/Capabilities/NarrativeCapability.cpp:363-400 | shuffled order when randomised, key order otherwise; every clue handed out is known and unprovided |
| NarrativeCapabilities.NarrativeCapability.ProvideClues | MyProject/Private/Nodes/Capabilities/NarrativeCapability.cpp:85-125 | handing out a list of clues provides exactly the known ones among them and loses none already provided |
| NarrativeCapabilities.NarrativeCapability.InitializeClueOrder | MyProject/Private/Nodes/Capabilities/NarrativeCapability.cpp:48-70 | in randomised mode with clues the shuffled list becomes a reordering of the clue ids; otherwise it is kept |
| NarrativeCapabilities.NarrativeCapability.RegisterCombination | MyProject/Private/Nodes/Capabilities/NarrativeCapability.cpp:449-455 | the elements are stored comma-joined and the combination starts incomplete |
| NarrativeCapabilities.NarrativeCapability.MatchesCombination | MyProject/Private/Nodes/Capabilities/NarrativeCapability.cpp:694-725 | equal length, then ignoring case either position by position or by membership, as the order setting says |
| NarrativeCapabilities.NarrativeCapability.ValidateCombination | MyProject/Private/Nodes/Capabilities/NarrativeCapability.cpp:412-447 | corrected: succeeds exactly for a known combination whose elements match; it is marked complete, and the owner completes only once every combination is complete |
| NarrativeCapabilities.NarrativeCapability.UseClues | MyProject/Private/Nodes/Capabilities/NarrativeCapability.cpp:85-125 | the clue branch succeeds exactly when a new clue was provided, which is sure in key order while clues are left |
| NarrativeCapabilities.NarrativeCapability.UseStory | MyProject/Private/Nodes/Capabilities/NarrativeCapability.cpp:85-125 | the story branch moves the index on by exactly one |
| NarrativeCapabilities.NarrativeCapability.TriggerFirstPending | MyProject/Private/Nodes/Capabilities/NarrativeCapability.cpp:85-125 | the event branch succeeds exactly when some triggerable event is pending, and then triggers or queues exactly one |
| NarrativeCapabilities.NarrativeCapability.Narrate | MyProject/Private/Nodes/Capabilities/NarrativeCapability.cpp:85-125 | story first when it can advance, then clues while any are left, then events, each branch's success as stated for it |
| NarrativeCapabilities.NarrativeCapability.Use | MyProject/Private/Nodes/Capabilities/NarrativeCapability.cpp:85-125 | refused with no cooldown exactly when CanUse fails; otherwise the cooldown starts and the story, clue or event branch runs in that order of preference |
| NarrativeCapabilities.NarrativeCapability.OnOwnerStateChanged | MyProject/Private/Nodes/Capabilities/NarrativeCapability.cpp:127-136 | only a Completed owner with auto-advance moves the story, and then by exactly one beat |
| NarrativeCapabilities.NarrativeCapability.ApplyConfigValue | MyProject/Private/Nodes/Capabilities/NarrativeCapability.cpp:549-590 | the raw pair is always kept; each recognised key changes exactly its field or entry and nothing else; the story path keeps each beat once and the clue lists stay consistent |
| NarrativeCapabilities.NarrativeCapability.AddClue | MyProject/Private/Nodes/Capabilities/NarrativeCapability.cpp:549-590 | a Clue_ entry stores the text under its id, a new id joining the clue order, and keeps the clue lists consistent |
| NarrativeCapabilities.IndexOfDistinct | MyProject/Private/Nodes/Capabilities/NarrativeCapability.cpp:183-193 | on a path listing each beat once, the beat at position k is found at k |
| NarrativeCapabilities.StoryProgressRises | MyProject/Private/Nodes/Capabilities/NarrativeCapability.cpp:204-212 | one more beat strictly raises the story progress |
| NarrativeCapabilities.NarrativeCapability.LoadAt | MyProject/Private/Nodes/Capabilities/NarrativeCapability.cpp:541-547 | one pass of the loading loop takes one more entry into the raw table and keeps every entry taken in so far loaded |
| NarrativeCapabilities.NarrativeCapability.LoadNarrativeConfig | MyProject/Private/Nodes/Capabilities/NarrativeCapability.cpp:541-547 | every entry is applied once in some order of the table: the raw table gains the whole configuration, every Story_, Event_ and Clue_ entry lands, the path keeps each beat once and the clue lists stay consistent |
| NarrativeCapabilities.NarrativeCapability.Initialize | MyProject/Private/Nodes/Capabilities/NarrativeCapability.cpp:48-70 | the owner is attached, a randomised capability with clues takes the shuffled clue ids, and the stored configuration is loaded entry by entry |
| NumericalCapabilities.ClampTo | MyProject/Private/Nodes/Capabilities/NumericalCapability.cpp:653-665 | a clamped number lies within an uncrossed range, a number already in range is kept, and with both bounds it is the engine's clamp |
| NumericalCapabilities.ClampIdempotent | MyProject/Private/Nodes/Capabilities/NumericalCapability.cpp:653-665 | clamping twice into an uncrossed range is clamping once |
| NumericalCapabilities.PredefinedAfterBounds | MyProject/Private/Nodes/Capabilities/NumericalCapability.cpp:266-290 | with health registered over [0, m], a change of health never leaves [0, max] |
| NumericalCapabilities.RaisedMaxUnreachable | MyProject/Private/Nodes/Capabilities/NumericalCapability.cpp:518-564 | as written: after a configured maximum above the registered top m, no change of health gets above m |
| NumericalCapabilities.RangeFollowsMax | MyProject/Private/Nodes/Capabilities/NumericalCapability.cpp:518-564 | corrected: with the range following the maximum, a change of health is the sum clamped to [0, max], so the maximum is reachable |
| NumericalCapabilities.DimmingShrinks | MyProject/Private/Nodes/Capabilities/NumericalCapability.cpp:278-290 | below 30% of the maximum mental state the vision radius scales in proportion, stays within [0, vision] and strictly shrinks |
| NumericalCapabilities.Percent | MyProject/Private/Nodes/Capabilities/NumericalCapability.cpp:292-300 | the share of a positive maximum in percent, within [0, 100] for an in-range value and 100 exactly at the maximum; 0 without a positive maximum |
| NumericalCapabilities.ValuePercent | MyProject/Private/Nodes/Capabilities/NumericalCapability.cpp:253-264 | the share of a non-zero maximum in percent, 0 for a zero maximum |
| NumericalCapabilities.Drained | MyProject/Private/Nodes/Capabilities/NumericalCapability.cpp:302-321 | a pool loses exactly a positive amount it covers and never goes below zero; any other request leaves it |
| NumericalCapabilities.DrainAll | MyProject/Private/Nodes/Capabilities/NumericalCapability.cpp:599-617 | a consumption pass keeps exactly the same pools |
| NumericalCapabilities.AccruedAdds | MyProject/Private/Nodes/Capabilities/NumericalCapability.cpp:150-172 | accruals add up over consecutive spans and are never negative for a non-negative rate |
| NumericalCapabilities.TickDrainAtRate | MyProject/Private/Nodes/Capabilities/NumericalCapability.cpp:150-172 | the tick path alone never drains more than the rate over the elapsed time |
| NumericalCapabilities.TimerDrainsTwice | MyProject/Private/Nodes/Capabilities/NumericalCapability.cpp:68-83 | as written: one interval of frames plus one timer firing drains twice the rate, more than the elapsed time allows |
| NumericalCapabilities.MilestoneFiresOnce | MyProject/Private/Nodes/Capabilities/NumericalCapability.cpp:619-651 | a milestone fires at most once along any run of progress values, never once already reached, and exactly once when some value reaches it |
| NumericalCapabilities.Perceived | MyProject/Private/Nodes/Capabilities/NumericalCapability.cpp:395-432 | perception keeps at most the nodes found |
| NumericalCapabilities.PerceivedMembers | MyProject/Private/Nodes/Capabilities/NumericalCapability.cpp:395-432 | a node is perceived exactly when it was found, is not the owner and is not Hidden |
| NumericalCapabilities.ConfigKeysSelect | MyProject/Private/Nodes/Capabilities/NumericalCapability.cpp:518-564 | each of the six field names, in any case, selects its field, and each of the Value_, Resource_ and Progress_ prefixes hands over exactly the id after it |
| NumericalCapabilities.ConfiguredKeepsOthers | MyProject/Private/Nodes/Capabilities/NumericalCapability.cpp:518-564 | a key naming no scalar setting leaves the scalar settings as they are |
| NumericalCapabilities.ConfiguredMaxCaps | MyProject/Private/Nodes/Capabilities/NumericalCapability.cpp:518-564 | a configured maximum caps the current value without raising it and keeps every other scalar |
| NumericalCapabilities.ConfiguredRadiusUnfloored | MyProject/Private/Nodes/Capabilities/NumericalCapability.cpp:518-564 | configuration stores a negative radius as given, unlike SetPerceptionRadius |
| NumericalCapabilities.Read | MyProject/Private/Nodes/Capabilities/NumericalCapability.cpp:190-208 | a stored number is read back; an unstored id that is not a predefined name reads 0 |
| NumericalCapabilities.RegisteredInRange | MyProject/Private/Nodes/Capabilities/NumericalCapability.cpp:216-231 | registering a value with its range keeps every stored value within its uncrossed range |
| NumericalCapabilities.WrittenReadsBack | MyProject/Private/Nodes/Capabilities/NumericalCapability.cpp:174-188 | a write reads back as the clamped number, lands within an uncrossed range, touches no other id and keeps every stored value in range |
| NumericalCapabilities.RegenAlongAt | MyProject/Private/Nodes/Capabilities/NumericalCapability.cpp:588-597 | along any visiting order without repeats, each id regenerated by its accrual from its stored number (or 0), clamped; every other id keeps its number |
| NumericalCapabilities.RegenerationComplete | MyProject/Private/Nodes/Capabilities/NumericalCapability.cpp:588-597 | whatever order the rate table is visited in, every id with an accrual regenerates and the outcome does not depend on the order |
| NumericalCapabilities.RegenAlongInRange | MyProject/Private/Nodes/Capabilities/NumericalCapability.cpp:588-597 | regeneration keeps every stored value within its uncrossed range |
| NumericalCapabilities.RegenAlongMirrors | MyProject/Private/Nodes/Capabilities/NumericalCapability.cpp:588-597 | the table only gains ids, and once anything was written health and mental state mirror the table |
| NumericalCapabilities.Regenerate | MyProject/Private/Nodes/Capabilities/NumericalCapability.cpp:588-597 | the loop visits each id with an accrual once and leaves the table the specified pass gives |
| NumericalCapabilities.ValueEntry | MyProject/Private/Nodes/Capabilities/NumericalCapability.cpp:518-564 | a Value_ entry with an empty id changes nothing; otherwise it writes the number clamped into its range |
| NumericalCapabilities.ProgressEntry | MyProject/Private/Nodes/Capabilities/NumericalCapability.cpp:518-564 | a Progress_ entry stores the progress floored at 0 and changes nothing else |
| NumericalCapabilities.ConfigAppliedTouches | MyProject/Private/Nodes/Capabilities/NumericalCapability.cpp:518-564 | corrected: each kind of entry changes only its own table or settings |
| NumericalCapabilities.ConfigAppliedKeeps | MyProject/Private/Nodes/Capabilities/NumericalCapability.cpp:518-564 | corrected: one entry keeps every stored value in its uncrossed range and every progress non-negative, and a non-negative maximum health keeps health registered over [0, max] |
| NumericalCapabilities.ConfigAlongSnoc | MyProject/Private/Nodes/Capabilities/NumericalCapability.cpp:510-516 | loading one more entry is one more application of that entry |
| NumericalCapabilities.ConfigAlongKeeps | MyProject/Private/Nodes/Capabilities/NumericalCapability.cpp:510-516 | corrected: loading a whole configuration, in any order, keeps every stored value in range and every progress non-negative |
| NumericalCapabilities.NumericalCapability.constructor | MyProject/Private/Nodes/Capabilities/NumericalCapability.cpp:12-46 | the defaults: health and mental state 100 of 100, radii 1000, 800 and 1500, affinity range [-100, 100], update interval 0.5 |
| NumericalCapabilities.NumericalCapability.GetValue | MyProject/Private/Nodes/Capabilities/NumericalCapability.cpp:190-208 | a stored number is read back; an unstored ordinary id reads 0 |
| NumericalCapabilities.NumericalCapability.UpdatePredefinedValues | MyProject/Private/Nodes/Capabilities/NumericalCapability.cpp:674-686 | health and mental state follow their stored numbers when stored |
| NumericalCapabilities.NumericalCapability.SetValue | MyProject/Private/Nodes/Capabilities/NumericalCapability.cpp:174-188 | an empty id changes nothing; otherwise the number is stored clamped to its range, reads back so, and the predefined fields follow |
| NumericalCapabilities.NumericalCapability.ClampValue | MyProject/Private/Nodes/Capabilities/NumericalCapability.cpp:653-665 | a stored number is brought into its range; an unstored id changes nothing |
| NumericalCapabilities.NumericalCapability.ModifyValue | MyProject/Private/Nodes/Capabilities/NumericalCapability.cpp:210-214 | the value read, moved by delta, is set again clamped |
| NumericalCapabilities.NumericalCapability.RegisterNewValue | MyProject/Private/Nodes/Capabilities/NumericalCapability.cpp:216-231 | an empty id changes nothing; otherwise the range is recorded and the initial number stored clamped into it |
| NumericalCapabilities.NumericalCapability.SetValueRange | MyProject/Private/Nodes/Capabilities/NumericalCapability.cpp:233-239 | the range is recorded and a stored number clamped into it |
| NumericalCapabilities.NumericalCapability.SetRegenerationRate | MyProject/Private/Nodes/Capabilities/NumericalCapability.cpp:241-251 | a non-zero rate is recorded and a zero rate removes the entry, so only acting rates are kept |
| NumericalCapabilities.NumericalCapability.GetValuePercentage | MyProject/Private/Nodes/Capabilities/NumericalCapability.cpp:253-264 | the value's share of its maximum (100 by default) in percent, 0 for a zero maximum |
| NumericalCapabilities.NumericalCapability.ModifyHealth | MyProject/Private/Nodes/Capabilities/NumericalCapability.cpp:266-276 | health moves by delta within [0, max], is stored, and at or below 0 the owner becomes Inactive; otherwise the owner is untouched |
| NumericalCapabilities.NumericalCapability.ModifyMentalState | MyProject/Private/Nodes/Capabilities/NumericalCapability.cpp:278-290 | mental state moves by delta within [0, max], is stored, and below 30% of the maximum the vision radius is dimmed |
| NumericalCapabilities.NumericalCapability.GetHealthPercentage | MyProject/Private/Nodes/Capabilities/NumericalCapability.cpp:292-295 | within [0, 100] for in-range health, 100 exactly at full health, 0 without a positive maximum |
| NumericalCapabilities.NumericalCapability.GetMentalStatePercentage | MyProject/Private/Nodes/Capabilities/NumericalCapability.cpp:297-300 | within [0, 100] for an in-range mental state, 100 exactly at the maximum, 0 without a positive maximum |
| NumericalCapabilities.NumericalCapability.ConsumeResource | MyProject/Private/Nodes/Capabilities/NumericalCapability.cpp:302-321 | succeeds exactly for a positive amount of a known resource that the pool covers; then exactly that amount is taken, else every pool is kept |
| NumericalCapabilities.NumericalCapability.ReplenishResource | MyProject/Private/Nodes/Capabilities/NumericalCapability.cpp:323-336 | a positive amount grows the pool (0 if unknown) but never past the value maximum |
| NumericalCapabilities.NumericalCapability.SetConsumptionRate | MyProject/Private/Nodes/Capabilities/NumericalCapability.cpp:348-358 | a positive rate is recorded and any other removes the entry |
| NumericalCapabilities.NumericalCapability.RegisterMilestone | MyProject/Private/Nodes/Capabilities/NumericalCapability.cpp:389-393 | the milestone and its reward are recorded |
| NumericalCapabilities.NumericalCapability.CheckAndTriggerMilestones | MyProject/Private/Nodes/Capabilities/NumericalCapability.cpp:619-651 | a milestone fires only when progress reaches it and the last checked value had not; firing records the progress and raises the reward event |
| NumericalCapabilities.NumericalCapability.SetProgress | MyProject/Private/Nodes/Capabilities/NumericalCapability.cpp:366-372 | the progress is stored floored at 0 and its milestone is checked |
| NumericalCapabilities.NumericalCapability.UpdateProgress | MyProject/Private/Nodes/Capabilities/NumericalCapability.cpp:360-364 | the progress moves by delta, floored at 0, and its milestone is checked |
| NumericalCapabilities.NumericalCapability.GetPerceptionRadius | MyProject/Private/Nodes/Capabilities/NumericalCapability.cpp:466-481 | for All, the largest of the three radii |
| NumericalCapabilities.NumericalCapability.SetPerceptionRadius | MyProject/Private/Nodes/Capabilities/NumericalCapability.cpp:447-464 | the sense's radius (all three for All) becomes the given one floored at 0 and reads back as such |
| NumericalCapabilities.NumericalCapability.PerceiveNodesInRadius | MyProject/Private/Nodes/Capabilities/NumericalCapability.cpp:395-432 | nothing without an owner or for a non-positive radius; otherwise exactly the found nodes that are not the owner and not Hidden |
| NumericalCapabilities.NumericalCapability.PerceiveNodesByType | MyProject/Private/Nodes/Capabilities/NumericalCapability.cpp:434-445 | perception within the radius of the sense |
| NumericalCapabilities.NumericalCapability.ModifyAffinity | MyProject/Private/Nodes/Capabilities/NumericalCapability.cpp:483-503 | an empty target changes nothing; otherwise the affinity moves by delta within the affinity range, and a connection is asked for exactly beyond 50 either way |
| NumericalCapabilities.NumericalCapability.Use | MyProject/Private/Nodes/Capabilities/NumericalCapability.cpp:107-131 | refused exactly when the base refuses; otherwise 20 health is restored while below the maximum, else 15 mental state, else nothing |
| NumericalCapabilities.NumericalCapability.OnOwnerStateChanged | MyProject/Private/Nodes/Capabilities/NumericalCapability.cpp:133-148 | an Active owner regenerates health at 2 per second and an Inactive one stops |
| NumericalCapabilities.NumericalCapability.InitializePredefinedValues | MyProject/Private/Nodes/Capabilities/NumericalCapability.cpp:667-672 | health and mental state are registered over [0, max] with their numbers clamped in |
| NumericalCapabilities.NumericalCapability.LoadAt | MyProject/Private/Nodes/Capabilities/NumericalCapability.cpp:510-516 | corrected: one pass of the loading loop applies one more entry |
| NumericalCapabilities.NumericalCapability.LoadNumericalConfig | MyProject/Private/Nodes/Capabilities/NumericalCapability.cpp:510-516 | corrected: every entry is applied once in some order of the table, and the raw table gains the whole configuration |
| NumericalCapabilities.NumericalCapability.Initialize | MyProject/Private/Nodes/Capabilities/NumericalCapability.cpp:48-66 | corrected: the owner is attached, the predefined values registered, then the configuration loaded, keeping values in range and progress non-negative |
| NumericalCapabilities.NumericalCapability.ProcessRegeneration | MyProject/Private/Nodes/Capabilities/NumericalCapability.cpp:588-597 | every id with a non-zero rate moves by its accrual, visiting the rate table in some order |
| NumericalCapabilities.NumericalCapability.ProcessResourceConsumption | MyProject/Private/Nodes/Capabilities/NumericalCapability.cpp:599-617 | every resource with a positive rate is consumed by its accrual, and each refusal raises that resource's depletion event |
| NumericalCapabilities.NumericalCapability.ConsumeAll | MyProject/Private/Nodes/Capabilities/NumericalCapability.cpp:599-617 | the loop consumes each amount or raises its event |
| NumericalCapabilities.NumericalCapability.ConsumeWhenDue | MyProject/Private/Nodes/Capabilities/NumericalCapability.cpp:150-172 | elapsed time accumulates until the interval is reached, then the whole accumulated time is consumed at once |
| NumericalCapabilities.NumericalCapability.TickActive | MyProject/Private/Nodes/Capabilities/NumericalCapability.cpp:150-172 | an active tick regenerates, and with AutoConsume consumes when due |
| NumericalCapabilities.NumericalCapability.TickComponent | MyProject/Private/Nodes/Capabilities/NumericalCapability.cpp:150-172 | an inactive capability changes no value; an active one regenerates over dt and with AutoConsume consumes when the interval is reached |
| NumericalCapabilities.NumericalCapability.OnResourceUpdateTimer | MyProject/Private/Nodes/Capabilities/NumericalCapability.cpp:718-725 | with AutoConsume, one consumption pass over the update interval; without it nothing changes |
| NumericalCapabilities.NumericalCapability.ApplySettingAsWritten | MyProject/Private/Nodes/Capabilities/NumericalCapability.cpp:518-564 | as written: a new maximum only caps the current value and leaves the registered range |
| NumericalCapabilities.NumericalCapability.ApplySetting | MyProject/Private/Nodes/Capabilities/NumericalCapability.cpp:518-564 | corrected: a new maximum also becomes the top of the range [0, max] registered for the value |
| NumericalCapabilities.NumericalCapability.ConfigureValue | MyProject/Private/Nodes/Capabilities/NumericalCapability.cpp:518-564 | the Value_ branch applies as ConfigApplied says |
| NumericalCapabilities.NumericalCapability.ConfigurePool | MyProject/Private/Nodes/Capabilities/NumericalCapability.cpp:518-564 | the Resource_ branch applies as ConfigApplied says |
| NumericalCapabilities.NumericalCapability.ConfigureProgress | MyProject/Private/Nodes/Capabilities/NumericalCapability.cpp:518-564 | the Progress_ branch applies as ConfigApplied says |
| NumericalCapabilities.NumericalCapability.ConfigureSetting | MyProject/Private/Nodes/Capabilities/NumericalCapability.cpp:518-564 | corrected: a scalar entry configures its setting, a new maximum health or mental state clamps the current value and also becomes the top of its registered range [0, max]; no other value, pool or progress changes |
| NumericalCapabilities.NumericalCapability.ApplyConfigValue | MyProject/Private/Nodes/Capabilities/NumericalCapability.cpp:518-564 | corrected: the key is routed by its prefix (Value_, Resource_, Progress_, then the scalar names); a value is written clamped to its registered range, a pool is set, a progress is floored at 0, a scalar setting is configured with a new maximum moving its range; the raw pair is always recorded |
| SystemRules.ConfigKeysSelect | MyProject/Private/Nodes/Capabilities/SystemCapability.cpp:606-646 | each of the five field names, in any case, selects its field, and each of the Condition_, Rule_ and Probability_ prefixes hands over exactly the id after it |
| SystemRules.FindFrom | MyProject/Private/Nodes/Capabilities/SystemCapability.cpp:678-728 | the search answers the first occurrence of the delimiter from the given position, or none when there is none |
| SystemRules.SplitAround | MyProject/Private/Nodes/Capabilities/SystemCapability.cpp:678-728 | two non-empty texts free of the delimiter's first character, joined by the delimiter, split back into exactly those two |
| SystemRules.Effective | MyProject/Private/Nodes/Capabilities/SystemCapability.cpp:491-498 | an event with no stored probability has probability 0; a stored probability in [0, 1] scaled by a non-negative modifier stays within [0, modifier] |
| SystemRules.NodeStateRule | MyProject/Private/Nodes/Capabilities/SystemCapability.cpp:678-728 | a rule NodeState:id==n holds exactly when node id is registered and its state's ordinal is n modulo 256 |
| SystemRules.ComparisonOfDigits | MyProject/Private/Nodes/Capabilities/SystemCapability.cpp:678-728 | two digit strings around '>' compare as the numbers they spell |
| SystemRules.ComparisonRule | MyProject/Private/Nodes/Capabilities/SystemCapability.cpp:678-728 | a rule a>b over two decimal numbers holds exactly when a > b |
| SystemRules.UnrecognisedRuleFails | MyProject/Private/Nodes/Capabilities/SystemCapability.cpp:678-728 | a rule in none of the three forms is false whatever the nodes, probabilities and draw |
| SystemRules.Modified | MyProject/Private/Nodes/Capabilities/SystemCapability.cpp:376-400 | the new value is stored; an existing rule without a backup has its previous value backed up, and any other backup is kept |
| SystemRules.BackupKeepsFirst | MyProject/Private/Nodes/Capabilities/SystemCapability.cpp:376-400 | however many changes a rule goes through, its backup holds its value before the first one, and the rule ends with the last value |
| SystemRules.BackedUpStep | MyProject/Private/Nodes/Capabilities/SystemCapability.cpp:192-205 | re-applying one rule with its own value backs it up unless it has a backup and leaves the rules alone |
| SystemRules.BackedUpAll | MyProject/Private/Nodes/Capabilities/SystemCapability.cpp:192-205 | once every rule is re-applied, each one has a backup: its earlier backup or its current value |
| SystemRules.RestoredStep | MyProject/Private/Nodes/Capabilities/SystemCapability.cpp:402-424 | restoring one more backed-up rule puts its backup back and drops the backup unless changes are permanent |
| SystemRules.RestoredAll | MyProject/Private/Nodes/Capabilities/SystemCapability.cpp:415-424 | after restoring every backup each rule has its first value, and only permanent backups remain |
| SystemRules.RestoreUndoes | MyProject/Private/Nodes/Capabilities/SystemCapability.cpp:376-413 | changing a rule any number of times and then restoring it gives back exactly the tables it started from; permanent changes keep the backup |
| SystemRules.Registered | MyProject/Private/Nodes/Capabilities/SystemCapability.cpp:443-457 | a registered threat is listed with a level; a known threat is left alone; a new threat without a level gets 0.5 |
| SystemRules.RegisteredIdempotent | MyProject/Private/Nodes/Capabilities/SystemCapability.cpp:443-457 | registering a threat twice is registering it once, and well-formed threats stay well formed |
| SystemRules.StillThreatened | MyProject/Private/Nodes/Capabilities/SystemCapability.cpp:790-803 | the threat timer keeps exactly the listed threats that still have a level, in order |
| SystemRules.WellFormedThreatsStay | MyProject/Private/Nodes/Capabilities/SystemCapability.cpp:790-803 | when every listed threat has a level, the timer drops none |
| SystemRules.ThreatMark | MyProject/Private/Nodes/Capabilities/SystemCapability.cpp:756-776 | the probability a threat update sets is always a probability |
| SystemRules.ThreatMarksApart | MyProject/Private/Nodes/Capabilities/SystemCapability.cpp:756-776 | two different threats never mark the same event, whatever their levels |
| SystemRules.MarkedAlongAt | MyProject/Private/Nodes/Capabilities/SystemCapability.cpp:756-803 | in any visiting order, each threat's event carries its mark's probability and every other event keeps its probability |
| SystemRules.MarkedAlongInRange | MyProject/Private/Nodes/Capabilities/SystemCapability.cpp:756-803 | marking keeps every event probability in [0, 1] |
| SystemRules.ThreatEventsAlong | MyProject/Private/Nodes/Capabilities/SystemCapability.cpp:790-803 | one event per visited threat, in the visiting order |
| SystemRules.NegativeScalePauses | MyProject/Private/Nodes/Capabilities/SystemCapability.cpp:207-237 | as written: a scale of -1 stops time even where pausing is not allowed |
| SystemRules.Scaled | MyProject/Private/Nodes/Capabilities/SystemCapability.cpp:207-237 | corrected: time is never stopped where pausing is not allowed; an accepted scale is clamped to [0, 10] and becomes the dilation with the duration running; a refused one changes nothing |
| SystemRules.ScaledAgrees | MyProject/Private/Nodes/Capabilities/SystemCapability.cpp:207-237 | wherever the corrected test lets a scale through, it acts as written |
| SystemRules.TimeRestored | MyProject/Private/Nodes/Capabilities/SystemCapability.cpp:261-271 | normal time restores the dilation saved at the start of play and stops time control with nothing remaining |
| SystemRules.CountDownBounded | MyProject/Private/Nodes/Capabilities/SystemCapability.cpp:670-676 | counting down keeps the remaining time within [0, duration], never raises it, and reaches zero once a step covers what remains |
| SystemRules.TimeAlongKeepsRunning | MyProject/Private/Nodes/Capabilities/SystemCapability.cpp:376-400 | corrected: applying rules leaves time alone unless one is a TimeFlow rule, and never stops time where pausing is not allowed |
| SystemRules.EvaluatedOnStep | MyProject/Private/Nodes/Capabilities/SystemCapability.cpp:308-314 | evaluating one more condition records its rule's truth |
| SystemRules.EvaluatedSettles | MyProject/Private/Nodes/Capabilities/SystemCapability.cpp:308-314 | after an evaluation every condition holds its rule's truth, other states are kept, and evaluating again with the same draws changes nothing |
| SystemRules.FirstRolled | MyProject/Private/Nodes/Capabilities/SystemCapability.cpp:158-190 | the event chosen is the first of the order whose draw falls below its probability, and none is chosen exactly when no draw does |
| SystemRules.ConfigKeepsRange | MyProject/Private/Nodes/Capabilities/SystemCapability.cpp:606-646 | every configuration entry keeps the event probabilities in [0, 1] |
| SystemRules.ConditionEntryLands | MyProject/Private/Nodes/Capabilities/SystemCapability.cpp:606-646 | a Condition_ entry adds its rule unevaluated and changes nothing else |
| SystemRules.RuleEntryLands | MyProject/Private/Nodes/Capabilities/SystemCapability.cpp:606-646 | a Rule_ entry sets its world rule and changes nothing else |
| SystemRules.ProbabilityEntryLands | MyProject/Private/Nodes/Capabilities/SystemCapability.cpp:606-646 | a Probability_ entry sets its event's probability to the value clamped to [0, 1] and changes nothing else |
| SystemRules.SysConfigAlongInRange | MyProject/Private/Nodes/Capabilities/SystemCapability.cpp:598-604 | loading a whole configuration keeps every event probability in [0, 1] |
| SystemCapabilities.LiveConnections | MyProject/Private/Nodes/Capabilities/SystemCapability.cpp:748-754 | exactly the valid connections are kept, in order |
| SystemCapabilities.AllValidKept | MyProject/Private/Nodes/Capabilities/SystemCapability.cpp:748-754 | connections that are all valid are kept whole |
| SystemCapabilities.LiveConnectionsSettle | MyProject/Private/Nodes/Capabilities/SystemCapability.cpp:748-754 | cleaning up twice is cleaning up once |
| SystemCapabilities.Admitted | MyProject/Private/Nodes/Capabilities/SystemCapability.cpp:560-575 | a cluster never holds more nodes than attempts, never more than the room left, and none when no room is left |
| SystemCapabilities.AdmittedKeeps | MyProject/Private/Nodes/Capabilities/SystemCapability.cpp:560-575 | a cluster holds only nodes the manager made, and when it stops short of the room left it holds every one of them |
| SystemCapabilities.EvaluateAll | MyProject/Private/Nodes/Capabilities/SystemCapability.cpp:308-314 | the loop leaves the condition states the specified evaluation gives |
| SystemCapabilities.ReapplyRules | MyProject/Private/Nodes/Capabilities/SystemCapability.cpp:192-205 | corrected: re-applying every rule with its own value, in any order, backs up each rule that had no backup and leaves the rules alone |
| SystemCapabilities.RestoreRules | MyProject/Private/Nodes/Capabilities/SystemCapability.cpp:415-424 | corrected: restoring every backup, in any order, gives each backed-up rule its first value and keeps the backups only when changes are permanent |
| SystemCapabilities.LoadEntries | MyProject/Private/Nodes/Capabilities/SystemCapability.cpp:598-604 | the loop applies every entry once, in some order of the table |
| SystemCapabilities.SystemCapability.constructor | MyProject/Private/Nodes/Capabilities/SystemCapability.cpp:13-52 | the defaults: normal time without pausing, at most 10 relations and 20 generated nodes, spawn radius 500, probability modifier 1, threats every half second |
| SystemCapabilities.SystemCapability.SetTimeScaleAsWritten | MyProject/Private/Nodes/Capabilities/SystemCapability.cpp:207-237 | as written: the pause test is made before clamping |
| SystemCapabilities.SystemCapability.SetTimeScale | MyProject/Private/Nodes/Capabilities/SystemCapability.cpp:207-237 | corrected: the time control becomes Scaled, so time is never stopped where pausing is not allowed |
| SystemCapabilities.SystemCapability.PauseTime | MyProject/Private/Nodes/Capabilities/SystemCapability.cpp:239-254 | refused where pausing is not allowed; otherwise time stops, or normal time is restored |
| SystemCapabilities.SystemCapability.RestoreNormalTime | MyProject/Private/Nodes/Capabilities/SystemCapability.cpp:261-271 | the dilation goes back to the one saved at the start of play and time control stops |
| SystemCapabilities.SystemCapability.UpdateTimeControl | MyProject/Private/Nodes/Capabilities/SystemCapability.cpp:670-676 | the remaining time counts down as CountedDown says |
| SystemCapabilities.SystemCapability.BeginPlay | MyProject/Private/Nodes/Capabilities/SystemCapability.cpp:81-114 | the dilation in force at the start of play is saved as normal time |
| SystemCapabilities.SystemCapability.EndPlay | MyProject/Private/Nodes/Capabilities/SystemCapability.cpp:116-145 | running time control ends, generated nodes are forgotten and every threat is removed |
| SystemCapabilities.SystemCapability.EvaluateCondition | MyProject/Private/Nodes/Capabilities/SystemCapability.cpp:273-286 | an unknown condition is false and records nothing; a known one records and returns its rule's truth |
| SystemCapabilities.SystemCapability.AddCondition | MyProject/Private/Nodes/Capabilities/SystemCapability.cpp:288-292 | the rule is stored and its condition starts out false |
| SystemCapabilities.SystemCapability.SetConditionState | MyProject/Private/Nodes/Capabilities/SystemCapability.cpp:294-306 | the state set is the state read back |
| SystemCapabilities.SystemCapability.EvaluateAllConditions | MyProject/Private/Nodes/Capabilities/SystemCapability.cpp:308-314 | every condition is evaluated with its own draw, whatever order the rules are visited in |
| SystemCapabilities.SystemCapability.EstablishRelation | MyProject/Private/Nodes/Capabilities/SystemCapability.cpp:316-340 | a connection is kept exactly while under the cap and when the manager made one, so the count never passes the cap |
| SystemCapabilities.SystemCapability.RemoveRelation | MyProject/Private/Nodes/Capabilities/SystemCapability.cpp:342-356 | succeeds exactly when the manager removed some connection, and then only valid connections stay listed |
| SystemCapabilities.SystemCapability.AddRelationTemplate | MyProject/Private/Nodes/Capabilities/SystemCapability.cpp:358-361 | the template is stored under its id |
| SystemCapabilities.SystemCapability.GetActiveRelationCount | MyProject/Private/Nodes/Capabilities/SystemCapability.cpp:363-374 | the number of created connections still valid |
| SystemCapabilities.SystemCapability.CleanupInvalidConnections | MyProject/Private/Nodes/Capabilities/SystemCapability.cpp:748-754 | only the valid connections stay, in their order |
| SystemCapabilities.SystemCapability.ModifyWorldRule | MyProject/Private/Nodes/Capabilities/SystemCapability.cpp:376-400 | corrected: the rule tables change as Modified says, the new value reads back, and a TimeFlow rule sets the time scale |
| SystemCapabilities.SystemCapability.RestoreOriginalRule | MyProject/Private/Nodes/Capabilities/SystemCapability.cpp:402-413 | corrected: a backed-up rule gets its first value back, and the backup is dropped unless changes may be permanent |
| SystemCapabilities.SystemCapability.RestoreAllRules | MyProject/Private/Nodes/Capabilities/SystemCapability.cpp:415-424 | corrected: every backed-up rule gets its first value back, and the backups are dropped unless changes may be permanent |
| SystemCapabilities.SystemCapability.SetThreatLevel | MyProject/Private/Nodes/Capabilities/SystemCapability.cpp:435-441 | the level is clamped to [0, 1], its event probability steered and its update event raised; probabilities and threats stay well formed |
| SystemCapabilities.SystemCapability.RegisterThreat | MyProject/Private/Nodes/Capabilities/SystemCapability.cpp:443-457 | the threats change as Registered says and stay well formed |
| SystemCapabilities.SystemCapability.UpdateThreatBehavior | MyProject/Private/Nodes/Capabilities/SystemCapability.cpp:459-476 | a threat with a level steers its event probability and raises its update event; an unknown threat changes nothing |
| SystemCapabilities.SystemCapability.RemoveAllThreats | MyProject/Private/Nodes/Capabilities/SystemCapability.cpp:478-484 | no threat is listed or has a level afterwards |
| SystemCapabilities.SystemCapability.ProcessThreatUpdate | MyProject/Private/Nodes/Capabilities/SystemCapability.cpp:756-776 | the threat's high, medium or low event gets its probability, and probabilities stay in [0, 1] |
| SystemCapabilities.SystemCapability.OnThreatUpdateTimer | MyProject/Private/Nodes/Capabilities/SystemCapability.cpp:790-803 | every threat with a level is updated once and raises its event; listed threats without a level are dropped, which never happens while threats are well formed |
| SystemCapabilities.SystemCapability.UpdateAll | MyProject/Private/Nodes/Capabilities/SystemCapability.cpp:790-803 | the update loop marks each visited threat and raises its events in order |
| SystemCapabilities.SystemCapability.SetEventProbability | MyProject/Private/Nodes/Capabilities/SystemCapability.cpp:500-503 | the probability is stored clamped to [0, 1] |
| SystemCapabilities.SystemCapability.SetRandomSeed | MyProject/Private/Nodes/Capabilities/SystemCapability.cpp:513-517 | the seed is kept |
| SystemCapabilities.SystemCapability.GenerateNode | MyProject/Private/Nodes/Capabilities/SystemCapability.cpp:519-558 | a node is generated exactly under the cap, from a known template, when the manager made one, so the count never passes the cap |
| SystemCapabilities.SystemCapability.GenerateNodeCluster | MyProject/Private/Nodes/Capabilities/SystemCapability.cpp:560-575 | the cluster is what the room left under the cap admits of the manager's answers, and it joins the generated nodes |
| SystemCapabilities.SystemCapability.RegisterNodeTemplate | MyProject/Private/Nodes/Capabilities/SystemCapability.cpp:577-583 | only an actual class is registered |
| SystemCapabilities.SystemCapability.ClearGeneratedNodes | MyProject/Private/Nodes/Capabilities/SystemCapability.cpp:585-596 | no generated node is remembered afterwards |
| SystemCapabilities.SystemCapability.ApplyConfigValue | MyProject/Private/Nodes/Capabilities/SystemCapability.cpp:606-646 | the key is routed as ConfigKeyOf reads it and applied as SysConfigApplied says; the raw pair is recorded |
| SystemCapabilities.SystemCapability.ApplySetting | MyProject/Private/Nodes/Capabilities/SystemCapability.cpp:606-646 | the scalar branches apply as SysConfigApplied says |
| SystemCapabilities.SystemCapability.ApplyEntry | MyProject/Private/Nodes/Capabilities/SystemCapability.cpp:606-646 | the condition, rule and probability branches apply as SysConfigApplied says |
| SystemCapabilities.SystemCapability.LoadSystemConfig | MyProject/Private/Nodes/Capabilities/SystemCapability.cpp:598-604 | every entry is applied once in some order of the table, the raw table gains the configuration, and probabilities stay in [0, 1] |
| SystemCapabilities.SystemCapability.Initialize | MyProject/Private/Nodes/Capabilities/SystemCapability.cpp:54-79 | the owner is attached and the stored configuration loaded |
| SystemCapabilities.SystemCapability.Use | MyProject/Private/Nodes/Capabilities/SystemCapability.cpp:158-190 | refused exactly when the base refuses; otherwise every condition is evaluated and the first event whose draw falls below its probability is raised on the owner |
| SystemCapabilities.SystemCapability.FirstToRoll | MyProject/Private/Nodes/Capabilities/SystemCapability.cpp:158-190 | the search finds the first event whose draw falls below its probability |
| SystemCapabilities.SystemCapability.OnOwnerStateChanged | MyProject/Private/Nodes/Capabilities/SystemCapability.cpp:192-205 | corrected: only a Completed owner re-applies every world rule: the rules keep their values, each gains a backup unless it had one, and TimeFlow rules set the time |

## Left out

- Rendering, UI and visuals: connection mesh, colour, scale and effects (`UpdateConnection`, `GetConnectionColor`, `UpdateVisuals`, `UpdateEffects`, `CalculateConnectionPoints`, `GetConnectionDescription`, `ShouldShowConnection`), node widgets and custom depth (`CreateNodeUI`, `UpdateNodeUI`, `SetUIVisibility`, `ShouldShowUI`, `CheckUIVisibility`), interaction prompts (`GetInteractionPrompt`, `GetBestCapabilityPrompt`, `GetCapabilityInfo`), appearance swaps (`TransformAppearance`, `RestoreOriginalAppearance`; only the appearance index of `UpdateNodeAppearance` is modelled), scene emotion and child layout (`SetSceneEmotion`, `PropagateEmotionToChildren`, `ArrangeChildNodes`). These are engine calls that have no state of the graph in them.
- MyProject/Private/Player/PlayerInteractionManager.cpp, MyProject/MyProjectCharacter.cpp, MyProject/MyProject.Build.cs and MyProject/Private/Test/JsonTest.cpp are not part of this model: they are input, camera and build plumbing.
- JSON DOM access and file reading (`LoadAndConvertJSONFile`, the `FJsonSerializer` and `TryGet*Field` calls, `ParseLocation`): the converter works on records whose strings and numbers are already extracted. The `AllowedInteractions` field that `ParseInteractiveConfig` and the manager assign is not declared in the headers and is not modelled.
- Actor spawning and world placement: `SpawnActor` in `CreateNode` and `CreateConnection` becomes a `new` object; `CreateSceneNode`, `CreateItemNode`, `SpawnNodeAtLocation`, `SpawnNodesFromData`, `SpawnNodeFromData`, `CalculateNodeSpawnLocation` and `GenerateRandomLocation` are not modelled beyond that.
- Timers: `BeginPlay`, `EndPlay` and `Tick` of the actors and components set up or clear timers. The model has the methods the timers call (`ProcessGenerationQueue`, `OnResourceUpdateTimer`, the cooldown reset, the transition end, the event-delay tick) but not the timer manager. `TransitionToScene` only arms a timer around `SetActiveScene`, and `OnStateCheckTimer`, `OnConditionCheckTimer`, `OnTimeControlEnd` are timer callbacks around modelled methods.
- Delegates: the multicast broadcast of a node state change is the manager's ordered cascade (manager handler first, then the connections in creation order). The cascade is bounded by a `fuel` count; a cycle of connections that the source would follow without end stops when the fuel runs out. Delegate registration (`RegisterNodeEvents`, `UnregisterNodeEvents`, `RegisterConnectionEvents`, `UnregisterConnectionEvents`, `RegisterCapability`, `UnregisterCapability`) is implicit in that order. `RegisterChildNode` and `UnregisterChildNode` are not modelled: a scene's `Scenes.SceneNode.OnChildNodeStateChanged` is a method of its own that the cascade never calls, so a child's state change does not reach its scene. The interaction and destruction broadcasts (`OnNodeInteracted`, `OnNodeDestroyed`, `OnChildNodeInteracted`, `OnUseSuccess`, `OnUseFailed`) only log or forward and are not modelled.
- No virtual dispatch: scene and item nodes hold a plain node. State changes made by scene, item or capability code call the base setter, which records the change on the node but does not run listeners; the hooks of scene and item children are not dispatched from the manager's cascade. `Connections.NodeConnection.PropagateInteraction` offers the interaction to the far node as a plain node.
- Re-running `Initialize` on a live node or connection: the node data and a connection's ends and type are fixed when the object is made.
- The random stream: `RollProbability`, `SetRandomSeed` and every random draw are parameters of the methods that use them; the clue shuffle of `GetNextClues` and of initialisation is a parameter that is a permutation of the clue order. In randomised mode, `Initialize` shuffles before the configuration adds clues, and the model keeps that order.
- Distances and geometry: `GetNodesInRadius` (manager and state capability), `ChangeNodesInRadius`, the query's `MaxDistance`, the range test of `ValidateInteraction`, `GetConnectionDistance`, `GetDetailLevelText`, `PerceiveNodesInRadius` and `TeleportPlayer` become parameters (the nodes found, a `tooFar` flag, whether the teleport happened).
- Floating point: values are `real`s without rounding; `%f` formatting is modelled as six decimals, the magnitude rounded half up; `FCString::Atoi` does not model 32-bit overflow.
- `TMap` keys, `FString` equality and the array searches `Contains` and `IndexOfByKey` on strings compare case-insensitively in the engine. The model uses exact comparison except where the comparison is the point of the code (configuration keys, combination matching, memory search); the members affected are listed below.
- Engine object lifetime: garbage-collector validity is modelled only as a node or connection being live in the registries; `GetNodeSystemManager` scans the world, and the manager's answers are parameters; `FGameplayTagQuery` matching is not modelled.
- Stubs: `SaveSystemState` and `LoadSystemState` (no persistence), `GetNodeHierarchy` (its body is commented out), `PropagateSystemEvent` (empty), and the interaction handlers declared in the manager's header without definitions.
- Connections made by capabilities: the narrative `CreateSequenceConnection` and `CreateEventTriggerConnection`, the numerical `CreateEmotionalConnection` (`ModifyAffinity` returns whether it would connect), the interactive `CreateTriggerConnection` and `CreateMutualConnection`, and the spatial `CreateParentConnection` and `RemoveParentConnection`. They call the manager, which is modelled on its own.
- The state capability's `ApplyStateToConnectedNodes` is never called by the source, and its dependency lookup `GetDependencyConnections` is a parameter of `PropagateDependencies`.
- Interactive capability lookups that only list or log (`GetObservationText`, `GetAvailableObservationKeys`, `GetAvailableDialogueOptions`, `GetGivableItems`, `RecordDialogueEvent`) and the empty `UpdateDialogueBranch` hook are not modelled; the configuration loops `LoadInteractionConfig`, `LoadStateConfig` and `LoadSpatialConfig` are not modelled as loops; the effect of each of their entries is that capability's `ApplyConfigValue`.
- The item capability's `ValidateOwner` (an owner is set) and `CheckPrerequisites` (always true) are folded into `CanUse`; `OnCooldownComplete` is `ResetCooldown`; `InitializeDefaultCapabilities` has no effect in the source; `NotifyCapabilitiesStateChange` is the loop inside the item's `OnStateChanged`.
- Numerical milestones are tracked only through `HasReachedMilestone` and the events they raise; the milestone bookkeeping is not part of the numerical store.
- System time control: `UpdateTimeControl` is never reached (the component has no tick), and gravity is not part of the world-rule model.
- Corrected behaviour. Where the source's own code is wrong (see "## Findings"), the operations use the corrected definition, and the members below are weaker than the code as written in exactly that respect. Each names the as-written counterpart that exhibits the difference.
- NarrativeRules.MemoryBound: about the corrected `CleanupOldMemories`, which stops once the list is below capacity or empty; as written the loop can run forever (`NarrativeRules.CleanupAsWrittenStalls`).
- NarrativeCapabilities.NarrativeCapability.RecordImportantMemory: cleans up with the corrected `CleanupOldMemories`; as written it can hang on the inputs of `NarrativeRules.CleanupAsWrittenStalls`.
- NarrativeCapabilities.NarrativeCapability.TakeDueEvents: the corrected tick keeps the shortened wait; `TakeDueEventsAsWritten` is the code as written.
- NarrativeCapabilities.NarrativeCapability.OnEventTriggerDelay: fires each due event once; `OnEventTriggerDelayAsWritten` is the code as written, which queues due events again.
- NarrativeCapabilities.NarrativeCapability.ValidateCombination: completes the owner only when every combination is validated; as written the gate opens early (`NarrativeRules.CompletionGateOpensEarly`).
- NumericalCapabilities.ConfigAppliedTouches: describes the corrected configuration, in which a new maximum health or mental state also moves its registered range; as written only the current value is capped (`NumericalCapabilities.NumericalCapability.ApplySettingAsWritten`, `NumericalCapabilities.RaisedMaxUnreachable`).
- NumericalCapabilities.ConfigAppliedKeeps: holds for the corrected configuration only; as written a raised maximum leaves the old range in place.
- NumericalCapabilities.ConfigAlongKeeps: holds for the corrected configuration only, for the same reason.
- NumericalCapabilities.NumericalCapability.LoadAt: applies one entry with the corrected configuration.
- NumericalCapabilities.NumericalCapability.LoadNumericalConfig: applies every entry with the corrected configuration.
- NumericalCapabilities.NumericalCapability.Initialize: loads the configuration with the corrected configuration.
- NumericalCapabilities.NumericalCapability.ConfigureSetting: a new maximum moves its registered range (corrected); `NumericalCapabilities.NumericalCapability.ApplySettingAsWritten` is the code as written.
- NumericalCapabilities.NumericalCapability.ApplyConfigValue: routes the scalar keys through the corrected `ApplySetting`.
- SystemRules.TimeAlongKeepsRunning: about the corrected `Scaled`, which refuses any scale that clamps to 0 where pausing is not allowed; as written a negative scale pauses time (`SystemRules.NegativeScalePauses`).
- SystemCapabilities.ReapplyRules: a TimeFlow rule goes through the corrected `Scaled`.
- SystemCapabilities.RestoreRules: a TimeFlow rule goes through the corrected `Scaled`.
- SystemCapabilities.SystemCapability.ModifyWorldRule: a TimeFlow rule sets the time through the corrected `SetTimeScale`.
- SystemCapabilities.SystemCapability.RestoreOriginalRule: a restored TimeFlow rule sets the time through the corrected `SetTimeScale`.
- SystemCapabilities.SystemCapability.RestoreAllRules: restored TimeFlow rules set the time through the corrected `SetTimeScale`.
- SystemCapabilities.SystemCapability.OnOwnerStateChanged: re-applied TimeFlow rules set the time through the corrected `SetTimeScale`.
- Per-kind capability dispatch. Without virtual dispatch, an item's capabilities are the base item capability: their `CanUse` and `Use` are the base class's (switched on, an owner that is Active, no cooldown running; a use starts the cooldown), not the kind's override. For example, an interactive capability with no dialogue and no observable information refuses use in the source but counts as used here. The members below are weaker than the source in this respect.
- Items.ItemNode.UseCapability: uses the base `CanUse`/`Use`, not the capability kind's own.
- Items.ItemNode.UseAllCapabilities: counts the capabilities the base `CanUse` accepts, which may include ones the kind's override refuses.
- Items.ItemNode.UseEach: as `UseAllCapabilities`.
- Items.ItemNode.UseIfUsable: as `UseCapability`.
- Items.ItemNode.OnInteract: whether any capability was used, and so whether the item completes, follows the base `CanUse`.
- Items.ItemNode.UseAllOrComplete: as `OnInteract`.
- Manager.NodeSystemManager.CreateNode: a requested capability gets only its id and its activation switch; the per-kind settings of MyProject/Private/Nodes/NodeSystemManager.cpp:194-258 are not applied (spatial capacity, possible states and change radius, allowed interactions, observable information, dialogue options and maximum attempts, story path, time scale and condition rules).
- Spawning.Apply: applies the id and the activation switch only, not the per-kind settings.
- Spawning.ConfigureCapabilities: as `Spawning.Apply`, for every requested capability.
- Case-insensitive identifiers. `FString` equality, `Contains` and `IndexOfByKey` ignore case in the engine. The model compares ids exactly in the members below, so two ids that differ only in case are distinct here and equal in the source.
- Nodes.InteractiveNode.AddTriggerEvent: the duplicate test compares event ids exactly.
- Items.ItemNode.AddUnlockStory: the duplicate test compares story ids exactly.
- Manager.NodeSystemManager.GetConnection: the target id is compared exactly.
- NarrativeCapabilities.NarrativeCapability.AddStoryFragment: the beat lookup on the story path is exact.
- NarrativeCapabilities.NarrativeCapability.AdvanceStory: the beat index on the path and the fragment id of the story node are compared exactly.
- NarrativeCapabilities.NarrativeCapability.JumpToStoryBeat: the beat lookup on the story path is exact.
- NarrativeCapabilities.NarrativeCapability.TriggerEvent: the triggerable list is searched exactly.
- NarrativeCapabilities.NarrativeCapability.ProvideClue: the provided-clue list is searched exactly.
- SystemCapabilities.SystemCapability.RegisterThreat: the active-threat list is searched exactly.

## Findings

| source | as written | input that shows it | evidently intended | confidence | as-written member | corrected member |
|---|---|---|---|---|---|---|
| MyProject/Private/Nodes/Capabilities/NarrativeCapability.cpp:727-733 | `CleanupOldMemories` repeats `ForgetOldestMemory` while the list holds at least MaxMemoryCount memories, but a round that finds nothing to forget removes nothing | MaxMemoryCount 0 with no memories, or one memory of importance MAX_int32 at MaxMemoryCount 1: the loop never ends | evict the least important memory until the list is below capacity, and stop when it is empty | not executed | NarrativeRules.CleanupAsWrittenStalls | NarrativeRules.CleanupCorrectedEnds |
| MyProject/Private/Nodes/Capabilities/NarrativeCapability.cpp:735-770 | the delay tick decrements a copy of the head event and then dequeues into that same copy, so the decremented wait is lost | a queue whose every event waits more than one tick interval: no tick ever lets an event fall due | the event that stops a tick goes back with its wait shortened by the tick interval, so waits run down from tick to tick: a lone event falls due once the ticks cover its wait | not executed | NarrativeRules.WaitingQueueNeverFires | NarrativeRules.LoneEventFallsDue |
| MyProject/Private/Nodes/Capabilities/NarrativeCapability.cpp:225-256 | an event that falls due is fired through `TriggerEvent`, which queues it again with the full delay because the delay is still positive | event "Bell" with delay 0.5 that falls due: it is queued once more instead of being marked triggered | a due event is triggered once, and only if it is triggerable and not yet triggered | not executed | NarrativeRules.DelayedEventRequeued | NarrativeRules.FiredOnce |
| MyProject/Private/Nodes/Capabilities/NarrativeCapability.cpp:412-447 | the owner is completed when the number of combination status entries reaches the number of registered combinations, but registering a combination already adds its entry | combinations "Altar" and "Door" with only "Altar" validated: the owner is completed | complete the owner once every registered combination is validated | not executed | NarrativeRules.CompletionGateOpensEarly | NarrativeRules.CompletionGateCorrected |
| MyProject/Private/Nodes/Capabilities/NumericalCapability.cpp:518-564 | a configured maximum health or mental state only caps the current value; the range registered at initialisation stays, so a raised maximum cannot be reached | range [0, 100] registered, maximum health then configured to 150: no change of health gets above 100 | the registered range follows the configured maximum | not executed | NumericalCapabilities.RaisedMaxUnreachable | NumericalCapabilities.RangeFollowsMax |
| MyProject/Private/Nodes/Capabilities/NumericalCapability.cpp:68-83 | `BeginPlay` starts a repeating consumption timer although `TickComponent` already consumes at the same rate | one update interval of frames followed by one timer firing: twice the rate is drained | resources drain once, at the configured rate | not executed | NumericalCapabilities.TimerDrainsTwice | NumericalCapabilities.TickDrainAtRate |
| MyProject/Private/Nodes/Capabilities/SystemCapability.cpp:207-237 | `SetTimeScale` refuses a zero scale when pausing is not allowed, but tests the scale before clamping it to [0, 10] | scale -1 with pausing not allowed: time is paused | refuse any scale that clamps to 0 unless pausing is allowed | not executed | SystemRules.NegativeScalePauses | SystemRules.Scaled |
