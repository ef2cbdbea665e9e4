/**
 * An interactive node: its state machine, its interaction gate and its
 * story-trigger bookkeeping. The three multicast events a node raises
 * (state changed, interacted, story triggered) are recorded, in order, in
 * logs held by the node; who listens to them is the business of the
 * manager, the connections and the scene.
 */
module Nodes {
  import opened Util
  import opened NodeTypes

  /** One state-change broadcast: the state before and the state after. */
  datatype StateChange = StateChange(oldState: NodeState, newState: NodeState)

  /** One story-trigger broadcast with the trigger-event list it carried. */
  datatype StoryTrigger = StoryTrigger(events: seq<string>)

  /** `ValidateInteraction`: an instigator is required, and a pawn farther than a positive range is refused. */
  predicate ValidInteraction(range: real, d: InteractionData)
  {
    d.instigator.Some? &&
    !(range > 0.0 && d.instigator.value.pawnDistance.Some? && d.instigator.value.pawnDistance.value > range)
  }

  /** `ShouldTriggerStory` of a plain node: a story fragment is set or some trigger event is listed. */
  predicate StoryPending(fragment: string, events: seq<string>)
  {
    fragment != "" || |events| > 0
  }

  /** The trigger-event list never holds an empty id nor the same id twice. */
  predicate WellFormedEvents(events: seq<string>)
  {
    NoDup(events) && forall i :: 0 <= i < |events| ==> events[i] != ""
  }

  /** `AddTriggerEvent` on the list alone. */
  function WithTriggerEvent(events: seq<string>, id: string): (r: seq<string>)
    ensures WellFormedEvents(events) ==> WellFormedEvents(r)
    ensures id != "" ==> id in r
    ensures forall i :: 0 <= i < |events| ==> events[i] in r
    ensures forall i :: 0 <= i < |r| ==> r[i] in events || r[i] == id
    ensures |r| <= |events| + 1
  {
    if id != "" && id !in events then events + [id] else events
  }

  /** Adding the same id twice adds it once. */
  lemma WithTriggerEventIdempotent(events: seq<string>, id: string)
    ensures WithTriggerEvent(WithTriggerEvent(events, id), id) == WithTriggerEvent(events, id)
  {
  }

  /** `AddTriggerEvent` applied to each of `ids` in turn. */
  function WithTriggerEvents(events: seq<string>, ids: seq<string>): seq<string>
  {
    if ids == [] then events
    else WithTriggerEvent(WithTriggerEvents(events, ids[..|ids| - 1]), ids[|ids| - 1])
  }

  lemma WithTriggerEventsSnoc(events: seq<string>, ids: seq<string>, id: string)
    ensures WithTriggerEvents(events, ids + [id]) == WithTriggerEvent(WithTriggerEvents(events, ids), id)
  {
    assert (ids + [id])[..|ids|] == ids;
  }

  /**
   * Adding several ids keeps what was there as a prefix, keeps the list
   * well formed, and leaves every non-empty added id in the list.
   */
  lemma {:induction false} WithTriggerEventsKeeps(events: seq<string>, ids: seq<string>)
    ensures events <= WithTriggerEvents(events, ids)
    ensures WellFormedEvents(events) ==> WellFormedEvents(WithTriggerEvents(events, ids))
    ensures forall i :: 0 <= i < |ids| && ids[i] != "" ==> ids[i] in WithTriggerEvents(events, ids)
  {
    if ids != [] {
      var front := ids[..|ids| - 1];
      WithTriggerEventsKeeps(events, front);
      var r := WithTriggerEvents(events, ids);
      assert r == WithTriggerEvent(WithTriggerEvents(events, front), ids[|ids| - 1]);
      forall i | 0 <= i < |ids| && ids[i] != ""
        ensures ids[i] in r
      {
        if i < |ids| - 1 {
          assert ids[i] == front[i];
        }
      }
    }
  }

  class InteractiveNode {
    /** The node description; fixed when the node is spawned and initialised. */
    const data: NodeData
    var state: NodeState
    var interactable: bool
    var interactionRange: real
    var storyFragment: string
    var triggerEvents: seq<string>
    /** Every state-change broadcast so far, oldest first. */
    var stateChanges: seq<StateChange>
    /** Every interaction broadcast so far, oldest first. */
    var interactions: seq<InteractionData>
    /** Every story-trigger broadcast so far, oldest first. */
    var storyTriggers: seq<StoryTrigger>

    ghost predicate Valid()
      reads this
    {
      WellFormedEvents(triggerEvents)
    }

    /**
     * Spawning a node and calling `Initialize` on it: the fresh node is
     * Inactive and interactable with the default range, and the initial
     * state of the data is then applied through the state setter, so a
     * non-Inactive initial state is broadcast once.
     */
    constructor(d: NodeData)
      ensures data == d && state == d.initialState
      ensures interactable && interactionRange == 100000.0
      ensures storyFragment == "" && triggerEvents == []
      ensures stateChanges == (if d.initialState == Inactive then [] else [StateChange(Inactive, d.initialState)])
      ensures interactions == [] && storyTriggers == []
      ensures Valid()
    {
      data := d;
      state := Inactive;
      interactable := true;
      interactionRange := 100000.0;
      storyFragment := "";
      triggerEvents := [];
      stateChanges := [];
      interactions := [];
      storyTriggers := [];
      new;
      SetNodeState(d.initialState);
    }

    /**
     * The single state setter: setting the current state changes nothing
     * and broadcasts nothing; any other state is stored and broadcast
     * exactly once with the old and the new state.
     */
    method SetNodeState(s: NodeState)
      modifies `state, `stateChanges
      ensures state == s
      ensures old(state) == s ==> stateChanges == old(stateChanges)
      ensures old(state) != s ==> stateChanges == old(stateChanges) + [StateChange(old(state), s)]
    {
      if state != s {
        var previous := state;
        state := s;
        stateChanges := stateChanges + [StateChange(previous, s)];
      }
    }

    /** `CanInteract`: refused when not interactable or Hidden, otherwise `ValidateInteraction` decides. */
    predicate CanInteract(d: InteractionData)
      reads this
    {
      interactable && state != Hidden && ValidInteraction(interactionRange, d)
    }

    predicate ShouldTriggerStory()
      reads this
    {
      StoryPending(storyFragment, triggerEvents)
    }

    /**
     * `OnInteract`. `extraStory` is the additional condition a subclass's
     * `ShouldTriggerStory` override ORs onto the base one (false for a
     * plain node). A refused interaction changes nothing; an accepted one
     * is broadcast, then a story trigger is raised iff a story is pending.
     */
    method OnInteract(d: InteractionData, extraStory: bool)
      modifies `interactions, `storyTriggers
      ensures !old(CanInteract(d)) ==> interactions == old(interactions) && storyTriggers == old(storyTriggers)
      ensures old(CanInteract(d)) ==> interactions == old(interactions) + [d]
      ensures old(CanInteract(d)) && (old(ShouldTriggerStory()) || extraStory) ==>
        storyTriggers == old(storyTriggers) + [StoryTrigger(triggerEvents)]
      ensures !(old(CanInteract(d)) && (old(ShouldTriggerStory()) || extraStory)) ==> storyTriggers == old(storyTriggers)
    {
      if !CanInteract(d) {
        return;
      }
      interactions := interactions + [d];
      if ShouldTriggerStory() || extraStory {
        storyTriggers := storyTriggers + [StoryTrigger(triggerEvents)];
      }
    }

    method SetStoryFragment(fragment: string)
      modifies `storyFragment
      ensures storyFragment == fragment
    {
      storyFragment := fragment;
    }

    /** `AddTriggerEvent`: empty and already-listed ids are ignored, so the list stays duplicate-free. */
    method AddTriggerEvent(id: string)
      modifies `triggerEvents
      ensures triggerEvents == WithTriggerEvent(old(triggerEvents), id)
      ensures old(Valid()) ==> Valid()
    {
      if id != "" && id !in triggerEvents {
        triggerEvents := triggerEvents + [id];
      }
    }
  }

  /** The nodes of `nodes` whose current state is `s`, in their order. */
  function NodesInState(nodes: seq<InteractiveNode>, s: NodeState): (r: seq<InteractiveNode>)
    reads set n | n in nodes
    ensures forall i :: 0 <= i < |r| ==> r[i] in nodes && r[i].state == s
    ensures forall i :: 0 <= i < |nodes| && nodes[i].state == s ==> nodes[i] in r
    ensures |r| <= |nodes|
  {
    if nodes == [] then []
    else (if nodes[0].state == s then [nodes[0]] else []) + NodesInState(nodes[1..], s)
  }

  /** The nodes of `nodes` whose data declares type `t`, in their order. */
  function NodesOfType(nodes: seq<InteractiveNode>, t: NodeType): (r: seq<InteractiveNode>)
    ensures forall i :: 0 <= i < |r| ==> r[i] in nodes && r[i].data.nodeType == t
    ensures forall i :: 0 <= i < |nodes| && nodes[i].data.nodeType == t ==> nodes[i] in r
  {
    Filter(nodes, (n: InteractiveNode) => n.data.nodeType == t)
  }

  /** A story is raised for a node with a fragment even when its event list is empty, and vice versa. */
  lemma StoryPendingEitherSource(fragment: string, events: seq<string>)
    ensures StoryPending(fragment, events) <==> (fragment != "" || events != [])
  {
  }

  /** A node with no instigator can never be interacted with, whatever its range and state. */
  lemma NoInstigatorNoInteraction(range: real, d: InteractionData)
    requires d.instigator.None?
    ensures !ValidInteraction(range, d)
  {
  }

  /** A non-positive range disables the distance check entirely. */
  lemma NonPositiveRangeIgnoresDistance(range: real, d: InteractionData)
    requires range <= 0.0 && d.instigator.Some?
    ensures ValidInteraction(range, d)
  {
  }
}
