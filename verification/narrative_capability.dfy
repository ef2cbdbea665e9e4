/**
 * The narrative capability: a story path of beats, triggerable events
 * with an optional delay queue, text templates, clues handed out in key
 * or shuffled order, element combinations to validate, and a bounded
 * memory of what happened with importance-driven eviction.
 *
 * The manager is outside the capability: the Story nodes it would be asked
 * for are passed in as `storyNodes` (empty when there is no manager), and
 * the connections it would create are not modelled. The random shuffle of
 * the clue order is a parameter. Event delays and the timer are in seconds
 * as reals.
 */
module NarrativeCapabilities {
  import opened Util
  import opened Text
  import opened NodeTypes
  import opened Nodes
  import opened Items
  import opened NarrativeRules

  /** The configuration keys the narrative capability recognises. */
  datatype ConfigKey =
    | MaxMemoryKey | MaxCluesKey | DelayKey | AutoAdvanceKey | RandomizeKey
    | StoryKey(beat: string) | EventKey(event: string) | ClueKey(clue: string)
    | OtherKey

  /**
   * How `ApplyConfigValue` reads a key: five field names compared ignoring
   * case, then the Story_, Event_ and Clue_ prefixes, which are chopped off
   * to leave the id.
   */
  function ConfigKeyOf(key: string): ConfigKey
  {
    if EqualsIgnoreCase(key, "MaxMemoryCount") then MaxMemoryKey
    else if EqualsIgnoreCase(key, "MaxCluesPerInteraction") then MaxCluesKey
    else if EqualsIgnoreCase(key, "EventTriggerDelay") then DelayKey
    else if EqualsIgnoreCase(key, "AutoAdvanceStory") then AutoAdvanceKey
    else if EqualsIgnoreCase(key, "RandomizeClueOrder") then RandomizeKey
    else if StartsWithIgnoreCase(key, "Story_") then StoryKey(RightChop(key, 6))
    else if StartsWithIgnoreCase(key, "Event_") then EventKey(RightChop(key, 6))
    else if StartsWithIgnoreCase(key, "Clue_") then ClueKey(RightChop(key, 5))
    else OtherKey
  }

  /** Every field name selects its field, and each prefix hands over exactly the id after it. */
  lemma ConfigKeysSelect(key: string, id: string)
    ensures EqualsIgnoreCase(key, "MaxMemoryCount") ==> ConfigKeyOf(key) == MaxMemoryKey
    ensures EqualsIgnoreCase(key, "MaxCluesPerInteraction") ==> ConfigKeyOf(key) == MaxCluesKey
    ensures EqualsIgnoreCase(key, "EventTriggerDelay") ==> ConfigKeyOf(key) == DelayKey
    ensures EqualsIgnoreCase(key, "AutoAdvanceStory") ==> ConfigKeyOf(key) == AutoAdvanceKey
    ensures EqualsIgnoreCase(key, "RandomizeClueOrder") ==> ConfigKeyOf(key) == RandomizeKey
    ensures ConfigKeyOf("Story_" + id) == StoryKey(id)
    ensures ConfigKeyOf("Event_" + id) == EventKey(id)
    ensures ConfigKeyOf("Clue_" + id) == ClueKey(id)
  {
    StorySelects(id);
    EventSelects(id);
    ClueSelects(id);
  }

  lemma StorySelects(id: string)
    ensures ConfigKeyOf("Story_" + id) == StoryKey(id)
  {
    var k := "Story_" + id;
    ChopPrefix("Story_", id);
    LetterApart(k, "Story_", "MaxMemoryCount", 0);
    LetterApart(k, "Story_", "MaxCluesPerInteraction", 0);
    LetterApart(k, "Story_", "EventTriggerDelay", 0);
    LetterApart(k, "Story_", "AutoAdvanceStory", 0);
    LetterApart(k, "Story_", "RandomizeClueOrder", 0);
  }

  lemma EventSelects(id: string)
    ensures ConfigKeyOf("Event_" + id) == EventKey(id)
  {
    var k := "Event_" + id;
    ChopPrefix("Event_", id);
    LetterApart(k, "Event_", "MaxMemoryCount", 0);
    LetterApart(k, "Event_", "MaxCluesPerInteraction", 0);
    LetterApart(k, "Event_", "EventTriggerDelay", 5);
    LetterApart(k, "Event_", "AutoAdvanceStory", 0);
    LetterApart(k, "Event_", "RandomizeClueOrder", 0);
    LetterApart(k, "Event_", "Story_", 0);
  }

  lemma ClueSelects(id: string)
    ensures ConfigKeyOf("Clue_" + id) == ClueKey(id)
  {
    var k := "Clue_" + id;
    ChopPrefix("Clue_", id);
    LetterApart(k, "Clue_", "MaxMemoryCount", 0);
    LetterApart(k, "Clue_", "MaxCluesPerInteraction", 0);
    LetterApart(k, "Clue_", "EventTriggerDelay", 0);
    LetterApart(k, "Clue_", "AutoAdvanceStory", 0);
    LetterApart(k, "Clue_", "RandomizeClueOrder", 0);
    LetterApart(k, "Clue_", "Story_", 0);
    LetterApart(k, "Clue_", "Event_", 0);
  }

  /** The position of the first node whose story fragment is `beat`, or -1. */
  function StoryNodeIndex(nodes: seq<InteractiveNode>, beat: string): (i: int)
    reads (set n | n in nodes)`storyFragment
    ensures -1 <= i < |nodes|
    ensures 0 <= i ==> nodes[i].storyFragment == beat
    ensures forall k :: 0 <= k < |nodes| && (i == -1 || k < i) ==> nodes[k].storyFragment != beat
  {
    if nodes == [] then -1
    else if nodes[0].storyFragment == beat then 0
    else
      var j := StoryNodeIndex(nodes[1..], beat);
      assert forall k :: 1 <= k < |nodes| ==> nodes[k] == nodes[1..][k - 1];
      if j == -1 then -1 else j + 1
  }

  /**
   * The Story-node search of `AdvanceStory`: the first node whose fragment
   * is the new beat is set Active; no other node changes.
   */
  method ActivateStoryNode(nodes: seq<InteractiveNode>, beat: string)
    modifies (set n | n in nodes)`state, (set n | n in nodes)`stateChanges
    ensures var k := StoryNodeIndex(nodes, beat);
      k >= 0 ==> (
        && nodes[k].state == Active
        && nodes[k].stateChanges == old(nodes[k].stateChanges) +
             (if old(nodes[k].state) == Active then [] else [StateChange(old(nodes[k].state), Active)]))
    ensures var k := StoryNodeIndex(nodes, beat);
      forall n :: n in nodes && (k < 0 || n != nodes[k]) ==> n.state == old(n.state) && n.stateChanges == old(n.stateChanges)
  {
    var i := 0;
    while i < |nodes|
      invariant 0 <= i <= |nodes|
      invariant forall k :: 0 <= k < i ==> nodes[k].storyFragment != beat
      invariant forall n :: n in nodes ==> n.state == old(n.state) && n.stateChanges == old(n.stateChanges)
    {
      if nodes[i].storyFragment == beat {
        nodes[i].SetNodeState(Active);
        return;
      }
      i := i + 1;
    }
  }

  /** The template variables include `key`. */
  predicate HasKey(context: seq<(string, string)>, key: string)
  {
    exists j :: 0 <= j < |context| && context[j].0 == key
  }

  /** Every contextual keyword is a key of the context. */
  predicate KeywordsPresent(keywords: seq<string>, context: seq<(string, string)>)
  {
    forall i :: 0 <= i < |keywords| ==> HasKey(context, keywords[i])
  }

  /** The trimming loop of `ValidateCombination`: every element loses its surrounding white space. */
  method TrimElements(xs: seq<string>) returns (r: seq<string>)
    ensures r == TrimAll(xs)
  {
    r := [];
    var i := 0;
    while i < |xs|
      invariant 0 <= i <= |xs| && |r| == i
      invariant forall k :: 0 <= k < i ==> r[k] == Trim(xs[k])
    {
      r := r + [Trim(xs[i])];
      i := i + 1;
    }
    ghost var t := TrimAll(xs);
    assert |t| == |r|;
    assert forall k :: 0 <= k < |r| ==> r[k] == t[k];
  }

  /**
   * The walk of the shuffled branch of `GetNextClues`: from `start`, the
   * clues not yet provided are collected until `count` are held or the
   * list ends; `index` is where the walk stopped.
   */
  method CollectUnprovided(shuffled: seq<string>, provided: seq<string>, start: nat, count: int)
    returns (next: seq<string>, index: nat)
    ensures start >= |shuffled| ==> next == [] && index == start
    ensures start < |shuffled| ==>
      && start <= index <= |shuffled|
      && next == Unprovided(shuffled[start..index], provided)
      && |next| <= Max(count, 0)
      && (index < |shuffled| ==> |next| >= count)
      && (index > start ==> |Unprovided(shuffled[start..index - 1], provided)| < count)
  {
    next := [];
    index := start;
    if start >= |shuffled| {
      return;
    }
    assert shuffled[start..start] == [];
    while |next| < count && index < |shuffled|
      invariant start <= index <= |shuffled|
      invariant next == Unprovided(shuffled[start..index], provided)
      invariant |next| <= Max(count, 0)
      invariant index > start ==> |Unprovided(shuffled[start..index - 1], provided)| < count
      decreases |shuffled| - index
    {
      var id := shuffled[index];
      UnprovidedSnoc(shuffled[start..index], id, provided);
      assert shuffled[start..index + 1] == shuffled[start..index] + [id];
      if id !in provided {
        next := next + [id];
      }
      index := index + 1;
    }
  }

  class NarrativeCapability {
    const base: ItemCapability
    var currentStoryBeat: string
    var storyPath: seq<string>
    var storyFragments: map<string, string>
    var currentStoryIndex: int
    var autoAdvanceStory: bool
    var triggerableEventIds: seq<string>
    var eventDescriptions: map<string, string>
    var triggeredEvents: seq<string>
    var eventTriggerDelay: real
    /** The delayed events, head first. */
    var eventQueue: seq<QueuedEvent>
    var textTemplates: map<string, string>
    /** The template ids in insertion order, the order the template map is walked in. */
    var templateOrder: seq<string>
    var contextualKeywords: seq<string>
    var textPrefix: string
    var textSuffix: string
    var availableClues: map<string, string>
    /** The clue ids in insertion order, the order of the clue map's keys. */
    var clueOrder: seq<string>
    var providedClues: seq<string>
    var maxCluesPerInteraction: int
    var randomizeClueOrder: bool
    var shuffledClues: seq<string>
    var currentClueIndex: int
    var requiredCombinations: map<string, string>
    var combinationStatus: map<string, bool>
    var orderMatters: bool
    var maxMemoryCount: int
    var trackedMemories: seq<string>
    var memoryImportance: map<string, int>
    var narrativeConfig: map<string, string>

    /** The story index is never negative and the path lists each beat once. */
    ghost predicate StoryValid()
      reads `currentStoryIndex, `storyPath
    {
      currentStoryIndex >= 0 && NoDup(storyPath)
    }

    ghost predicate MemoryValid()
      reads `trackedMemories
    {
      NoEmptyMemory(trackedMemories)
    }

    /**
     * The clue order lists each clue id once and exactly the ids of the
     * clue map; the shuffled and the provided ids are clue ids; a clue is
     * provided once; the shuffled position is never negative.
     */
    predicate CluesValid()
      reads `availableClues, `clueOrder, `shuffledClues, `providedClues, `currentClueIndex
    {
      && NoDup(clueOrder)
      && (forall i :: 0 <= i < |clueOrder| ==> clueOrder[i] in availableClues)
      && (forall k :: k in availableClues ==> k in clueOrder)
      && (forall x :: x in shuffledClues ==> x in availableClues)
      && (forall i :: 0 <= i < |providedClues| ==> providedClues[i] in availableClues)
      && NoDup(providedClues)
      && currentClueIndex >= 0
    }

    /** The template order lists each template id once and exactly the ids of the template map. */
    ghost predicate TemplatesValid()
      reads `textTemplates, `templateOrder
    {
      && NoDup(templateOrder)
      && (forall i :: 0 <= i < |templateOrder| ==> templateOrder[i] in textTemplates)
      && (forall k :: k in textTemplates ==> k in templateOrder)
    }

    ghost predicate Valid()
      reads this
    {
      StoryValid() && MemoryValid() && CluesValid() && TemplatesValid() && NoDup(triggeredEvents)
    }

    /** The defaults: the story at "Start", no delay, one clue per use in key order, order-free combinations, ten memories. */
    constructor()
      ensures fresh(base) && base.kind == Narrative && base.owner == null && !base.capabilityActive
      ensures base.currentCooldown == 0.0 && base.cooldownDuration == 0.0
      ensures currentStoryBeat == "Start" && storyPath == [] && storyFragments == map[]
      ensures currentStoryIndex == 0 && !autoAdvanceStory
      ensures triggerableEventIds == [] && eventDescriptions == map[] && triggeredEvents == []
      ensures eventTriggerDelay == 0.0 && eventQueue == []
      ensures textTemplates == map[] && templateOrder == [] && contextualKeywords == []
      ensures textPrefix == "" && textSuffix == ""
      ensures availableClues == map[] && clueOrder == [] && providedClues == []
      ensures maxCluesPerInteraction == 1 && !randomizeClueOrder && shuffledClues == [] && currentClueIndex == 0
      ensures requiredCombinations == map[] && combinationStatus == map[] && !orderMatters
      ensures maxMemoryCount == 10 && trackedMemories == [] && memoryImportance == map[]
      ensures narrativeConfig == map[]
      ensures Valid()
    {
      base := new ItemCapability(Narrative);
      currentStoryBeat := "Start";
      storyPath := [];
      storyFragments := map[];
      currentStoryIndex := 0;
      autoAdvanceStory := false;
      triggerableEventIds := [];
      eventDescriptions := map[];
      triggeredEvents := [];
      eventTriggerDelay := 0.0;
      eventQueue := [];
      textTemplates := map[];
      templateOrder := [];
      contextualKeywords := [];
      textPrefix := "";
      textSuffix := "";
      availableClues := map[];
      clueOrder := [];
      providedClues := [];
      maxCluesPerInteraction := 1;
      randomizeClueOrder := false;
      shuffledClues := [];
      currentClueIndex := 0;
      requiredCombinations := map[];
      combinationStatus := map[];
      orderMatters := false;
      maxMemoryCount := 10;
      trackedMemories := [];
      memoryImportance := map[];
      narrativeConfig := map[];
    }

    // ------------------------------------------------------------ memory

    /** The scan of the memory list that finds the first memory of least importance. */
    method LeastImportantIndex() returns (j: nat)
      requires trackedMemories != []
      ensures j == FirstLeastIndex(trackedMemories, memoryImportance)
    {
      j := 0;
      var i := 1;
      assert trackedMemories[..1] == [trackedMemories[0]];
      while i < |trackedMemories|
        invariant 1 <= i <= |trackedMemories|
        invariant j == FirstLeastIndex(trackedMemories[..i], memoryImportance)
      {
        var next := i + 1;
        FirstLeastStep(trackedMemories, memoryImportance, i, next);
        if ImportanceOf(memoryImportance, trackedMemories[i]) < ImportanceOf(memoryImportance, trackedMemories[j]) {
          j := i;
        }
        i := next;
      }
      assert trackedMemories[..i] == trackedMemories;
    }

    /**
     * `ForgetOldestMemory` as written: the scan starts from MAX_int32 and
     * keeps a strictly lower importance only, so when every memory has
     * importance MAX_int32 or more nothing is picked and nothing is
     * forgotten; otherwise the first memory of least importance is dropped
     * with every copy and its importance entry.
     */
    method ForgetOldestMemory()
      modifies `trackedMemories, `memoryImportance
      ensures var c := ForgetChoice(old(trackedMemories), old(memoryImportance));
        if c.Some? && c.value != "" then
          trackedMemories == RemoveAll(old(trackedMemories), c.value) && memoryImportance == old(memoryImportance) - {c.value}
        else
          trackedMemories == old(trackedMemories) && memoryImportance == old(memoryImportance)
    {
      if |trackedMemories| > 0 {
        var least := "";
        var lowest := MaxInt32;
        var i := 0;
        while i < |trackedMemories|
          invariant 0 <= i <= |trackedMemories|
          invariant lowest == LowestSoFar(ForgetChoice(trackedMemories[..i], memoryImportance), memoryImportance)
          invariant least == match ForgetChoice(trackedMemories[..i], memoryImportance) case Some(m) => m case None => ""
          invariant trackedMemories == old(trackedMemories) && memoryImportance == old(memoryImportance)
        {
          var next := i + 1;
          ForgetChoiceStep(trackedMemories, memoryImportance, i, next);
          var importance := ImportanceOf(memoryImportance, trackedMemories[i]);
          if importance < lowest {
            lowest := importance;
            least := trackedMemories[i];
          }
          i := next;
        }
        assert trackedMemories[..i] == trackedMemories;
        ghost var c := ForgetChoice(trackedMemories, memoryImportance);
        assert c.Some? ==> least == c.value;
        assert c.None? ==> least == "";
        if least != "" {
          trackedMemories := RemoveAll(trackedMemories, least);
          memoryImportance := memoryImportance - {least};
        }
      }
    }

    /** `ForgetOldestMemory` corrected: a non-empty list always loses its first memory of least importance. */
    method ForgetLeastImportantMemory()
      requires MemoryValid()
      modifies `trackedMemories, `memoryImportance
      ensures old(trackedMemories) == [] ==> trackedMemories == [] && memoryImportance == old(memoryImportance)
      ensures old(trackedMemories) != [] ==>
        var w := LeastImportant(old(trackedMemories), old(memoryImportance));
        trackedMemories == RemoveAll(old(trackedMemories), w) && memoryImportance == old(memoryImportance) - {w}
      ensures MemoryValid()
    {
      if trackedMemories == [] {
        return;
      }
      var j := LeastImportantIndex();
      var w := trackedMemories[j];
      ghost var before := trackedMemories;
      trackedMemories := RemoveAll(trackedMemories, w);
      memoryImportance := memoryImportance - {w};
      assert forall i :: 0 <= i < |trackedMemories| ==> trackedMemories[i] in before;
    }

    /**
     * `CleanupOldMemories`, corrected: while the list is at capacity and
     * not empty, its least important memory is forgotten. Unlike the loop
     * as written it always ends (see `CleanupAsWrittenStalls`).
     */
    method CleanupOldMemories()
      requires MemoryValid()
      modifies `trackedMemories, `memoryImportance
      ensures (trackedMemories, memoryImportance) == Cleaned(old(trackedMemories), old(memoryImportance), maxMemoryCount)
      ensures MemoryValid()
    {
      while |trackedMemories| >= maxMemoryCount && trackedMemories != []
        invariant MemoryValid()
        invariant Cleaned(trackedMemories, memoryImportance, maxMemoryCount) ==
                  Cleaned(old(trackedMemories), old(memoryImportance), maxMemoryCount)
        decreases |trackedMemories|
      {
        ForgetLeastImportantMemory();
      }
    }

    /**
     * `RecordImportantMemory`: an empty memory is ignored; otherwise the
     * list is cleaned up when at capacity, then the memory is appended with
     * its importance (see `MemoryBound`).
     */
    method RecordImportantMemory(m: string, importance: int)
      requires MemoryValid()
      modifies `trackedMemories, `memoryImportance
      ensures (trackedMemories, memoryImportance) ==
              Recorded(old(trackedMemories), old(memoryImportance), maxMemoryCount, m, importance)
      ensures MemoryValid()
    {
      MemoryBound(trackedMemories, memoryImportance, maxMemoryCount, m, importance);
      if m == "" {
        return;
      }
      if |trackedMemories| >= maxMemoryCount {
        CleanupOldMemories();
      }
      trackedMemories := trackedMemories + [m];
      memoryImportance := memoryImportance[m := importance];
    }

    /** `RecordMemory`: a memory of importance 1. */
    method RecordMemory(m: string)
      requires MemoryValid()
      modifies `trackedMemories, `memoryImportance
      ensures (trackedMemories, memoryImportance) == Recorded(old(trackedMemories), old(memoryImportance), maxMemoryCount, m, 1)
      ensures MemoryValid()
    {
      RecordImportantMemory(m, 1);
    }

    /** `GetRelevantMemories`: the memories containing the context (any case), most important first. */
    method GetRelevantMemories(context: string) returns (r: seq<string>)
      ensures multiset(r) == multiset(Relevant(trackedMemories, context))
      ensures ByImportance(r, memoryImportance)
      ensures forall i :: 0 <= i < |r| ==> r[i] in trackedMemories && ContainsIgnoreCase(r[i], context)
    {
      var relevant := [];
      var i := 0;
      while i < |trackedMemories|
        invariant 0 <= i <= |trackedMemories|
        invariant relevant == Relevant(trackedMemories[..i], context)
      {
        var m := trackedMemories[i];
        var next := i + 1;
        assert trackedMemories[..next][..i] == trackedMemories[..i];
        if ContainsIgnoreCase(m, context) {
          relevant := relevant + [m];
        }
        i := next;
      }
      assert trackedMemories[..i] == trackedMemories;
      r := SortByImportance(relevant, memoryImportance);
      assert forall i :: 0 <= i < |r| ==> r[i] in multiset(relevant);
    }

    // ------------------------------------------------------------ story

    function GetCurrentStoryFragment(): string
      reads `currentStoryBeat, `storyFragments
    {
      if currentStoryBeat in storyFragments then storyFragments[currentStoryBeat] else ""
    }

    /** `GetStoryProgress`: while the index is on the path, a share in [0, 1] that is 1 exactly at the last beat. */
    function GetStoryProgress(): (r: real)
      reads `storyPath, `currentStoryIndex
      ensures 0 <= currentStoryIndex < |storyPath| ==>
        0.0 <= r <= 1.0 && (r == 1.0 <==> currentStoryIndex == |storyPath| - 1)
    {
      if 0 <= currentStoryIndex < |storyPath| then
        StoryProgressBounds(|storyPath|, currentStoryIndex);
        StoryProgress(|storyPath|, currentStoryIndex)
      else StoryProgress(|storyPath|, currentStoryIndex)
    }

    /** `AddStoryFragment`: the fragment is stored under its beat, and a new beat joins the end of the path. */
    method AddStoryFragment(beat: string, fragment: string)
      modifies `storyFragments, `storyPath
      ensures storyFragments == old(storyFragments)[beat := fragment]
      ensures storyPath == AddUnique(old(storyPath), beat)
      ensures old(NoDup(storyPath)) ==> NoDup(storyPath)
    {
      storyFragments := storyFragments[beat := fragment];
      if beat !in storyPath {
        storyPath := storyPath + [beat];
      }
    }

    /**
     * `AdvanceStory`: ignored for an empty beat or without an owner.
     * Otherwise the beat becomes current, the index follows it when the
     * beat is on the path, the step is remembered, and the first Story node
     * holding that beat as its fragment is set Active.
     */
    method AdvanceStory(next: string, storyNodes: seq<InteractiveNode>)
      requires MemoryValid() && currentStoryIndex >= 0
      modifies `currentStoryBeat, `currentStoryIndex, `trackedMemories, `memoryImportance
      modifies (set n | n in storyNodes)`state, (set n | n in storyNodes)`stateChanges
      ensures MemoryValid() && currentStoryIndex >= 0
      ensures next == "" || base.owner == null ==>
        && currentStoryBeat == old(currentStoryBeat) && currentStoryIndex == old(currentStoryIndex)
        && trackedMemories == old(trackedMemories) && memoryImportance == old(memoryImportance)
        && forall n :: n in storyNodes ==> n.state == old(n.state) && n.stateChanges == old(n.stateChanges)
      ensures next != "" && base.owner != null ==>
        && currentStoryBeat == next
        && currentStoryIndex == (if next in storyPath then IndexOf(storyPath, next) else old(currentStoryIndex))
        && GetCurrentStoryFragment() == (if next in storyFragments then storyFragments[next] else "")
        && (trackedMemories, memoryImportance) ==
           Recorded(old(trackedMemories), old(memoryImportance), maxMemoryCount, "Story: " + old(currentStoryBeat) + " -> " + next, 1)
      ensures next != "" && base.owner != null ==>
        var k := StoryNodeIndex(storyNodes, next);
        && (k >= 0 ==> storyNodes[k].state == Active)
        && forall n :: n in storyNodes && (k < 0 || n != storyNodes[k]) ==> n.state == old(n.state) && n.stateChanges == old(n.stateChanges)
    {
      if next == "" || base.owner == null {
        return;
      }
      var previous := currentStoryBeat;
      currentStoryBeat := next;
      var index := IndexOf(storyPath, next);
      if index != -1 {
        currentStoryIndex := index;
      }
      RecordMemory("Story: " + previous + " -> " + next);
      ActivateStoryNode(storyNodes, next);
    }

    /** `JumpToStoryBeat`: a beat on the path is advanced to; any other beat is ignored. */
    method JumpToStoryBeat(beat: string, storyNodes: seq<InteractiveNode>)
      requires MemoryValid() && currentStoryIndex >= 0
      modifies `currentStoryBeat, `currentStoryIndex, `trackedMemories, `memoryImportance
      modifies (set n | n in storyNodes)`state, (set n | n in storyNodes)`stateChanges
      ensures MemoryValid() && currentStoryIndex >= 0
      ensures beat !in storyPath ==>
        currentStoryBeat == old(currentStoryBeat) && currentStoryIndex == old(currentStoryIndex) &&
        trackedMemories == old(trackedMemories)
      ensures beat in storyPath && beat != "" && base.owner != null ==>
        currentStoryBeat == beat && currentStoryIndex == IndexOf(storyPath, beat) && storyPath[currentStoryIndex] == beat
    {
      if beat in storyPath {
        AdvanceStory(beat, storyNodes);
      }
    }

    /** The story can move on: the path is not empty and the current beat is not its last. */
    predicate StoryCanAdvance()
      reads `storyPath, `currentStoryIndex
    {
      |storyPath| > 0 && currentStoryIndex < |storyPath| - 1
    }

    /**
     * `ProcessStoryAdvancement`: before the last beat, the story moves to
     * the next beat on the path, so the index goes up by exactly one.
     */
    method ProcessStoryAdvancement(storyNodes: seq<InteractiveNode>)
      requires MemoryValid() && StoryValid()
      modifies `currentStoryBeat, `currentStoryIndex, `trackedMemories, `memoryImportance
      modifies (set n | n in storyNodes)`state, (set n | n in storyNodes)`stateChanges
      ensures MemoryValid() && StoryValid()
      ensures !old(StoryCanAdvance()) ==>
        currentStoryBeat == old(currentStoryBeat) && currentStoryIndex == old(currentStoryIndex) &&
        trackedMemories == old(trackedMemories)
      ensures old(StoryCanAdvance()) && base.owner != null && old(storyPath[currentStoryIndex + 1]) != "" ==>
        currentStoryIndex == old(currentStoryIndex) + 1 && currentStoryBeat == storyPath[currentStoryIndex] &&
        GetStoryProgress() > old(GetStoryProgress())
    {
      if currentStoryIndex < |storyPath| - 1 {
        ghost var step := currentStoryIndex + 1;
        IndexOfDistinct(storyPath, step);
        StoryProgressRises(|storyPath|, currentStoryIndex);
        AdvanceStory(storyPath[currentStoryIndex + 1], storyNodes);
      }
    }

    // ------------------------------------------------------------ events

    predicate HasEventBeenTriggered(id: string)
      reads `triggeredEvents
    {
      id in triggeredEvents
    }

    /** The immediate branch of `TriggerEvent`: the event is marked, announced on the owner, and remembered. */
    method FireEvent(id: string)
      requires MemoryValid()
      modifies `triggeredEvents, `trackedMemories, `memoryImportance
      modifies if base.owner == null then {} else {base.owner.node}`triggerEvents
      ensures triggeredEvents == old(triggeredEvents) + [id]
      ensures (trackedMemories, memoryImportance) ==
              Recorded(old(trackedMemories), old(memoryImportance), maxMemoryCount, "Event: " + id, 1)
      ensures base.owner != null ==>
        base.owner.node.triggerEvents == WithTriggerEvent(old(base.owner.node.triggerEvents), id)
      ensures MemoryValid()
    {
      triggeredEvents := triggeredEvents + [id];
      if base.owner != null {
        base.owner.node.AddTriggerEvent(id);
      }
      RecordMemory("Event: " + id);
    }

    /**
     * `TriggerEvent`: only a triggerable event not yet triggered goes
     * ahead. With a positive delay it is queued with that delay and not yet
     * marked; otherwise it fires at once.
     */
    method TriggerEvent(id: string) returns (ok: bool)
      requires MemoryValid()
      modifies `eventQueue, `triggeredEvents, `trackedMemories, `memoryImportance
      modifies if base.owner == null then {} else {base.owner.node}`triggerEvents
      ensures ok <==> id in triggerableEventIds && id !in old(triggeredEvents)
      ensures ok && eventTriggerDelay > 0.0 ==>
        && eventQueue == old(eventQueue) + [QueuedEvent(id, eventTriggerDelay)]
        && triggeredEvents == old(triggeredEvents)
        && trackedMemories == old(trackedMemories) && memoryImportance == old(memoryImportance)
        && (base.owner != null ==> base.owner.node.triggerEvents == old(base.owner.node.triggerEvents))
      ensures ok && eventTriggerDelay <= 0.0 ==>
        && eventQueue == old(eventQueue)
        && triggeredEvents == old(triggeredEvents) + [id]
        && (trackedMemories, memoryImportance) ==
           Recorded(old(trackedMemories), old(memoryImportance), maxMemoryCount, "Event: " + id, 1)
        && (base.owner != null ==> base.owner.node.triggerEvents == WithTriggerEvent(old(base.owner.node.triggerEvents), id))
      ensures !ok ==>
        && eventQueue == old(eventQueue) && triggeredEvents == old(triggeredEvents)
        && trackedMemories == old(trackedMemories) && memoryImportance == old(memoryImportance)
        && (base.owner != null ==> base.owner.node.triggerEvents == old(base.owner.node.triggerEvents))
      ensures old(NoDup(triggeredEvents)) ==> NoDup(triggeredEvents)
      ensures MemoryValid()
    {
      if id !in triggerableEventIds || HasEventBeenTriggered(id) {
        return false;
      }
      if eventTriggerDelay > 0.0 {
        QueueEvent(id, eventTriggerDelay);
        return true;
      }
      NoDupSnoc(triggeredEvents, id);
      FireEvent(id);
      return true;
    }

    /** `QueueEvent`: the event joins the back of the queue with its delay. */
    method QueueEvent(id: string, delay: real)
      modifies `eventQueue
      ensures eventQueue == old(eventQueue) + [QueuedEvent(id, delay)]
    {
      eventQueue := eventQueue + [QueuedEvent(id, delay)];
    }

    /** `ResetEvents`: no event counts as triggered and the queue is emptied. */
    method ResetEvents()
      modifies `triggeredEvents, `eventQueue
      ensures triggeredEvents == [] && eventQueue == []
      ensures forall id :: !HasEventBeenTriggered(id)
    {
      triggeredEvents := [];
      eventQueue := [];
    }

    /** The first loop of `OnEventTriggerDelay`: one tick of the queue, collecting the due events. */
    method TakeDueEvents() returns (due: seq<string>)
      modifies `eventQueue
      ensures (due, eventQueue) == TickQueue(old(eventQueue))
    {
      due := [];
      assert due + TickQueue(eventQueue).0 == TickQueue(eventQueue).0;
      while eventQueue != []
        invariant TickQueue(old(eventQueue)).0 == due + TickQueue(eventQueue).0
        invariant TickQueue(old(eventQueue)).1 == TickQueue(eventQueue).1
        decreases |eventQueue|
      {
        var head := eventQueue[0];
        var remaining := head.remaining - TickInterval;
        if remaining <= 0.0 {
          ghost var rest := TickQueue(eventQueue[1..]);
          assert TickQueue(eventQueue) == ([head.id] + rest.0, rest.1);
          assert due + ([head.id] + rest.0) == (due + [head.id]) + rest.0;
          eventQueue := eventQueue[1..];
          due := due + [head.id];
        } else {
          assert TickQueue(eventQueue) == ([], eventQueue[1..] + [QueuedEvent(head.id, remaining)]);
          assert due + [] == due;
          eventQueue := eventQueue[1..] + [QueuedEvent(head.id, remaining)];
          return;
        }
      }
      assert due + [] == due;
    }

    /**
     * The first loop of `OnEventTriggerDelay` as written: the shortened
     * wait is held in a copy of the head, and taking the head off the queue
     * overwrites the copy, so a head still waiting is put back unchanged.
     */
    method TakeDueEventsAsWritten() returns (due: seq<string>)
      modifies `eventQueue
      ensures (due, eventQueue) == TickQueueAsWritten(old(eventQueue))
    {
      due := [];
      assert due + TickQueueAsWritten(eventQueue).0 == TickQueueAsWritten(eventQueue).0;
      while eventQueue != []
        invariant TickQueueAsWritten(old(eventQueue)).0 == due + TickQueueAsWritten(eventQueue).0
        invariant TickQueueAsWritten(old(eventQueue)).1 == TickQueueAsWritten(eventQueue).1
        decreases |eventQueue|
      {
        var event := QueuedEvent(eventQueue[0].id, eventQueue[0].remaining - TickInterval);
        if event.remaining <= 0.0 {
          event := eventQueue[0];
          ghost var rest := TickQueueAsWritten(eventQueue[1..]);
          assert TickQueueAsWritten(eventQueue) == ([event.id] + rest.0, rest.1);
          assert due + ([event.id] + rest.0) == (due + [event.id]) + rest.0;
          eventQueue := eventQueue[1..];
          due := due + [event.id];
        } else {
          event := eventQueue[0];
          assert TickQueueAsWritten(eventQueue) == ([], eventQueue[1..] + [event]);
          assert due + [] == due;
          eventQueue := eventQueue[1..] + [event];
          return;
        }
      }
      assert due + [] == due;
    }

    /**
     * `OnEventTriggerDelay` as written: the tick keeps a waiting head's whole
     * wait (see `WaitingQueueNeverFires`), and the due events go back
     * through `TriggerEvent`, which with a positive delay queues them again
     * with the full delay, so none of them is ever marked triggered (see
     * `DelayedEventRequeued`).
     */
    method OnEventTriggerDelayAsWritten()
      requires MemoryValid()
      modifies `eventQueue, `triggeredEvents, `trackedMemories, `memoryImportance
      modifies if base.owner == null then {} else {base.owner.node}`triggerEvents
      ensures eventTriggerDelay > 0.0 ==>
        && triggeredEvents == old(triggeredEvents)
        && eventQueue == TickQueueAsWritten(old(eventQueue)).1 +
           Requeued(TickQueueAsWritten(old(eventQueue)).0, triggerableEventIds, old(triggeredEvents), eventTriggerDelay)
      ensures MemoryValid()
    {
      var due := TakeDueEventsAsWritten();
      ghost var rest := eventQueue;
      var j := 0;
      while j < |due|
        invariant 0 <= j <= |due|
        invariant MemoryValid()
        invariant eventTriggerDelay > 0.0 ==>
          && triggeredEvents == old(triggeredEvents)
          && eventQueue == rest + Requeued(due[..j], triggerableEventIds, old(triggeredEvents), eventTriggerDelay)
      {
        var _ := TriggerEvent(due[j]);
        RequeuedStep(due, triggerableEventIds, old(triggeredEvents), eventTriggerDelay, j);
        j := j + 1;
      }
      assert due[..j] == due;
    }

    /**
     * `OnEventTriggerDelay`, corrected: each due event that is triggerable
     * and not yet triggered fires at once, so every due event ends up
     * triggered exactly once (see `FiredOnce`).
     */
    method OnEventTriggerDelay()
      requires MemoryValid()
      modifies `eventQueue, `triggeredEvents, `trackedMemories, `memoryImportance
      modifies if base.owner == null then {} else {base.owner.node}`triggerEvents
      ensures eventQueue == TickQueue(old(eventQueue)).1
      ensures triggeredEvents == old(triggeredEvents) + Fired(TickQueue(old(eventQueue)).0, triggerableEventIds, old(triggeredEvents))
      ensures forall e :: e in TickQueue(old(eventQueue)).0 && e in triggerableEventIds ==> e in triggeredEvents
      ensures old(NoDup(triggeredEvents)) ==> NoDup(triggeredEvents)
      ensures MemoryValid()
    {
      ghost var before := triggeredEvents;
      var due := TakeDueEvents();
      ghost var rest := eventQueue;
      var j := 0;
      while j < |due|
        invariant 0 <= j <= |due|
        invariant MemoryValid()
        invariant eventQueue == rest
        invariant triggeredEvents == before + Fired(due[..j], triggerableEventIds, before)
      {
        var e := due[j];
        assert due[..j + 1][..j] == due[..j];
        if e in triggerableEventIds && e !in triggeredEvents {
          FireEvent(e);
        }
        j := j + 1;
      }
      assert due[..j] == due;
      FiredOnce(due, triggerableEventIds, before);
    }

    // ------------------------------------------------------------ text

    /** `AddTextTemplate`: the template is stored under its id, a new id joining the template order. */
    method AddTextTemplate(id: string, template: string)
      modifies `textTemplates, `templateOrder
      ensures textTemplates == old(textTemplates)[id := template]
      ensures templateOrder == AddUnique(old(templateOrder), id)
      ensures old(TemplatesValid()) ==> TemplatesValid()
    {
      textTemplates := textTemplates[id := template];
      if id !in templateOrder {
        templateOrder := templateOrder + [id];
      }
    }

    /** `ReplaceTemplateVariables`: each variable's {name} placeholder is replaced, variable by variable. */
    method ReplaceTemplateVariables(template: string, vars: seq<(string, string)>) returns (r: string)
      ensures r == ReplacedAll(template, vars)
    {
      r := template;
      var i := 0;
      while i < |vars|
        invariant 0 <= i <= |vars|
        invariant r == ReplacedAll(template, vars[..i])
      {
        var next := i + 1;
        assert vars[..next][..i] == vars[..i];
        r := Replace(r, Placeholder(vars[i].0), vars[i].1);
        i := next;
      }
      assert vars[..i] == vars;
    }

    /** `ProcessTemplate`: an unknown template gives the empty text. */
    method ProcessTemplate(id: string, vars: seq<(string, string)>) returns (text: string)
      ensures id !in textTemplates ==> text == ""
      ensures id in textTemplates ==> text == ReplacedAll(textTemplates[id], vars)
    {
      if id !in textTemplates {
        return "";
      }
      text := ReplaceTemplateVariables(textTemplates[id], vars);
    }

    /** The keyword check of `GenerateContextualText`. */
    method KeywordsMatch(context: seq<(string, string)>) returns (all: bool)
      ensures all == KeywordsPresent(contextualKeywords, context)
    {
      all := true;
      var k := 0;
      while k < |contextualKeywords|
        invariant 0 <= k <= |contextualKeywords|
        invariant forall i :: 0 <= i < k ==> HasKey(context, contextualKeywords[i])
      {
        if !HasKey(context, contextualKeywords[k]) {
          return false;
        }
        k := k + 1;
      }
    }

    /**
     * `GenerateContextualText`: the prefix, then the first template filled
     * in from the context when the context holds every keyword, then the
     * suffix.
     */
    method GenerateContextualText(context: seq<(string, string)>) returns (text: string)
      requires TemplatesValid()
      ensures text == textPrefix +
        (if |templateOrder| > 0 && KeywordsPresent(contextualKeywords, context)
         then ReplacedAll(textTemplates[templateOrder[0]], context) else "") +
        textSuffix
    {
      text := textPrefix;
      var t := 0;
      while t < |templateOrder|
        invariant 0 <= t <= |templateOrder|
        invariant text == textPrefix
        invariant t > 0 ==> !KeywordsPresent(contextualKeywords, context)
      {
        var all := KeywordsMatch(context);
        if all {
          var body := ProcessTemplate(templateOrder[t], context);
          text := text + body;
          break;
        }
        t := t + 1;
      }
      text := text + textSuffix;
    }

    // ------------------------------------------------------------ clues

    predicate HasClueBeenProvided(id: string)
      reads `providedClues
    {
      id in providedClues
    }

    /** `GetRemainingClueCount`: clues not yet provided, never below zero; with consistent clue lists, exactly the unprovided clues. */
    function GetRemainingClueCount(): (r: int)
      reads `availableClues, `clueOrder, `shuffledClues, `providedClues, `currentClueIndex
      ensures r >= 0
      ensures CluesValid() ==> r == |Unprovided(clueOrder, providedClues)|
    {
      if CluesValid() then
        RemainingClues(clueOrder, providedClues, availableClues);
        Max(0, |availableClues| - |providedClues|)
      else Max(0, |availableClues| - |providedClues|)
    }

    /**
     * `ProvideClue`: only a known clue not yet provided goes ahead; it is
     * marked, remembered, and announced on the owner.
     */
    method ProvideClue(id: string) returns (ok: bool)
      requires MemoryValid()
      modifies `providedClues, `trackedMemories, `memoryImportance
      modifies if base.owner == null then {} else {base.owner.node}`triggerEvents
      ensures ok <==> id in availableClues && id !in old(providedClues)
      ensures ok ==>
        && providedClues == old(providedClues) + [id]
        && (trackedMemories, memoryImportance) ==
           Recorded(old(trackedMemories), old(memoryImportance), maxMemoryCount, "Clue: " + id, 1)
        && (base.owner != null ==>
            base.owner.node.triggerEvents == WithTriggerEvent(old(base.owner.node.triggerEvents), "ClueProvided_" + id))
      ensures !ok ==>
        && providedClues == old(providedClues)
        && trackedMemories == old(trackedMemories) && memoryImportance == old(memoryImportance)
        && (base.owner != null ==> base.owner.node.triggerEvents == old(base.owner.node.triggerEvents))
      ensures old(CluesValid()) ==> CluesValid()
      ensures MemoryValid()
    {
      if id !in availableClues || HasClueBeenProvided(id) {
        return false;
      }
      NoDupSnoc(providedClues, id);
      providedClues := providedClues + [id];
      RecordMemory("Clue: " + id);
      if base.owner != null {
        base.owner.node.AddTriggerEvent("ClueProvided_" + id);
      }
      return true;
    }

    /** The key-order branch of `GetNextClues` (see `NextCluesInOrderSound`). */
    method NextCluesInKeyOrder(count: int) returns (next: seq<string>)
      ensures next == NextCluesInOrder(clueOrder, providedClues, count)
    {
      next := [];
      var i := 0;
      while i < |clueOrder|
        invariant 0 <= i <= |clueOrder|
        invariant next == Unprovided(clueOrder[..i], providedClues)
        invariant next == [] || |next| < count
      {
        var id := clueOrder[i];
        var n1 := i + 1;
        UnprovidedSnoc(clueOrder[..i], id, providedClues);
        assert clueOrder[..n1] == clueOrder[..i] + [id];
        if id !in providedClues {
          next := next + [id];
          if |next| >= count {
            i := n1;
            break;
          }
        }
        i := n1;
      }
      UnprovidedAppend(clueOrder[..i], clueOrder[i..], providedClues);
      assert clueOrder[..i] + clueOrder[i..] == clueOrder;
    }

    /**
     * The shuffled branch of `GetNextClues`: the shuffled list is walked on
     * from the saved position, collecting unprovided clues until `count` are
     * collected or the list ends; the position stays where the walk stopped.
     */
    method NextCluesShuffled(count: int) returns (next: seq<string>)
      requires currentClueIndex >= 0
      modifies `currentClueIndex
      ensures old(currentClueIndex) >= |shuffledClues| ==> next == [] && currentClueIndex == old(currentClueIndex)
      ensures old(currentClueIndex) < |shuffledClues| ==>
        && old(currentClueIndex) <= currentClueIndex <= |shuffledClues|
        && next == Unprovided(shuffledClues[old(currentClueIndex)..currentClueIndex], providedClues)
        && |next| <= Max(count, 0)
        && (currentClueIndex < |shuffledClues| ==> |next| >= count)
        && (currentClueIndex > old(currentClueIndex) ==>
            |Unprovided(shuffledClues[old(currentClueIndex)..currentClueIndex - 1], providedClues)| < count)
    {
      var index;
      next, index := CollectUnprovided(shuffledClues, providedClues, currentClueIndex, count);
      currentClueIndex := index;
    }

    /** `GetNextClues`: shuffled order when randomised, key order otherwise; every clue handed out is unprovided. */
    method GetNextClues(count: int) returns (next: seq<string>)
      requires CluesValid()
      modifies `currentClueIndex
      ensures !randomizeClueOrder ==>
        next == NextCluesInOrder(clueOrder, providedClues, count) && currentClueIndex == old(currentClueIndex)
      ensures forall i :: 0 <= i < |next| ==> next[i] in availableClues && next[i] !in providedClues
      ensures CluesValid()
    {
      if randomizeClueOrder {
        ghost var start := currentClueIndex;
        next := NextCluesShuffled(count);
        if start < |shuffledClues| {
          UnprovidedMembers(shuffledClues[start..currentClueIndex], providedClues);
          assert forall i :: 0 <= i < |next| ==> next[i] in shuffledClues[start..currentClueIndex];
        }
      } else {
        next := NextCluesInKeyOrder(count);
        NextCluesInOrderSound(clueOrder, providedClues, count);
        assert forall i :: 0 <= i < |next| ==> next[i] in clueOrder;
      }
    }

    /** Handing out clues one after another, as `Use` does with the clues it was given. */
    method ProvideClues(ids: seq<string>)
      requires MemoryValid() && CluesValid()
      modifies `providedClues, `trackedMemories, `memoryImportance
      modifies if base.owner == null then {} else {base.owner.node}`triggerEvents
      ensures old(providedClues) <= providedClues
      ensures forall x :: x in providedClues <==> x in old(providedClues) || (x in ids && x in availableClues)
      ensures MemoryValid() && CluesValid()
    {
      var j := 0;
      while j < |ids|
        invariant 0 <= j <= |ids|
        invariant MemoryValid() && CluesValid()
        invariant old(providedClues) <= providedClues
        invariant forall x :: x in providedClues <==> x in old(providedClues) || (x in ids[..j] && x in availableClues)
      {
        var next := j + 1;
        assert ids[..next] == ids[..j] + [ids[j]];
        var _ := ProvideClue(ids[j]);
        j := next;
      }
      assert ids[..j] == ids;
    }

    /**
     * `InitializeClueOrder`, the clue part of `Initialize`: in randomised
     * mode with clues, the shuffled list becomes `shuffled`, a reordering of
     * the clue ids that stands for the engine's random shuffle.
     */
    method InitializeClueOrder(shuffled: seq<string>)
      requires multiset(shuffled) == multiset(clueOrder)
      requires CluesValid()
      modifies `shuffledClues
      ensures shuffledClues == if randomizeClueOrder && |availableClues| > 0 then shuffled else old(shuffledClues)
      ensures CluesValid()
    {
      if randomizeClueOrder && |availableClues| > 0 {
        assert forall i :: 0 <= i < |shuffled| ==> shuffled[i] in multiset(clueOrder);
        shuffledClues := shuffled;
      }
    }

    /**
     * A Story_, Event_ or Clue_ entry has been taken in: its beat is on the
     * path with a fragment, its event is triggerable, its clue is known.
     */
    predicate EntryLoaded(key: string)
      reads `storyPath, `storyFragments, `triggerableEventIds, `availableClues
    {
      match ConfigKeyOf(key)
      case StoryKey(b) => b in storyPath && b in storyFragments
      case EventKey(e) => e in triggerableEventIds
      case ClueKey(c) => c in availableClues
      case _ => true
    }

    /** One pass of the loop of `LoadNarrativeConfig`: the entry `ids[i]` is applied. */
    method LoadAt(ids: seq<string>, i: nat, config: map<string, string>, ghost before: map<string, string>)
      requires i < |ids| && ids[i] in config
      requires CluesValid()
      requires narrativeConfig == before + Restricted(config, ids[..i])
      requires forall k :: k in ids[..i] ==> EntryLoaded(k)
      modifies `maxMemoryCount, `maxCluesPerInteraction, `eventTriggerDelay, `autoAdvanceStory, `randomizeClueOrder
      modifies `storyFragments, `storyPath, `triggerableEventIds, `eventDescriptions, `availableClues, `clueOrder
      modifies `narrativeConfig
      ensures narrativeConfig == before + Restricted(config, ids[..i + 1])
      ensures forall k :: k in ids[..i + 1] ==> EntryLoaded(k)
      ensures old(NoDup(storyPath)) ==> NoDup(storyPath)
      ensures CluesValid()
    {
      var key := ids[i];
      RestrictedSnoc(before, config, ids, i);
      ghost var done := ids[..i];
      ApplyConfigValue(key, config[key]);
      forall k | k in ids[..i + 1]
        ensures EntryLoaded(k)
      {
        assert ids[..i + 1] == done + [key];
        if k != key {
          assert k in done;
          assert old(EntryLoaded(k));
        }
      }
    }

    /**
     * `LoadNarrativeConfig`: every entry is applied, visiting the table in
     * `order`; afterwards the raw table holds every entry and every Story_,
     * Event_ and Clue_ entry has been taken in.
     */
    method LoadNarrativeConfig(config: map<string, string>) returns (ghost order: seq<string>)
      requires CluesValid()
      modifies `maxMemoryCount, `maxCluesPerInteraction, `eventTriggerDelay, `autoAdvanceStory, `randomizeClueOrder
      modifies `storyFragments, `storyPath, `triggerableEventIds, `eventDescriptions, `availableClues, `clueOrder
      modifies `narrativeConfig
      ensures NoDup(order) && forall k :: k in order <==> k in config
      ensures narrativeConfig == old(narrativeConfig) + config
      ensures forall k :: k in config ==> EntryLoaded(k)
      ensures old(NoDup(storyPath)) ==> NoDup(storyPath)
      ensures CluesValid()
    {
      var ids := KeysOf(config);
      order := ids;
      ghost var before := narrativeConfig;
      assert Restricted(config, ids[..0]) == map[];
      assert before + map[] == before;
      var i := 0;
      while i < |ids|
        invariant 0 <= i <= |ids|
        invariant narrativeConfig == before + Restricted(config, ids[..i])
        invariant forall k :: k in ids[..i] ==> EntryLoaded(k)
        invariant old(NoDup(storyPath)) ==> NoDup(storyPath)
        invariant CluesValid()
      {
        LoadAt(ids, i, config, before);
        i := i + 1;
      }
      assert ids[..i] == ids;
      assert Restricted(config, ids) == config;
    }

    /**
     * `Initialize`: attach to the owner, shuffle the clues in randomised
     * mode (`shuffled` stands for the engine's shuffle of the clue ids),
     * then apply the stored configuration, visiting it in `order`.
     */
    method Initialize(o: ItemNode?, shuffled: seq<string>) returns (ghost order: seq<string>)
      requires multiset(shuffled) == multiset(clueOrder)
      requires CluesValid()
      modifies base, `shuffledClues
      modifies `maxMemoryCount, `maxCluesPerInteraction, `eventTriggerDelay, `autoAdvanceStory, `randomizeClueOrder
      modifies `storyFragments, `storyPath, `triggerableEventIds, `eventDescriptions, `availableClues, `clueOrder
      modifies `narrativeConfig
      ensures base.owner == o && narrativeConfig == old(narrativeConfig)
      ensures shuffledClues == if old(randomizeClueOrder) && |old(availableClues)| > 0 then shuffled else old(shuffledClues)
      ensures NoDup(order) && forall k :: k in order <==> k in old(narrativeConfig)
      ensures forall k :: k in old(narrativeConfig) ==> EntryLoaded(k)
      ensures old(NoDup(storyPath)) ==> NoDup(storyPath)
      ensures CluesValid()
    {
      base.Initialize(o);
      InitializeClueOrder(shuffled);
      order := [];
      if |narrativeConfig| > 0 {
        order := LoadNarrativeConfig(narrativeConfig);
        assert narrativeConfig == old(narrativeConfig);
      }
    }

    // ------------------------------------------------------------ combinations

    /** `RegisterCombination`: the elements are stored comma-joined, and the combination starts incomplete. */
    method RegisterCombination(combo: string, elements: seq<string>)
      modifies `requiredCombinations, `combinationStatus
      ensures requiredCombinations == old(requiredCombinations)[combo := JoinComma(elements)]
      ensures combinationStatus == old(combinationStatus)[combo := false]
      ensures !IsCombinationComplete(combo)
    {
      requiredCombinations := requiredCombinations[combo := JoinComma(elements)];
      combinationStatus := combinationStatus[combo := false];
    }

    predicate IsCombinationComplete(combo: string)
      reads `combinationStatus
    {
      combo in combinationStatus && combinationStatus[combo]
    }

    /** `MatchesCombination`: the same length, then position by position or by membership, ignoring case. */
    method MatchesCombination(required: seq<string>, provided: seq<string>) returns (ok: bool)
      ensures ok == Matches(required, provided, orderMatters)
    {
      if |required| != |provided| {
        return false;
      }
      var i := 0;
      while i < |required|
        invariant 0 <= i <= |required|
        invariant orderMatters ==> forall k :: 0 <= k < i ==> EqualsIgnoreCase(required[k], provided[k])
        invariant !orderMatters ==> forall k :: 0 <= k < i ==> HasElement(provided, required[k])
      {
        if orderMatters && !EqualsIgnoreCase(required[i], provided[i]) {
          return false;
        }
        if !orderMatters && !HasElement(provided, required[i]) {
          return false;
        }
        i := i + 1;
      }
      return true;
    }

    /**
     * `ValidateCombination`, with the completion check corrected: a known
     * combination whose stored elements match is marked complete and
     * remembered with importance 5, and the owner completes once every
     * registered combination is complete (see `CompletionGateOpensEarly`).
     */
    method ValidateCombination(combo: string, elements: seq<string>) returns (ok: bool)
      requires MemoryValid()
      modifies `combinationStatus, `trackedMemories, `memoryImportance
      modifies if base.owner == null then {} else {base.owner.node}`state
      modifies if base.owner == null then {} else {base.owner.node}`stateChanges
      ensures ok <==> combo in requiredCombinations &&
                      Matches(RequiredElements(requiredCombinations[combo]), elements, orderMatters)
      ensures ok ==>
        && combinationStatus == old(combinationStatus)[combo := true]
        && IsCombinationComplete(combo)
        && (trackedMemories, memoryImportance) ==
           Recorded(old(trackedMemories), old(memoryImportance), maxMemoryCount, "Combination: " + combo + " completed", 5)
      ensures !ok ==>
        combinationStatus == old(combinationStatus) &&
        trackedMemories == old(trackedMemories) && memoryImportance == old(memoryImportance)
      ensures base.owner != null ==>
        base.owner.node.state ==
          if ok && AllCombinationsComplete(combinationStatus, requiredCombinations) then Completed
          else old(base.owner.node.state)
      ensures MemoryValid()
    {
      if combo !in requiredCombinations {
        return false;
      }
      var parsed := ParseCommaList(requiredCombinations[combo]);
      var required := TrimElements(parsed);
      ok := MatchesCombination(required, elements);
      if ok {
        MarkCombinationComplete(combo);
      }
    }

    /** The success branch of `ValidateCombination`: mark, remember, and complete the owner when all are done. */
    method MarkCombinationComplete(combo: string)
      requires MemoryValid()
      modifies `combinationStatus, `trackedMemories, `memoryImportance
      modifies if base.owner == null then {} else {base.owner.node}`state
      modifies if base.owner == null then {} else {base.owner.node}`stateChanges
      ensures combinationStatus == old(combinationStatus)[combo := true]
      ensures (trackedMemories, memoryImportance) ==
        Recorded(old(trackedMemories), old(memoryImportance), maxMemoryCount, "Combination: " + combo + " completed", 5)
      ensures base.owner != null ==>
        base.owner.node.state ==
          if AllCombinationsComplete(combinationStatus, requiredCombinations) then Completed
          else old(base.owner.node.state)
      ensures MemoryValid()
    {
      combinationStatus := combinationStatus[combo := true];
      RecordImportantMemory("Combination: " + combo + " completed", 5);
      if base.owner != null && AllCombinationsComplete(combinationStatus, requiredCombinations) {
        base.owner.node.SetNodeState(Completed);
      }
    }

    // ------------------------------------------------------------ the capability

    /** `CanUse`: the base gate, and something to narrate: a story path, events, or clues left. */
    predicate CanUse(d: InteractionData)
      reads base`capabilityActive, base`owner, base`currentCooldown
      reads if base.owner == null then {} else {base.owner.node}`state
      reads `storyPath, `triggerableEventIds, `availableClues, `providedClues
    {
      base.CanUse(d) && (|storyPath| > 0 || |triggerableEventIds| > 0 || |availableClues| > |providedClues|)
    }

    /** The clue branch of `Use`: hand out the next clues; it succeeds when there was a clue to give. */
    method UseClues() returns (ok: bool)
      requires Valid()
      modifies `currentClueIndex, `providedClues, `trackedMemories, `memoryImportance
      modifies if base.owner == null then {} else {base.owner.node}`triggerEvents
      ensures ok <==> exists x :: x in providedClues && x !in old(providedClues)
      ensures !old(randomizeClueOrder) && old(|availableClues| > |providedClues|) ==> ok
      ensures Valid()
    {
      RemainingClues(clueOrder, providedClues, availableClues);
      var next := GetNextClues(maxCluesPerInteraction);
      ok := |next| > 0;
      if ok {
        ghost var before := providedClues;
        ProvideClues(next);
        assert next[0] in providedClues && next[0] !in before;
      }
    }

    /** The story branch of `Use`: the story moves to the next beat on its path. */
    method UseStory(storyNodes: seq<InteractiveNode>)
      requires Valid() && StoryCanAdvance()
      modifies `currentStoryBeat, `currentStoryIndex, `trackedMemories, `memoryImportance
      modifies (set n | n in storyNodes)`state, (set n | n in storyNodes)`stateChanges
      ensures Valid()
      ensures base.owner != null && old(storyPath[currentStoryIndex + 1]) != "" ==> currentStoryIndex == old(currentStoryIndex) + 1
    {
      ProcessStoryAdvancement(storyNodes);
    }

    /** The event branch of `Use`: the first triggerable event not yet triggered is triggered (or queued). */
    method TriggerFirstPending() returns (ok: bool)
      requires Valid()
      modifies `eventQueue, `triggeredEvents, `trackedMemories, `memoryImportance
      modifies if base.owner == null then {} else {base.owner.node}`triggerEvents
      ensures ok <==> exists e :: e in triggerableEventIds && e !in old(triggeredEvents)
      ensures ok ==> |triggeredEvents| + |eventQueue| == |old(triggeredEvents)| + |old(eventQueue)| + 1
      ensures !ok ==> triggeredEvents == old(triggeredEvents) && eventQueue == old(eventQueue)
      ensures Valid()
    {
      var i := FirstPending();
      if i == |triggerableEventIds| {
        return false;
      }
      ok := TriggerEvent(triggerableEventIds[i]);
    }

    /** The position of the first triggerable event not yet triggered, or the list's length when there is none. */
    method FirstPending() returns (i: nat)
      ensures i <= |triggerableEventIds|
      ensures forall k :: 0 <= k < i ==> triggerableEventIds[k] in triggeredEvents
      ensures i < |triggerableEventIds| ==> triggerableEventIds[i] !in triggeredEvents
    {
      i := 0;
      while i < |triggerableEventIds|
        invariant i <= |triggerableEventIds|
        invariant forall k :: 0 <= k < i ==> triggerableEventIds[k] in triggeredEvents
      {
        if !HasEventBeenTriggered(triggerableEventIds[i]) {
          return;
        }
        i := i + 1;
      }
    }

    /**
     * The narrative part of `Use`, once the base use went ahead: the story
     * moves on when it can; otherwise, with clues left, the next clues are
     * handed out; otherwise the first pending event is triggered.
     */
    method Narrate(storyNodes: seq<InteractiveNode>) returns (ok: bool)
      requires Valid()
      modifies `currentStoryBeat, `currentStoryIndex, `trackedMemories, `memoryImportance
      modifies (set n | n in storyNodes)`state, (set n | n in storyNodes)`stateChanges
      modifies `currentClueIndex, `providedClues, `eventQueue, `triggeredEvents
      modifies if base.owner == null then {} else {base.owner.node}`triggerEvents
      ensures Valid()
      ensures old(StoryCanAdvance()) ==>
        ok && (base.owner != null && old(storyPath[currentStoryIndex + 1]) != "" ==> currentStoryIndex == old(currentStoryIndex) + 1)
      ensures !old(StoryCanAdvance()) && old(|availableClues| > |providedClues|) ==>
        (ok <==> exists x :: x in providedClues && x !in old(providedClues)) &&
        (!old(randomizeClueOrder) ==> ok)
      ensures !old(StoryCanAdvance()) && old(|availableClues| <= |providedClues|) ==>
        (ok <==> exists e :: e in triggerableEventIds && e !in old(triggeredEvents))
    {
      if StoryCanAdvance() {
        UseStory(storyNodes);
        ok := true;
      } else if |availableClues| > |providedClues| {
        ok := UseClues();
      } else {
        ok := TriggerFirstPending();
      }
    }

    /** `Use`: refused exactly when `CanUse` fails; otherwise the base use starts the cooldown and the capability narrates. */
    method Use(d: InteractionData, storyNodes: seq<InteractiveNode>) returns (ok: bool)
      requires Valid()
      modifies base`currentCooldown, `currentStoryBeat, `currentStoryIndex, `trackedMemories, `memoryImportance
      modifies (set n | n in storyNodes)`state, (set n | n in storyNodes)`stateChanges
      modifies `currentClueIndex, `providedClues, `eventQueue, `triggeredEvents
      modifies if base.owner == null then {} else {base.owner.node}`triggerEvents
      ensures Valid()
      ensures !old(CanUse(d)) ==> !ok && base.currentCooldown == old(base.currentCooldown)
      ensures old(CanUse(d)) && base.cooldownDuration > 0.0 ==> base.currentCooldown == base.cooldownDuration
      ensures old(CanUse(d)) && old(StoryCanAdvance()) ==>
        ok && (old(storyPath[currentStoryIndex + 1]) != "" ==> currentStoryIndex == old(currentStoryIndex) + 1)
      ensures old(CanUse(d)) && !old(StoryCanAdvance()) && old(|availableClues| > |providedClues|) ==>
        (ok <==> exists x :: x in providedClues && x !in old(providedClues)) &&
        (!old(randomizeClueOrder) ==> ok)
      ensures old(CanUse(d)) && !old(StoryCanAdvance()) && old(|availableClues| <= |providedClues|) ==>
        (ok <==> exists e :: e in triggerableEventIds && e !in old(triggeredEvents))
    {
      if !CanUse(d) {
        return false;
      }
      var used := base.Use(d);
      ok := Narrate(storyNodes);
    }

    /** `OnOwnerStateChanged`: the base hook, then a completed owner moves an auto-advancing story on. */
    method OnOwnerStateChanged(s: NodeState, storyNodes: seq<InteractiveNode>)
      requires MemoryValid() && StoryValid()
      modifies base`engineActive, `currentStoryBeat, `currentStoryIndex, `trackedMemories, `memoryImportance
      modifies (set n | n in storyNodes)`state, (set n | n in storyNodes)`stateChanges
      ensures MemoryValid() && StoryValid()
      ensures !(s == Completed && autoAdvanceStory) ==>
        currentStoryBeat == old(currentStoryBeat) && currentStoryIndex == old(currentStoryIndex)
      ensures s == Completed && autoAdvanceStory && old(StoryCanAdvance()) && base.owner != null &&
              old(storyPath[currentStoryIndex + 1]) != "" ==>
        currentStoryIndex == old(currentStoryIndex) + 1
    {
      base.OnOwnerStateChanged(s);
      if s == Completed && autoAdvanceStory {
        ProcessStoryAdvancement(storyNodes);
      }
    }

    /** `ApplyConfigValue`: a recognised key updates its field or entry, and the raw pair is always kept. */
    method ApplyConfigValue(key: string, value: string)
      requires CluesValid()
      modifies `maxMemoryCount, `maxCluesPerInteraction, `eventTriggerDelay, `autoAdvanceStory, `randomizeClueOrder
      modifies `storyFragments, `storyPath, `triggerableEventIds, `eventDescriptions, `availableClues, `clueOrder
      modifies `narrativeConfig
      ensures narrativeConfig == old(narrativeConfig)[key := value]
      ensures maxMemoryCount == if ConfigKeyOf(key) == MaxMemoryKey then Atoi(value) else old(maxMemoryCount)
      ensures maxCluesPerInteraction == if ConfigKeyOf(key) == MaxCluesKey then Atoi(value) else old(maxCluesPerInteraction)
      ensures eventTriggerDelay == if ConfigKeyOf(key) == DelayKey then Atof(value) else old(eventTriggerDelay)
      ensures autoAdvanceStory == if ConfigKeyOf(key) == AutoAdvanceKey then ToBool(value) else old(autoAdvanceStory)
      ensures randomizeClueOrder == if ConfigKeyOf(key) == RandomizeKey then ToBool(value) else old(randomizeClueOrder)
      ensures storyFragments == if ConfigKeyOf(key).StoryKey? then old(storyFragments)[ConfigKeyOf(key).beat := value] else old(storyFragments)
      ensures storyPath == if ConfigKeyOf(key).StoryKey? then AddUnique(old(storyPath), ConfigKeyOf(key).beat) else old(storyPath)
      ensures triggerableEventIds == if ConfigKeyOf(key).EventKey? then old(triggerableEventIds) + [ConfigKeyOf(key).event] else old(triggerableEventIds)
      ensures eventDescriptions == if ConfigKeyOf(key).EventKey? then old(eventDescriptions)[ConfigKeyOf(key).event := value] else old(eventDescriptions)
      ensures availableClues == if ConfigKeyOf(key).ClueKey? then old(availableClues)[ConfigKeyOf(key).clue := value] else old(availableClues)
      ensures old(NoDup(storyPath)) ==> NoDup(storyPath)
      ensures CluesValid()
    {
      ApplyConfigKey(ConfigKeyOf(key), value);
      narrativeConfig := narrativeConfig[key := value];
    }

    /** A `Clue_` entry: the clue text is stored under its id, a new id joining the clue order. */
    method AddClue(clue: string, text: string)
      requires CluesValid()
      modifies `availableClues, `clueOrder
      ensures availableClues == old(availableClues)[clue := text]
      ensures clueOrder == AddUnique(old(clueOrder), clue)
      ensures CluesValid()
    {
      if clue !in clueOrder {
        NoDupSnoc(clueOrder, clue);
      }
      availableClues := availableClues[clue := text];
      clueOrder := AddUnique(clueOrder, clue);
    }

    /** The field update of `ApplyConfigValue` for an already classified key. */
    method ApplyConfigKey(k: ConfigKey, value: string)
      requires CluesValid()
      modifies `maxMemoryCount, `maxCluesPerInteraction, `eventTriggerDelay, `autoAdvanceStory, `randomizeClueOrder
      modifies `storyFragments, `storyPath, `triggerableEventIds, `eventDescriptions, `availableClues, `clueOrder
      ensures maxMemoryCount == if k == MaxMemoryKey then Atoi(value) else old(maxMemoryCount)
      ensures maxCluesPerInteraction == if k == MaxCluesKey then Atoi(value) else old(maxCluesPerInteraction)
      ensures eventTriggerDelay == if k == DelayKey then Atof(value) else old(eventTriggerDelay)
      ensures autoAdvanceStory == if k == AutoAdvanceKey then ToBool(value) else old(autoAdvanceStory)
      ensures randomizeClueOrder == if k == RandomizeKey then ToBool(value) else old(randomizeClueOrder)
      ensures storyFragments == if k.StoryKey? then old(storyFragments)[k.beat := value] else old(storyFragments)
      ensures storyPath == if k.StoryKey? then AddUnique(old(storyPath), k.beat) else old(storyPath)
      ensures triggerableEventIds == if k.EventKey? then old(triggerableEventIds) + [k.event] else old(triggerableEventIds)
      ensures eventDescriptions == if k.EventKey? then old(eventDescriptions)[k.event := value] else old(eventDescriptions)
      ensures availableClues == if k.ClueKey? then old(availableClues)[k.clue := value] else old(availableClues)
      ensures old(NoDup(storyPath)) ==> NoDup(storyPath)
      ensures CluesValid()
    {
      if k.StoryKey? || k.EventKey? || k.ClueKey? {
        ApplyEntry(k, value);
      } else {
        ApplySetting(k, value);
      }
    }

    /** The five settings keys of `ApplyConfigValue`. */
    method ApplySetting(k: ConfigKey, value: string)
      modifies `maxMemoryCount, `maxCluesPerInteraction, `eventTriggerDelay, `autoAdvanceStory, `randomizeClueOrder
      ensures maxMemoryCount == if k == MaxMemoryKey then Atoi(value) else old(maxMemoryCount)
      ensures maxCluesPerInteraction == if k == MaxCluesKey then Atoi(value) else old(maxCluesPerInteraction)
      ensures eventTriggerDelay == if k == DelayKey then Atof(value) else old(eventTriggerDelay)
      ensures autoAdvanceStory == if k == AutoAdvanceKey then ToBool(value) else old(autoAdvanceStory)
      ensures randomizeClueOrder == if k == RandomizeKey then ToBool(value) else old(randomizeClueOrder)
    {
      match k
      case MaxMemoryKey => maxMemoryCount := Atoi(value);
      case MaxCluesKey => maxCluesPerInteraction := Atoi(value);
      case DelayKey => eventTriggerDelay := Atof(value);
      case AutoAdvanceKey => autoAdvanceStory := ToBool(value);
      case RandomizeKey => randomizeClueOrder := ToBool(value);
      case _ =>
    }

    /** The Story_, Event_ and Clue_ keys of `ApplyConfigValue`. */
    method ApplyEntry(k: ConfigKey, value: string)
      requires CluesValid()
      modifies `storyFragments, `storyPath, `triggerableEventIds, `eventDescriptions, `availableClues, `clueOrder
      ensures storyFragments == if k.StoryKey? then old(storyFragments)[k.beat := value] else old(storyFragments)
      ensures storyPath == if k.StoryKey? then AddUnique(old(storyPath), k.beat) else old(storyPath)
      ensures triggerableEventIds == if k.EventKey? then old(triggerableEventIds) + [k.event] else old(triggerableEventIds)
      ensures eventDescriptions == if k.EventKey? then old(eventDescriptions)[k.event := value] else old(eventDescriptions)
      ensures availableClues == if k.ClueKey? then old(availableClues)[k.clue := value] else old(availableClues)
      ensures old(NoDup(storyPath)) ==> NoDup(storyPath)
      ensures CluesValid()
    {
      match k
      case StoryKey(beat) => AddStoryFragment(beat, value);
      case EventKey(event) =>
        triggerableEventIds := triggerableEventIds + [event];
        eventDescriptions := eventDescriptions[event := value];
      case ClueKey(clue) => AddClue(clue, value);
      case _ =>
    }
  }

  /** On a path without repeated beats, the index of the beat at position `k` is `k`. */
  lemma IndexOfDistinct(path: seq<string>, k: int)
    requires NoDup(path) && 0 <= k < |path|
    ensures IndexOf(path, path[k]) == k
  {
  }

  /** Moving one beat on along a path strictly raises the progress. */
  lemma StoryProgressRises(pathLength: nat, index: int)
    requires 0 <= index && index + 1 < pathLength
    ensures StoryProgress(pathLength, index + 1) > StoryProgress(pathLength, index)
  {
    var d := (pathLength - 1) as real;
    assert (index + 1) as real / d == index as real / d + 1.0 / d;
  }

}
