/**
 * The interactive capability: observation, dialogue, item exchange,
 * answer validation with limited attempts, and node comparison.
 *
 * The manager calls are outside the capability. The connection the
 * manager creates when an item is given (a Trigger connection to the new
 * item node) or when two nodes prove similar (a Mutual connection) is
 * passed in as `created`, null when the manager is missing or refuses.
 */
module InteractiveCapabilities {
  import opened Util
  import opened Text
  import opened NodeTypes
  import opened Nodes
  import opened Connections
  import opened Items

  /** The response added to the "Completed" dialogue option when the owner completes. */
  const CompletedResponse: string := "感谢您的帮助！"

  /** The attempts left on a question: what remains of the allowance, never below zero. */
  function RemainingAttempts(maxAttempts: int, attempts: int): (r: int)
    ensures r >= 0
    ensures r == 0 <==> attempts >= maxAttempts
    ensures r > 0 ==> attempts + r == maxAttempts
  {
    Max(0, maxAttempts - attempts)
  }

  /**
   * `CompareNodeProperties`: a custom property both nodes carry is
   * compared exactly; otherwise the keys NodeType and State (any case)
   * compare the type and the current state; any other key does not match.
   */
  predicate CompareNodeProperties(a: InteractiveNode?, b: InteractiveNode?, key: string)
    reads a, b
  {
    if a == null || b == null then false
    else if key in a.data.customProperties && key in b.data.customProperties then
      a.data.customProperties[key] == b.data.customProperties[key]
    else if EqualsIgnoreCase(key, "NodeType") then a.data.nodeType == b.data.nodeType
    else if EqualsIgnoreCase(key, "State") then a.state == b.state
    else false
  }

  /** How many of `keys` the two nodes agree on. */
  function MatchCount(a: InteractiveNode?, b: InteractiveNode?, keys: seq<string>): (m: nat)
    reads a, b
    ensures m <= |keys|
    ensures m == |keys| <==> forall i :: 0 <= i < |keys| ==> CompareNodeProperties(a, b, keys[i])
    ensures m == 0 <==> forall i :: 0 <= i < |keys| ==> !CompareNodeProperties(a, b, keys[i])
  {
    if keys == [] then 0
    else
      var rest := MatchCount(a, b, keys[1..]);
      assert forall i :: 1 <= i < |keys| ==> keys[i] == keys[1..][i - 1];
      (if CompareNodeProperties(a, b, keys[0]) then 1 else 0) + rest
  }

  /** The configuration keys the interactive capability recognises. */
  datatype ConfigKey =
    | DistanceKey | MaxAttemptsKey | ThresholdKey | EmotionKey
    | ObservableKey(info: string) | DialogueKey(option: string) | ResponseKey(option: string)
    | OtherKey

  /**
   * How `ApplyConfigValue` reads a key: four field names compared ignoring
   * case, then the Observable_, Dialogue_ and Response_ prefixes, which are
   * chopped off to leave the entry's id.
   */
  function ConfigKeyOf(key: string): ConfigKey
  {
    if EqualsIgnoreCase(key, "ObservationDistance") then DistanceKey
    else if EqualsIgnoreCase(key, "MaxAttempts") then MaxAttemptsKey
    else if EqualsIgnoreCase(key, "ComparisonThreshold") then ThresholdKey
    else if EqualsIgnoreCase(key, "EmotionAffectsDialogue") then EmotionKey
    else if StartsWithIgnoreCase(key, "Observable_") then ObservableKey(RightChop(key, 11))
    else if StartsWithIgnoreCase(key, "Dialogue_") then DialogueKey(RightChop(key, 9))
    else if StartsWithIgnoreCase(key, "Response_") then ResponseKey(RightChop(key, 9))
    else OtherKey
  }

  /** Every field name selects its field, and each prefix hands over exactly the id after it. */
  lemma ConfigKeysSelect(key: string, id: string)
    ensures EqualsIgnoreCase(key, "ObservationDistance") ==> ConfigKeyOf(key) == DistanceKey
    ensures EqualsIgnoreCase(key, "MaxAttempts") ==> ConfigKeyOf(key) == MaxAttemptsKey
    ensures EqualsIgnoreCase(key, "ComparisonThreshold") ==> ConfigKeyOf(key) == ThresholdKey
    ensures EqualsIgnoreCase(key, "EmotionAffectsDialogue") ==> ConfigKeyOf(key) == EmotionKey
    ensures ConfigKeyOf("Observable_" + id) == ObservableKey(id)
    ensures ConfigKeyOf("Dialogue_" + id) == DialogueKey(id)
    ensures ConfigKeyOf("Response_" + id) == ResponseKey(id)
  {
    FieldNamesSelect(key);
    ObservableSelects(id);
    DialogueSelects(id);
    ResponseSelects(id);
  }

  lemma FieldNamesSelect(key: string)
    ensures EqualsIgnoreCase(key, "ObservationDistance") ==> ConfigKeyOf(key) == DistanceKey
    ensures EqualsIgnoreCase(key, "MaxAttempts") ==> ConfigKeyOf(key) == MaxAttemptsKey
    ensures EqualsIgnoreCase(key, "ComparisonThreshold") ==> ConfigKeyOf(key) == ThresholdKey
    ensures EqualsIgnoreCase(key, "EmotionAffectsDialogue") ==> ConfigKeyOf(key) == EmotionKey
  {
    if |key| > 0 {
      assert EqualsIgnoreCase(key, "ComparisonThreshold") ==> Lower(key[0]) == 'c';
      assert EqualsIgnoreCase(key, "ObservationDistance") ==> Lower(key[0]) == 'o';
    }
  }

  lemma ObservableSelects(id: string)
    ensures ConfigKeyOf("Observable_" + id) == ObservableKey(id)
  {
    var k := "Observable_" + id;
    ChopPrefix("Observable_", id);
    LetterApart(k, "Observable_", "ObservationDistance", 7);
    LetterApart(k, "Observable_", "MaxAttempts", 0);
    LetterApart(k, "Observable_", "ComparisonThreshold", 0);
    LetterApart(k, "Observable_", "EmotionAffectsDialogue", 0);
  }

  lemma DialogueSelects(id: string)
    ensures ConfigKeyOf("Dialogue_" + id) == DialogueKey(id)
  {
    var k := "Dialogue_" + id;
    ChopPrefix("Dialogue_", id);
    LetterApart(k, "Dialogue_", "ObservationDistance", 0);
    LetterApart(k, "Dialogue_", "MaxAttempts", 0);
    LetterApart(k, "Dialogue_", "ComparisonThreshold", 0);
    LetterApart(k, "Dialogue_", "EmotionAffectsDialogue", 0);
    LetterApart(k, "Dialogue_", "Observable_", 0);
  }

  lemma ResponseSelects(id: string)
    ensures ConfigKeyOf("Response_" + id) == ResponseKey(id)
  {
    var k := "Response_" + id;
    ChopPrefix("Response_", id);
    LetterApart(k, "Response_", "ObservationDistance", 0);
    LetterApart(k, "Response_", "MaxAttempts", 0);
    LetterApart(k, "Response_", "ComparisonThreshold", 0);
    LetterApart(k, "Response_", "EmotionAffectsDialogue", 0);
    LetterApart(k, "Response_", "Observable_", 0);
    LetterApart(k, "Response_", "Dialogue_", 0);
  }

  class InteractiveCapability {
    const base: ItemCapability
    var observableInfo: map<string, string>
    var observationDistance: real
    var distanceAffectsDetail: bool
    var dialogueOptions: map<string, string>
    var dialogueResponses: map<string, string>
    var dialogueHistory: seq<string>
    var currentDialogueState: string
    var emotionAffectsDialogue: bool
    var givableItems: map<string, string>
    var acceptableItems: map<string, string>
    var receivedItems: seq<string>
    var correctAnswers: map<string, string>
    var maxAttempts: int
    var attemptCounts: map<string, int>
    var caseSensitive: bool
    var comparisonKeys: seq<string>
    var comparisonThreshold: real
    var interactionConfig: map<string, string>
    var itemConnectionMap: map<string, NodeConnection>

    /** The defaults: three attempts, answers compared ignoring case, a 0.8 similarity threshold. */
    constructor()
      ensures fresh(base) && base.kind == Interactive && base.owner == null && !base.capabilityActive
      ensures base.currentCooldown == 0.0 && base.cooldownDuration == 0.0
      ensures observableInfo == map[] && observationDistance == 1000.0 && distanceAffectsDetail
      ensures dialogueOptions == map[] && dialogueResponses == map[] && dialogueHistory == []
      ensures currentDialogueState == "Initial" && !emotionAffectsDialogue
      ensures givableItems == map[] && acceptableItems == map[] && receivedItems == []
      ensures correctAnswers == map[] && maxAttempts == 3 && attemptCounts == map[] && !caseSensitive
      ensures comparisonKeys == [] && comparisonThreshold == 0.8
      ensures interactionConfig == map[] && itemConnectionMap == map[]
    {
      base := new ItemCapability(Interactive);
      observableInfo := map[];
      observationDistance := 1000.0;
      distanceAffectsDetail := true;
      dialogueOptions := map[];
      dialogueResponses := map[];
      dialogueHistory := [];
      currentDialogueState := "Initial";
      emotionAffectsDialogue := false;
      givableItems := map[];
      acceptableItems := map[];
      receivedItems := [];
      correctAnswers := map[];
      maxAttempts := 3;
      attemptCounts := map[];
      caseSensitive := false;
      comparisonKeys := [];
      comparisonThreshold := 0.8;
      interactionConfig := map[];
      itemConnectionMap := map[];
    }

    /** The owner as a node, or null. */
    function OwnerNode(): InteractiveNode?
      reads base`owner
    {
      if base.owner == null then null else base.owner.node
    }

    /**
     * `CanUse`: the base gate; then a click needs dialogue or something to
     * observe, a drag needs items to give or accept, and any other
     * interaction passes.
     */
    predicate CanUse(d: InteractionData)
      reads this, base`capabilityActive, base`owner, base`currentCooldown
      reads if base.owner == null then {} else {base.owner.node}`state
    {
      base.CanUse(d) &&
      match d.interactionType
      case Click => |dialogueOptions| > 0 || |observableInfo| > 0
      case Drag => |givableItems| > 0 || |acceptableItems| > 0
      case _ => true
    }

    /** The attempts recorded for a question, 0 when none are. */
    function AttemptsOf(q: string): int
      reads this
    {
      if q in attemptCounts then attemptCounts[q] else 0
    }

    /** `GetRemainingAttempts`. */
    function GetRemainingAttempts(q: string): int
      reads this
    {
      RemainingAttempts(maxAttempts, AttemptsOf(q))
    }

    /** The answer comparison: exact when case-sensitive, otherwise ignoring case. */
    predicate AnswerMatches(answer: string, expected: string)
      reads this
    {
      if caseSensitive then answer == expected else EqualsIgnoreCase(answer, expected)
    }

    /** `CanReceiveItem`. */
    predicate CanReceiveItem(id: string)
      reads this
    {
      id in acceptableItems
    }

    /**
     * `CalculateSimilarity`: the share of comparison keys on which the
     * owner and the other node agree; 0 without another node or without
     * keys.
     */
    function CalculateSimilarity(other: InteractiveNode?): (r: real)
      reads this, base`owner, OwnerNode(), other
      ensures 0.0 <= r <= 1.0
      ensures r == 1.0 <==> other != null && |comparisonKeys| > 0 &&
                            forall i :: 0 <= i < |comparisonKeys| ==> CompareNodeProperties(OwnerNode(), other, comparisonKeys[i])
      ensures r == 0.0 <==> other == null || forall i :: 0 <= i < |comparisonKeys| ==> !CompareNodeProperties(OwnerNode(), other, comparisonKeys[i])
    {
      if other == null || |comparisonKeys| == 0 then 0.0
      else
        var m := MatchCount(OwnerNode(), other, comparisonKeys);
        ShareBounds(m, |comparisonKeys|);
        (m as real) / (|comparisonKeys| as real)
    }

    /** `AddObservableInfo`. */
    method AddObservableInfo(key: string, info: string)
      modifies `observableInfo
      ensures observableInfo == old(observableInfo)[key := info]
    {
      observableInfo := observableInfo[key := info];
    }

    /** `AddDialogueOption`: the option's text and its response. */
    method AddDialogueOption(id: string, text: string, response: string)
      modifies `dialogueOptions, `dialogueResponses
      ensures dialogueOptions == old(dialogueOptions)[id := text]
      ensures dialogueResponses == old(dialogueResponses)[id := response]
    {
      dialogueOptions := dialogueOptions[id := text];
      dialogueResponses := dialogueResponses[id := response];
    }

    /** `ClearDialogueHistory`: no history, and the dialogue back at "Initial". */
    method ClearDialogueHistory()
      modifies `dialogueHistory, `currentDialogueState
      ensures dialogueHistory == [] && currentDialogueState == "Initial"
    {
      dialogueHistory := [];
      currentDialogueState := "Initial";
    }

    /**
     * `ProcessDialogue`: an option without a response answers "..." and
     * changes nothing. Otherwise the history gains the option and the
     * response, the dialogue moves to the option, and the owner records a
     * DialogueProcessed event for it.
     */
    method ProcessDialogue(id: string) returns (response: string)
      modifies `dialogueHistory, `currentDialogueState
      modifies if base.owner == null then {} else {base.owner.node}`triggerEvents
      ensures id !in dialogueResponses ==>
        && response == "..."
        && dialogueHistory == old(dialogueHistory) && currentDialogueState == old(currentDialogueState)
        && (base.owner == null || base.owner.node.triggerEvents == old(base.owner.node.triggerEvents))
      ensures id in dialogueResponses ==>
        && response == dialogueResponses[id]
        && dialogueHistory == old(dialogueHistory) + ["Option: " + id, "Response: " + response]
        && currentDialogueState == id
        && (base.owner == null ||
            base.owner.node.triggerEvents == WithTriggerEvent(old(base.owner.node.triggerEvents), "DialogueProcessed_" + id))
    {
      if id !in dialogueResponses {
        return "...";
      }
      response := dialogueResponses[id];
      dialogueHistory := dialogueHistory + ["Option: " + id, "Response: " + response];
      currentDialogueState := id;
      if base.owner != null {
        base.owner.node.AddTriggerEvent("DialogueProcessed_" + id);
      }
    }

    /**
     * `GiveItem`: refused for an item that is not givable or without an
     * owner; otherwise it succeeds exactly when the manager created the
     * item and its Trigger connection, and then the item stops being
     * givable and its connection is recorded.
     */
    method GiveItem(id: string, created: NodeConnection?) returns (ok: bool)
      modifies `givableItems, `itemConnectionMap
      ensures ok <==> id in old(givableItems) && base.owner != null && created != null
      ensures ok ==> givableItems == old(givableItems) - {id} && itemConnectionMap == old(itemConnectionMap)[id := created]
      ensures !ok ==> givableItems == old(givableItems) && itemConnectionMap == old(itemConnectionMap)
    {
      if id !in givableItems || base.owner == null {
        return false;
      }
      if created == null {
        return false;
      }
      itemConnectionMap := itemConnectionMap[id := created];
      givableItems := givableItems - {id};
      ok := true;
    }

    /**
     * `ReceiveItem`: only acceptable items are received, each appended even
     * if it came before; once as many items were received as are
     * acceptable, the owner is Completed.
     */
    method ReceiveItem(id: string) returns (ok: bool)
      modifies `receivedItems
      modifies if base.owner == null then {} else {base.owner.node}`state
      modifies if base.owner == null then {} else {base.owner.node}`stateChanges
      ensures ok <==> id in acceptableItems
      ensures ok ==> receivedItems == old(receivedItems) + [id]
      ensures !ok ==> receivedItems == old(receivedItems)
      ensures base.owner != null ==>
        base.owner.node.state == if ok && |receivedItems| >= |acceptableItems| then Completed else old(base.owner.node.state)
    {
      if !CanReceiveItem(id) {
        return false;
      }
      receivedItems := receivedItems + [id];
      if |receivedItems| >= |acceptableItems| && base.owner != null {
        base.owner.node.SetNodeState(Completed);
      }
      ok := true;
    }

    /**
     * `ValidateAnswer`: false for an unknown question, and false without
     * counting once the attempts are used up. Otherwise the attempt is
     * counted before the answer is compared, and a correct answer
     * completes the owner.
     */
    method ValidateAnswer(q: string, answer: string) returns (ok: bool)
      modifies `attemptCounts
      modifies if base.owner == null then {} else {base.owner.node}`state
      modifies if base.owner == null then {} else {base.owner.node}`stateChanges
      ensures var counted := q in correctAnswers && old(AttemptsOf(q)) < maxAttempts;
        && (counted ==> attemptCounts == old(attemptCounts)[q := old(AttemptsOf(q)) + 1])
        && (counted ==> GetRemainingAttempts(q) == old(GetRemainingAttempts(q)) - 1)
        && (!counted ==> attemptCounts == old(attemptCounts))
        && (ok <==> counted && AnswerMatches(answer, correctAnswers[q]))
      ensures ok ==> old(GetRemainingAttempts(q)) > 0
      ensures base.owner != null ==> base.owner.node.state == if ok then Completed else old(base.owner.node.state)
    {
      if q !in correctAnswers {
        return false;
      }
      var current := AttemptsOf(q);
      if current >= maxAttempts {
        return false;
      }
      attemptCounts := attemptCounts[q := current + 1];
      ok := AnswerMatches(answer, correctAnswers[q]);
      if ok && base.owner != null {
        base.owner.node.SetNodeState(Completed);
      }
    }

    /** `ResetAttempts`: the question's count is forgotten, so every attempt is available again. */
    method ResetAttempts(q: string)
      modifies `attemptCounts
      ensures attemptCounts == old(attemptCounts) - {q}
      ensures GetRemainingAttempts(q) == Max(0, maxAttempts)
    {
      attemptCounts := attemptCounts - {q};
    }

    /**
     * `CompareWithNode`: with another node, an owner and comparison keys,
     * a similarity at the threshold or above succeeds exactly when the
     * manager created the Mutual connection.
     */
    method CompareWithNode(other: InteractiveNode?, created: NodeConnection?) returns (ok: bool)
      ensures ok <==> other != null && base.owner != null && |comparisonKeys| > 0 &&
                      CalculateSimilarity(other) >= comparisonThreshold && created != null
    {
      if other == null || base.owner == null || |comparisonKeys| == 0 {
        return false;
      }
      var similarity := CalculateSimilarity(other);
      ok := similarity >= comparisonThreshold && created != null;
    }

    /** `OnOwnerStateChanged`: the base hook, and on completion the configured "CompletedDialogue" becomes an option. */
    method OnOwnerStateChanged(s: NodeState)
      modifies base`engineActive, `dialogueOptions, `dialogueResponses
      ensures s == Completed && "CompletedDialogue" in interactionConfig ==>
        dialogueOptions == old(dialogueOptions)["Completed" := interactionConfig["CompletedDialogue"]] &&
        dialogueResponses == old(dialogueResponses)["Completed" := CompletedResponse]
      ensures !(s == Completed && "CompletedDialogue" in interactionConfig) ==>
        dialogueOptions == old(dialogueOptions) && dialogueResponses == old(dialogueResponses)
    {
      base.OnOwnerStateChanged(s);
      if s == Completed && "CompletedDialogue" in interactionConfig {
        AddDialogueOption("Completed", interactionConfig["CompletedDialogue"], CompletedResponse);
      }
    }

    /**
     * `Use`: refused exactly when `CanUse` fails. A click processes the
     * first dialogue option when there are options, or else succeeds in
     * observing when there is something to observe and an instigator; a
     * drag gives the first givable item; any other interaction has no
     * effect and fails.
     */
    method Use(d: InteractionData, created: NodeConnection?) returns (ok: bool)
      modifies base`currentCooldown, `dialogueHistory, `currentDialogueState, `givableItems, `itemConnectionMap
      modifies if base.owner == null then {} else {base.owner.node}`triggerEvents
      ensures !old(CanUse(d)) ==> !ok && base.currentCooldown == old(base.currentCooldown)
      ensures old(CanUse(d)) && d.interactionType == Click ==>
        (ok <==> old(|dialogueOptions|) > 0 || (old(|observableInfo|) > 0 && d.instigator.Some?))
      ensures old(CanUse(d)) && d.interactionType == Click && old(|dialogueOptions|) > 0 ==>
        exists id :: id in old(dialogueOptions) &&
          if id in dialogueResponses
          then dialogueHistory == old(dialogueHistory) + ["Option: " + id, "Response: " + dialogueResponses[id]] &&
               currentDialogueState == id
          else dialogueHistory == old(dialogueHistory) && currentDialogueState == old(currentDialogueState)
      ensures old(CanUse(d)) && d.interactionType == Drag ==>
        (ok <==> old(|givableItems|) > 0 && base.owner != null && created != null)
      ensures ok && d.interactionType == Drag ==>
        exists id :: id in old(givableItems) && givableItems == old(givableItems) - {id}
      ensures old(CanUse(d)) && d.interactionType !in {Click, Drag} ==> !ok
      ensures d.interactionType != Drag ==> givableItems == old(givableItems)
    {
      if !CanUse(d) {
        return false;
      }
      var used := base.Use(d);
      ok := false;
      match d.interactionType {
        case Click =>
          if |dialogueOptions| > 0 {
            var id :| id in dialogueOptions;
            var _ := ProcessDialogue(id);
            ok := true;
          } else if |observableInfo| > 0 && d.instigator.Some? {
            ok := true;
          }
        case Drag =>
          if |givableItems| > 0 {
            var id :| id in givableItems;
            ok := GiveItem(id, created);
          }
        case _ =>
      }
    }

    /** `ApplyConfigValue`: a recognised key updates its field or map entry, and the raw pair is always kept. */
    method ApplyConfigValue(key: string, value: string)
      modifies `observationDistance, `maxAttempts, `comparisonThreshold, `emotionAffectsDialogue
      modifies `observableInfo, `dialogueOptions, `dialogueResponses, `interactionConfig
      ensures interactionConfig == old(interactionConfig)[key := value]
      ensures observationDistance == if ConfigKeyOf(key) == DistanceKey then Atof(value) else old(observationDistance)
      ensures maxAttempts == if ConfigKeyOf(key) == MaxAttemptsKey then Atoi(value) else old(maxAttempts)
      ensures comparisonThreshold == if ConfigKeyOf(key) == ThresholdKey then Atof(value) else old(comparisonThreshold)
      ensures emotionAffectsDialogue == if ConfigKeyOf(key) == EmotionKey then ToBool(value) else old(emotionAffectsDialogue)
      ensures observableInfo == if ConfigKeyOf(key).ObservableKey? then old(observableInfo)[ConfigKeyOf(key).info := value] else old(observableInfo)
      ensures dialogueOptions == if ConfigKeyOf(key).DialogueKey? then old(dialogueOptions)[ConfigKeyOf(key).option := value] else old(dialogueOptions)
      ensures dialogueResponses == if ConfigKeyOf(key).ResponseKey? then old(dialogueResponses)[ConfigKeyOf(key).option := value] else old(dialogueResponses)
    {
      ApplyConfigKey(ConfigKeyOf(key), value);
      interactionConfig := interactionConfig[key := value];
    }

    /** The field update of `ApplyConfigValue` for an already classified key. */
    method ApplyConfigKey(k: ConfigKey, value: string)
      modifies `observationDistance, `maxAttempts, `comparisonThreshold, `emotionAffectsDialogue
      modifies `observableInfo, `dialogueOptions, `dialogueResponses
      ensures observationDistance == if k == DistanceKey then Atof(value) else old(observationDistance)
      ensures maxAttempts == if k == MaxAttemptsKey then Atoi(value) else old(maxAttempts)
      ensures comparisonThreshold == if k == ThresholdKey then Atof(value) else old(comparisonThreshold)
      ensures emotionAffectsDialogue == if k == EmotionKey then ToBool(value) else old(emotionAffectsDialogue)
      ensures observableInfo == if k.ObservableKey? then old(observableInfo)[k.info := value] else old(observableInfo)
      ensures dialogueOptions == if k.DialogueKey? then old(dialogueOptions)[k.option := value] else old(dialogueOptions)
      ensures dialogueResponses == if k.ResponseKey? then old(dialogueResponses)[k.option := value] else old(dialogueResponses)
    {
      match k
      case DistanceKey => observationDistance := Atof(value);
      case MaxAttemptsKey => maxAttempts := Atoi(value);
      case ThresholdKey => comparisonThreshold := Atof(value);
      case EmotionKey => emotionAffectsDialogue := ToBool(value);
      case ObservableKey(info) => observableInfo := observableInfo[info := value];
      case DialogueKey(option) => dialogueOptions := dialogueOptions[option := value];
      case ResponseKey(option) => dialogueResponses := dialogueResponses[option := value];
      case OtherKey =>
    }
  }

  /** With no comparison keys, or no other node, nothing is similar; a node never falls below zero similarity. */
  lemma NoKeysNoSimilarity(c: InteractiveCapability, other: InteractiveNode?)
    requires |c.comparisonKeys| == 0 || other == null
    ensures c.CalculateSimilarity(other) == 0.0
  {
  }

  /**
   * Comparing the owner with itself is full similarity exactly when every
   * comparison key is one of the owner's custom properties or names the
   * node type or the state (ignoring case); any other key never matches.
   */
  lemma SelfIsSimilar(c: InteractiveCapability)
    requires c.base.owner != null && |c.comparisonKeys| > 0
    ensures var n := c.base.owner.node;
      c.CalculateSimilarity(n) == 1.0 <==>
      forall i :: 0 <= i < |c.comparisonKeys| ==>
        c.comparisonKeys[i] in n.data.customProperties ||
        EqualsIgnoreCase(c.comparisonKeys[i], "NodeType") || EqualsIgnoreCase(c.comparisonKeys[i], "State")
  {
    var n := c.base.owner.node;
    forall i | 0 <= i < |c.comparisonKeys|
      ensures CompareNodeProperties(n, n, c.comparisonKeys[i]) <==>
        c.comparisonKeys[i] in n.data.customProperties ||
        EqualsIgnoreCase(c.comparisonKeys[i], "NodeType") || EqualsIgnoreCase(c.comparisonKeys[i], "State")
    {
    }
  }
}
