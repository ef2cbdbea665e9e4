/**
 * The value-level rules behind the narrative capability: which memory is
 * forgotten and how far eviction goes, which clues come next, how a
 * combination is matched, how far the story has progressed, how template
 * variables are substituted, and how the delayed-event queue advances on
 * each timer tick.
 */
module NarrativeRules {
  import opened Util
  import opened Text

  /** `MAX_int32`, the starting point of the search for the least important memory. */
  const MaxInt32: int := 0x7FFF_FFFF

  /** The timer period of the delayed-event queue, in seconds. */
  const TickInterval: real := 0.1

  // ---------------------------------------------------------------- memory

  /** The importance of a memory, 0 when none is recorded. */
  function ImportanceOf(imp: map<string, int>, m: string): int
  {
    if m in imp then imp[m] else 0
  }

  /** Recording ignores empty strings, so no tracked memory is empty. */
  predicate NoEmptyMemory(mems: seq<string>)
  {
    forall i :: 0 <= i < |mems| ==> mems[i] != ""
  }

  /**
   * The position a left-to-right scan that keeps the strictly lowest
   * importance ends on: the first memory of least importance.
   */
  function FirstLeastIndex(mems: seq<string>, imp: map<string, int>): (j: nat)
    requires mems != []
    ensures j < |mems|
    ensures forall k :: 0 <= k < |mems| ==> ImportanceOf(imp, mems[j]) <= ImportanceOf(imp, mems[k])
    ensures forall k :: 0 <= k < j ==> ImportanceOf(imp, mems[k]) > ImportanceOf(imp, mems[j])
  {
    if |mems| == 1 then 0
    else
      var init := mems[..|mems| - 1];
      var j := FirstLeastIndex(init, imp);
      assert forall k :: 0 <= k < |init| ==> init[k] == mems[k];
      if ImportanceOf(imp, mems[|mems| - 1]) < ImportanceOf(imp, mems[j]) then |mems| - 1 else j
  }

  /**
   * The memory `ForgetOldestMemory` picks as written: the scan starts from
   * MAX_int32 and only a strictly lower importance is taken, so nothing is
   * picked when the list is empty or every importance is MAX_int32 or more.
   */
  function ForgetChoice(mems: seq<string>, imp: map<string, int>): (r: Option<string>)
    ensures r.Some? ==> r.value in mems && ImportanceOf(imp, r.value) < MaxInt32 &&
                        forall k :: 0 <= k < |mems| ==> ImportanceOf(imp, r.value) <= ImportanceOf(imp, mems[k])
    ensures r.None? <==> forall k :: 0 <= k < |mems| ==> ImportanceOf(imp, mems[k]) >= MaxInt32
  {
    if mems == [] then None
    else
      var j := FirstLeastIndex(mems, imp);
      if ImportanceOf(imp, mems[j]) < MaxInt32 then Some(mems[j]) else None
  }

  /** The lowest importance a scan from MAX_int32 has seen, given what it picked. */
  function LowestSoFar(picked: Option<string>, imp: map<string, int>): int
  {
    if picked.Some? then ImportanceOf(imp, picked.value) else MaxInt32
  }

  /** One more memory scanned: the least-importance position moves to it only when it is strictly lower. */
  lemma FirstLeastStep(mems: seq<string>, imp: map<string, int>, i: nat, next: nat)
    requires 0 < i < |mems| && next == i + 1
    ensures FirstLeastIndex(mems[..next], imp) ==
      if ImportanceOf(imp, mems[i]) < ImportanceOf(imp, mems[FirstLeastIndex(mems[..i], imp)])
      then i else FirstLeastIndex(mems[..i], imp)
  {
    assert mems[..next][..i] == mems[..i];
  }

  /** One more memory scanned by the scan as written: it is picked exactly when strictly below what was seen so far. */
  lemma ForgetChoiceStep(mems: seq<string>, imp: map<string, int>, i: nat, next: nat)
    requires i < |mems| && next == i + 1
    ensures ForgetChoice(mems[..next], imp) ==
      if ImportanceOf(imp, mems[i]) < LowestSoFar(ForgetChoice(mems[..i], imp), imp)
      then Some(mems[i]) else ForgetChoice(mems[..i], imp)
  {
    var s := mems[..next];
    assert s[|s| - 1] == mems[i];
    if i > 0 {
      FirstLeastStep(mems, imp, i, next);
      assert s[FirstLeastIndex(mems[..i], imp)] == mems[..i][FirstLeastIndex(mems[..i], imp)];
    }
  }

  /** The memory eviction should forget: the first one of least importance, whatever that importance is. */
  function LeastImportant(mems: seq<string>, imp: map<string, int>): (m: string)
    requires mems != []
    ensures m in mems
    ensures forall k :: 0 <= k < |mems| ==> ImportanceOf(imp, m) <= ImportanceOf(imp, mems[k])
    ensures NoEmptyMemory(mems) ==> m != ""
  {
    mems[FirstLeastIndex(mems, imp)]
  }

  /**
   * Eviction before recording: while the list is at capacity and not
   * empty, its least important memory is forgotten with every copy and its
   * importance entry. (`CleanupOldMemories` as corrected; see
   * `CleanupAsWrittenStalls`.)
   */
  function Cleaned(mems: seq<string>, imp: map<string, int>, max: int): (seq<string>, map<string, int>)
    decreases |mems|
  {
    if |mems| >= max && mems != [] && LeastImportant(mems, imp) != "" then
      var w := LeastImportant(mems, imp);
      Cleaned(RemoveAll(mems, w), imp - {w}, max)
    else (mems, imp)
  }

  /** Eviction ends below capacity or with nothing left, keeping only memories that were there. */
  lemma {:induction false} CleanedFits(mems: seq<string>, imp: map<string, int>, max: int)
    requires NoEmptyMemory(mems)
    decreases |mems|
    ensures var r := Cleaned(mems, imp, max);
      && (|r.0| < max || r.0 == [])
      && NoEmptyMemory(r.0)
      && |r.0| <= |mems|
      && (forall m :: m in r.0 ==> m in mems)
  {
    if |mems| >= max && mems != [] {
      var w := LeastImportant(mems, imp);
      var rest := RemoveAll(mems, w);
      assert NoEmptyMemory(rest);
      CleanedFits(rest, imp - {w}, max);
    }
  }

  /** `RecordImportantMemory` on the memory list and importance map: evict as needed, then append. */
  function Recorded(mems: seq<string>, imp: map<string, int>, max: int, m: string, importance: int): (seq<string>, map<string, int>)
  {
    if m == "" then (mems, imp)
    else
      var c := Cleaned(mems, imp, max);
      (c.0 + [m], c.1[m := importance])
  }

  /**
   * Recording keeps the list free of empty memories, ends with the new
   * memory at its recorded importance, and with a capacity of at least one
   * a recording never leaves more memories than the capacity.
   */
  lemma MemoryBound(mems: seq<string>, imp: map<string, int>, max: int, m: string, importance: int)
    requires NoEmptyMemory(mems)
    ensures NoEmptyMemory(Recorded(mems, imp, max, m, importance).0)
    ensures max >= 1 && m != "" ==> |Recorded(mems, imp, max, m, importance).0| <= max
    ensures m != "" ==> Recorded(mems, imp, max, m, importance).0[|Recorded(mems, imp, max, m, importance).0| - 1] == m
    ensures m != "" ==> Recorded(mems, imp, max, m, importance).1[m] == importance
    ensures m == "" ==> Recorded(mems, imp, max, m, importance) == (mems, imp)
  {
    if m != "" {
      var c := Cleaned(mems, imp, max);
      CleanedFits(mems, imp, max);
      var r := (c.0 + [m], c.1[m := importance]);
      assert Recorded(mems, imp, max, m, importance) == r;
      assert |c.0| < max || |c.0| == 0;
      assert |r.0| == |c.0| + 1;
      assert NoEmptyMemory(r.0) by {
        assert forall i :: 0 <= i < |c.0| ==> r.0[i] == c.0[i];
      }
    }
  }

  /**
   * `CleanupOldMemories` as written repeats `ForgetOldestMemory` while the
   * list holds at least MaxMemoryCount memories. In such a state the loop
   * guard holds and a round removes nothing, so the loop never ends.
   */
  predicate CleanupStuckAsWritten(mems: seq<string>, imp: map<string, int>, max: int)
  {
    |mems| >= max && ForgetChoice(mems, imp).None?
  }

  /** Two states where the cleanup as written spins: a capacity of 0 with no memories, and one memory of importance MAX_int32 at capacity 1. */
  lemma CleanupAsWrittenStalls()
    ensures CleanupStuckAsWritten([], map[], 0)
    ensures CleanupStuckAsWritten(["Event: door"], map["Event: door" := MaxInt32], 1)
  {
    var mems := ["Event: door"];
    assert ImportanceOf(map["Event: door" := MaxInt32], mems[0]) == MaxInt32;
  }

  /** In the same states the corrected eviction ends: with nothing, or with the memory forgotten. */
  lemma CleanupCorrectedEnds()
    ensures Cleaned([], map[], 0) == ([], map[])
    ensures Cleaned(["Event: door"], map["Event: door" := MaxInt32], 1) == ([], map[])
  {
    var mems := ["Event: door"];
    var imp := map["Event: door" := MaxInt32];
    assert LeastImportant(mems, imp) == "Event: door";
    assert RemoveAll(mems, "Event: door") == [];
    assert imp - {"Event: door"} == map[];
  }

  /** The memories `GetRelevantMemories` keeps: those containing the context, ignoring case. */
  function Relevant(mems: seq<string>, context: string): (r: seq<string>)
    ensures |r| <= |mems|
    ensures forall i :: 0 <= i < |r| ==> r[i] in mems && ContainsIgnoreCase(r[i], context)
    ensures forall i :: 0 <= i < |mems| && ContainsIgnoreCase(mems[i], context) ==> mems[i] in r
  {
    if mems == [] then []
    else
      var init := mems[..|mems| - 1];
      var m := mems[|mems| - 1];
      assert mems == init + [m];
      Relevant(init, context) + (if ContainsIgnoreCase(m, context) then [m] else [])
  }

  /** Ordered from the most to the least important. */
  predicate ByImportance(s: seq<string>, imp: map<string, int>)
  {
    forall i, j :: 0 <= i < j < |s| ==> ImportanceOf(imp, s[i]) >= ImportanceOf(imp, s[j])
  }

  function InsertByImportance(x: string, s: seq<string>, imp: map<string, int>): (r: seq<string>)
    requires ByImportance(s, imp)
    ensures ByImportance(r, imp)
    ensures |r| == |s| + 1
    ensures r[0] == x || (s != [] && r[0] == s[0])
  {
    if s == [] || ImportanceOf(imp, x) >= ImportanceOf(imp, s[0]) then [x] + s
    else
      var rest := InsertByImportance(x, s[1..], imp);
      assert ImportanceOf(imp, s[0]) >= ImportanceOf(imp, rest[0]);
      assert forall k :: 0 <= k < |rest| ==> ImportanceOf(imp, rest[0]) >= ImportanceOf(imp, rest[k]);
      [s[0]] + rest
  }

  /** Inserting adds exactly the one memory. */
  lemma {:induction false} InsertPermutes(x: string, s: seq<string>, imp: map<string, int>)
    requires ByImportance(s, imp)
    ensures multiset(InsertByImportance(x, s, imp)) == multiset(s) + multiset{x}
  {
    if s != [] && ImportanceOf(imp, x) < ImportanceOf(imp, s[0]) {
      var rest := InsertByImportance(x, s[1..], imp);
      InsertPermutes(x, s[1..], imp);
      assert s == [s[0]] + s[1..];
      assert InsertByImportance(x, s, imp) == [s[0]] + rest;
      assert multiset([s[0]] + rest) == multiset{s[0]} + multiset(rest);
      assert multiset(s) == multiset{s[0]} + multiset(s[1..]);
    }
  }

  /** A reordering of the memories from the most to the least important, as the importance sort leaves them. */
  function SortByImportance(s: seq<string>, imp: map<string, int>): (r: seq<string>)
    ensures multiset(r) == multiset(s)
    ensures ByImportance(r, imp)
  {
    if s == [] then []
    else
      var rest := SortByImportance(s[1..], imp);
      InsertPermutes(s[0], rest, imp);
      assert s == [s[0]] + s[1..];
      InsertByImportance(s[0], rest, imp)
  }

  // ---------------------------------------------------------------- clues

  /** The ids of `ids` not yet provided, in order. */
  function Unprovided(ids: seq<string>, provided: seq<string>): (r: seq<string>)
    ensures |r| <= |ids|
  {
    if ids == [] then []
    else (if ids[0] in provided then [] else [ids[0]]) + Unprovided(ids[1..], provided)
  }

  /** The unprovided ids are exactly the ids not in the provided list. */
  lemma {:induction false} UnprovidedMembers(ids: seq<string>, provided: seq<string>)
    ensures forall x :: x in Unprovided(ids, provided) <==> x in ids && x !in provided
  {
    if ids != [] {
      UnprovidedMembers(ids[1..], provided);
      assert ids == [ids[0]] + ids[1..];
    }
  }

  lemma {:induction false} UnprovidedSnoc(ids: seq<string>, x: string, provided: seq<string>)
    ensures Unprovided(ids + [x], provided) == Unprovided(ids, provided) + (if x in provided then [] else [x])
  {
    if ids != [] {
      assert (ids + [x])[1..] == ids[1..] + [x];
      UnprovidedSnoc(ids[1..], x, provided);
    } else {
      assert ids + [x] == [x];
    }
  }

  lemma {:induction false} UnprovidedAppend(a: seq<string>, b: seq<string>, provided: seq<string>)
    ensures Unprovided(a + b, provided) == Unprovided(a, provided) + Unprovided(b, provided)
  {
    if a == [] {
      assert a + b == b;
    } else {
      assert (a + b)[1..] == a[1..] + b;
      UnprovidedAppend(a[1..], b, provided);
    }
  }

  lemma {:induction false} UnprovidedNoDup(ids: seq<string>, provided: seq<string>)
    requires NoDup(ids)
    ensures NoDup(Unprovided(ids, provided))
  {
    if ids != [] {
      UnprovidedNoDup(ids[1..], provided);
      UnprovidedMembers(ids[1..], provided);
      assert ids[0] !in ids[1..];
      assert Unprovided(ids, provided) == (if ids[0] in provided then [] else [ids[0]]) + Unprovided(ids[1..], provided);
    }
  }

  /**
   * `GetRemainingClueCount` subtracts the provided count from the clue
   * count. When the clue order lists each clue once and the provided clues
   * are distinct clues, that difference is exactly the number of clues not
   * yet provided.
   */
  lemma RemainingClues(order: seq<string>, provided: seq<string>, clues: map<string, string>)
    requires NoDup(order) && NoDup(provided)
    requires forall i :: 0 <= i < |order| ==> order[i] in clues
    requires forall k :: k in clues ==> k in order
    requires forall i :: 0 <= i < |provided| ==> provided[i] in clues
    ensures |clues| - |provided| == |Unprovided(order, provided)|
  {
    var all := set x | x in order;
    var given := set x | x in provided;
    var u := Unprovided(order, provided);
    var left := set x | x in u;
    NoDupCard(order);
    NoDupCard(provided);
    UnprovidedNoDup(order, provided);
    NoDupCard(u);
    assert clues.Keys == all;
    assert given <= all;
    assert left == all - given by {
      UnprovidedMembers(order, provided);
    }
    SubsetCard(all, given);
  }

  lemma SubsetCard<T>(a: set<T>, b: set<T>)
    requires b <= a
    ensures |a - b| == |a| - |b|
  {
    assert a == (a - b) + b;
  }

  /**
   * `GetNextClues(count)` in key order: the first not-yet-provided clues.
   * The scan stops once it holds `count` of them, which it checks only
   * after adding one, so a count below one still yields a clue.
   */
  function NextCluesInOrder(ids: seq<string>, provided: seq<string>, count: int): seq<string>
  {
    var u := Unprovided(ids, provided);
    u[..Min(|u|, Max(count, 1))]
  }

  /** The clues handed out in key order are unprovided, in key order, and at most `count` of them (one when `count` is below one). */
  lemma NextCluesInOrderSound(ids: seq<string>, provided: seq<string>, count: int)
    ensures var r := NextCluesInOrder(ids, provided, count);
      && |r| <= Max(count, 1)
      && r <= Unprovided(ids, provided)
      && (forall i :: 0 <= i < |r| ==> r[i] in ids && r[i] !in provided)
      && (|r| < Max(count, 1) ==> r == Unprovided(ids, provided))
  {
    var u := Unprovided(ids, provided);
    UnprovidedMembers(ids, provided);
    assert forall i :: 0 <= i < Min(|u|, Max(count, 1)) ==> u[..Min(|u|, Max(count, 1))][i] in u;
  }

  // ---------------------------------------------------------------- combinations

  /** Ordered matching: the same number of elements, equal position by position (ignoring case). */
  predicate OrderedMatch(required: seq<string>, provided: seq<string>)
  {
    |required| == |provided| && forall i :: 0 <= i < |required| ==> EqualsIgnoreCase(required[i], provided[i])
  }

  /** `TArray::Contains` on strings, whose equality ignores case. */
  predicate HasElement(xs: seq<string>, x: string)
  {
    exists j :: 0 <= j < |xs| && EqualsIgnoreCase(xs[j], x)
  }

  /** Unordered matching: the same number of elements, and every required one is among the provided. */
  predicate UnorderedMatch(required: seq<string>, provided: seq<string>)
  {
    |required| == |provided| && forall i :: 0 <= i < |required| ==> HasElement(provided, required[i])
  }

  /** `MatchesCombination`. */
  predicate Matches(required: seq<string>, provided: seq<string>, orderMatters: bool)
  {
    if orderMatters then OrderedMatch(required, provided) else UnorderedMatch(required, provided)
  }

  /** An ordered match is also an unordered one, and neither tolerates a difference in length. */
  lemma OrderedIsUnordered(required: seq<string>, provided: seq<string>)
    ensures OrderedMatch(required, provided) ==> UnorderedMatch(required, provided)
    ensures |required| != |provided| ==> !Matches(required, provided, true) && !Matches(required, provided, false)
  {
    if OrderedMatch(required, provided) {
      forall i | 0 <= i < |required|
        ensures HasElement(provided, required[i])
      {
        IgnoreCaseEquivalence();
      }
    }
  }

  /**
   * Unordered matching checks membership only: a required element given
   * twice is satisfied by a single copy next to any other element, which
   * an ordered match refuses.
   */
  lemma UnorderedIgnoresMultiplicity(x: string, y: string)
    requires !EqualsIgnoreCase(x, y)
    ensures UnorderedMatch([x, x], [x, y])
    ensures !OrderedMatch([x, x], [x, y])
  {
    IgnoreCaseEquivalence();
    assert EqualsIgnoreCase([x, y][0], [x, x][1]);
  }

  /** Each element with its surrounding white space removed. */
  function TrimAll(xs: seq<string>): (r: seq<string>)
    ensures |r| == |xs|
    ensures forall i :: 0 <= i < |xs| ==> r[i] == Trim(xs[i])
  {
    seq(|xs|, i requires 0 <= i < |xs| => Trim(xs[i]))
  }

  /** The required elements as `ValidateCombination` reads them back from their stored comma list. */
  function RequiredElements(stored: string): seq<string>
  {
    TrimAll(ParseCommaList(stored))
  }

  /** Elements registered by `RegisterCombination` are read back unchanged when each is non-empty, comma-free and trimmed. */
  lemma RegisteredElementsRoundTrip(xs: seq<string>)
    requires forall i :: 0 <= i < |xs| ==> PlainElement(xs[i])
    ensures RequiredElements(JoinComma(xs)) == xs
  {
    if xs != [] {
      assert ParseCommaList(JoinComma(xs)) == xs by {
        PiecesOfJoin(xs);
        NonEmptyKeepsFull(xs);
      }
      forall i | 0 <= i < |xs|
        ensures TrimAll(xs)[i] == xs[i]
      {
        PlainIsTrimmed(xs[i]);
      }
    }
  }

  /**
   * The completion check of `ValidateCombination` as written: as many
   * status entries as registered combinations. Registration adds a status
   * entry (false), so the count is reached before any combination is done.
   */
  predicate CompletionGateAsWritten(status: map<string, bool>, required: map<string, string>)
  {
    |status| >= |required|
  }

  /** Every registered combination has been validated. */
  predicate AllCombinationsComplete(status: map<string, bool>, required: map<string, string>)
  {
    forall k :: k in required ==> k in status && status[k]
  }

  /** Two registered combinations, one of them validated: the gate as written opens, the intended one does not. */
  lemma CompletionGateOpensEarly()
    ensures var required := map["Altar" := "Candle,Bell", "Door" := "Key"];
            var status := map["Altar" := true, "Door" := false];
            CompletionGateAsWritten(status, required) && !AllCombinationsComplete(status, required)
  {
    var required := map["Altar" := "Candle,Bell", "Door" := "Key"];
    var status := map["Altar" := true, "Door" := false];
    assert "Altar" != "Door";
    assert |required| == 2 && |status| == 2;
    assert "Door" in required && !status["Door"];
  }

  /** The intended gate opens exactly once every registered combination is done, and then the gate as written is open too. */
  lemma CompletionGateCorrected(status: map<string, bool>, required: map<string, string>)
    ensures AllCombinationsComplete(status, required) ==> required.Keys <= status.Keys
    ensures AllCombinationsComplete(status, required) && status.Keys == required.Keys ==> CompletionGateAsWritten(status, required)
  {
  }

  // ---------------------------------------------------------------- story

  /** `GetStoryProgress`: 1 for a path of at most one beat, else the index over the last index. */
  function StoryProgress(pathLength: nat, index: int): real
  {
    if pathLength <= 1 then 1.0 else (index as real) / ((pathLength - 1) as real)
  }

  /** On the path, progress lies in [0, 1]; it is 1 exactly at the last beat and 0 exactly at the first of several. */
  lemma StoryProgressBounds(pathLength: nat, index: int)
    requires 0 <= index < pathLength
    ensures 0.0 <= StoryProgress(pathLength, index) <= 1.0
    ensures StoryProgress(pathLength, index) == 1.0 <==> index == pathLength - 1
    ensures StoryProgress(pathLength, index) == 0.0 <==> pathLength > 1 && index == 0
  {
    if pathLength > 1 {
      ShareBounds(index, pathLength - 1);
    }
  }

  // ---------------------------------------------------------------- templates

  /** `ReplaceTemplateVariables`: each variable's placeholder replaced in turn, in the order of the variables. */
  function ReplacedAll(template: string, vars: seq<(string, string)>): string
  {
    if vars == [] then template
    else Replace(ReplacedAll(template, vars[..|vars| - 1]), Placeholder(vars[|vars| - 1].0), vars[|vars| - 1].1)
  }

  /** A template without braces holds no placeholder and comes back unchanged. */
  lemma {:induction false} PlainTemplateUnchanged(template: string, vars: seq<(string, string)>)
    requires '{' !in template
    ensures ReplacedAll(template, vars) == template
  {
    if vars != [] {
      PlainTemplateUnchanged(template, vars[..|vars| - 1]);
      ReplaceNoBrace(template, vars[|vars| - 1].0, vars[|vars| - 1].1);
    }
  }

  /** A placeholder in otherwise brace-free text is replaced by its variable's value. */
  lemma VariableSubstituted(a: string, key: string, value: string, b: string)
    requires '{' !in a && '{' !in b
    ensures ReplacedAll(a + Placeholder(key) + b, [(key, value)]) == a + value + b
  {
    var vars := [(key, value)];
    assert vars[..0] == [];
    ReplacePlaceholder(a, key, value, b);
    ReplaceNoBrace(b, key, value);
  }

  // ---------------------------------------------------------------- delayed events

  /** A delayed event with the time it still has to wait. */
  datatype QueuedEvent = QueuedEvent(id: string, remaining: real)

  /**
   * One timer tick of `OnEventTriggerDelay` on the queue: the head's wait
   * shrinks by the tick; a head whose wait ran out leaves the queue as due
   * and the next head is examined; the first head still waiting goes to
   * the back with its shortened wait, and the tick stops there.
   */
  function TickQueue(q: seq<QueuedEvent>): (r: (seq<string>, seq<QueuedEvent>))
  {
    if q == [] then ([], [])
    else if q[0].remaining - TickInterval <= 0.0 then
      var rest := TickQueue(q[1..]);
      ([q[0].id] + rest.0, rest.1)
    else ([], q[1..] + [QueuedEvent(q[0].id, q[0].remaining - TickInterval)])
  }

  /**
   * A tick takes the leading events whose wait runs out, in queue order;
   * the queue ends empty if all of them do, and otherwise the first event
   * still waiting, its wait shortened by the tick, goes behind the rest.
   */
  lemma {:induction false} TickQueueShape(q: seq<QueuedEvent>)
    ensures var r := TickQueue(q);
      && |r.0| <= |q|
      && (forall i :: 0 <= i < |r.0| ==> r.0[i] == q[i].id && q[i].remaining - TickInterval <= 0.0)
      && (|r.0| == |q| ==> r.1 == [])
      && (|r.0| < |q| ==>
          q[|r.0|].remaining - TickInterval > 0.0 &&
          r.1 == q[|r.0| + 1..] + [QueuedEvent(q[|r.0|].id, q[|r.0|].remaining - TickInterval)])
  {
    if q != [] && q[0].remaining - TickInterval <= 0.0 {
      TickQueueShape(q[1..]);
      var rest := TickQueue(q[1..]);
      assert TickQueue(q) == ([q[0].id] + rest.0, rest.1);
      assert forall i :: 1 <= i <= |rest.0| ==> q[i] == q[1..][i - 1];
      if |rest.0| < |q[1..]| {
        assert q[1..][|rest.0| + 1..] == q[|rest.0| + 2..];
      }
    }
  }

  /**
   * The tick as written: the shortened wait is computed on a copy of the
   * head, and taking the head off the queue overwrites that copy with the
   * head itself, so a head still waiting goes to the back with its wait
   * unchanged.
   */
  function TickQueueAsWritten(q: seq<QueuedEvent>): (r: (seq<string>, seq<QueuedEvent>))
  {
    if q == [] then ([], [])
    else if q[0].remaining - TickInterval <= 0.0 then
      var rest := TickQueueAsWritten(q[1..]);
      ([q[0].id] + rest.0, rest.1)
    else ([], q[1..] + [q[0]])
  }

  /** Both ticks let the same events fall due; as written, the event that stops the tick keeps its whole wait. */
  lemma {:induction false} TickAsWrittenKeepsWait(q: seq<QueuedEvent>)
    ensures TickQueueAsWritten(q).0 == TickQueue(q).0
    ensures var k := |TickQueue(q).0|;
      k < |q| ==> TickQueueAsWritten(q).1 == q[k + 1..] + [q[k]]
    ensures |TickQueue(q).0| == |q| ==> TickQueueAsWritten(q).1 == []
  {
    if q != [] && q[0].remaining - TickInterval <= 0.0 {
      TickAsWrittenKeepsWait(q[1..]);
    }
  }

  /**
   * As written, a queue in which every event waits longer than one tick
   * lets nothing fall due and comes back with every event still waiting
   * longer than one tick, so no later tick fires anything either.
   */
  lemma WaitingQueueNeverFires(q: seq<QueuedEvent>)
    requires forall i :: 0 <= i < |q| ==> q[i].remaining > TickInterval
    ensures TickQueueAsWritten(q).0 == []
    ensures multiset(TickQueueAsWritten(q).1) == multiset(q)
    ensures forall i :: 0 <= i < |TickQueueAsWritten(q).1| ==> TickQueueAsWritten(q).1[i].remaining > TickInterval
  {
    if q != [] {
      assert q == [q[0]] + q[1..];
      assert forall e :: e in q[1..] + [q[0]] ==> e in q;
    }
  }

  /** Whether a lone event with wait `w` falls due within `n` corrected ticks. */
  predicate DueWithin(id: string, w: real, n: nat)
    decreases n
  {
    if n == 0 then false
    else
      var r := TickQueue([QueuedEvent(id, w)]);
      r.0 == [id] || (r.1 != [] && DueWithin(id, r.1[0].remaining, n - 1))
  }

  /** With the corrected tick, a lone event falls due once its wait is covered by the ticks. */
  lemma {:induction false} LoneEventFallsDue(id: string, w: real, n: nat)
    requires n >= 1 && w <= (n as real) * TickInterval
    ensures DueWithin(id, w, n)
    decreases n
  {
    var q := [QueuedEvent(id, w)];
    assert q[1..] == [];
    if w - TickInterval > 0.0 {
      assert TickQueue(q).1 == [QueuedEvent(id, w - TickInterval)];
      LoneEventFallsDue(id, w - TickInterval, n - 1);
    } else {
      assert TickQueue(q).0 == [id];
    }
  }

  /**
   * What `TriggerEvent` does, as written, to the due events when a delay is
   * configured: each triggerable event not yet triggered is queued again
   * with the full delay.
   */
  function Requeued(due: seq<string>, triggerable: seq<string>, triggered: seq<string>, delay: real): (r: seq<QueuedEvent>)
    ensures |r| <= |due|
    ensures forall i :: 0 <= i < |r| ==> r[i].remaining == delay && r[i].id in due
  {
    if due == [] then []
    else
      var init := Requeued(due[..|due| - 1], triggerable, triggered, delay);
      var e := due[|due| - 1];
      init + (if e in triggerable && e !in triggered then [QueuedEvent(e, delay)] else [])
  }

  lemma RequeuedStep(due: seq<string>, triggerable: seq<string>, triggered: seq<string>, delay: real, j: nat)
    requires j < |due|
    ensures Requeued(due[..j + 1], triggerable, triggered, delay) ==
            Requeued(due[..j], triggerable, triggered, delay) +
            (if due[j] in triggerable && due[j] !in triggered then [QueuedEvent(due[j], delay)] else [])
  {
    assert due[..j + 1][..j] == due[..j];
  }

  /**
   * The events a tick fires once due events trigger directly: each due
   * event that is triggerable and not yet triggered (counting those fired
   * earlier in the same tick), in queue order.
   */
  function Fired(due: seq<string>, triggerable: seq<string>, triggered: seq<string>): seq<string>
  {
    if due == [] then []
    else
      var init := Fired(due[..|due| - 1], triggerable, triggered);
      var e := due[|due| - 1];
      init + (if e in triggerable && e !in triggered + init then [e] else [])
  }

  /** Every due triggerable event ends up triggered, each at most once, and nothing else is fired. */
  lemma {:induction false} FiredOnce(due: seq<string>, triggerable: seq<string>, triggered: seq<string>)
    ensures NoDup(triggered) ==> NoDup(triggered + Fired(due, triggerable, triggered))
    ensures forall e :: e in due && e in triggerable ==> e in triggered + Fired(due, triggerable, triggered)
    ensures forall e :: e in Fired(due, triggerable, triggered) ==> e in due && e in triggerable && e !in triggered
  {
    if due != [] {
      var init := Fired(due[..|due| - 1], triggerable, triggered);
      var e := due[|due| - 1];
      FiredOnce(due[..|due| - 1], triggerable, triggered);
      assert due == due[..|due| - 1] + [e];
      if e in triggerable && e !in triggered + init {
        assert triggered + Fired(due, triggerable, triggered) == (triggered + init) + [e];
        NoDupSnoc(triggered + init, e);
      } else {
        assert Fired(due, triggerable, triggered) == init;
      }
    }
  }

  /**
   * A delayed event that falls due is, as written, queued once more with the
   * full delay instead of firing, so with a positive delay no queued event
   * ever fires.
   */
  lemma DelayedEventRequeued(delay: real)
    requires delay > 0.0
    ensures TickQueueAsWritten([QueuedEvent("Bell", 0.1)]) == (["Bell"], [])
    ensures Requeued(["Bell"], ["Bell"], [], delay) == [QueuedEvent("Bell", delay)]
  {
    var q := [QueuedEvent("Bell", 0.1)];
    assert q[1..] == [];
    assert TickQueueAsWritten(q[1..]) == ([], []);
    assert q[0].remaining - TickInterval <= 0.0;
    assert [q[0].id] + [] == ["Bell"];
    assert ["Bell"][..0] == [];
  }
}
