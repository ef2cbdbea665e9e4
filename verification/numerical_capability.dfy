/**
 * The numerical capability: named values kept within registered ranges,
 * the predefined health and mental-state values mirrored from them,
 * regeneration and consumption rate tables, resource pools, progress
 * trackers with one-shot milestones, three perception radii and
 * affinities towards other nodes.
 *
 * The shared base (owner, activation switch, cooldown) is the
 * `ItemCapability` held in `base`. Floats are modelled as reals; the
 * -MAX_FLT / MAX_FLT defaults of a missing range bound are modelled as
 * no bound. The nodes the manager would report within a radius are
 * passed in as `found`.
 */
module NumericalCapabilities {
  import opened Util
  import opened Text
  import opened NodeTypes
  import opened Nodes
  import opened Items

  /** The senses whose radius the capability keeps. */
  datatype PerceptionType = Vision | Hearing | Danger | All

  // ---------------------------------------------------------------------
  // Ranges and clamping
  // ---------------------------------------------------------------------

  /** The bound registered for `id` in `m`, if any. */
  function BoundOf(m: map<string, real>, id: string): Option<real>
  {
    if id in m then Some(m[id]) else None
  }

  /** `x` lies within whichever bounds are present. */
  predicate Within(x: real, lo: Option<real>, hi: Option<real>)
  {
    (lo.None? || lo.value <= x) && (hi.None? || x <= hi.value)
  }

  /** The bounds that are present do not cross. */
  predicate Ordered(lo: Option<real>, hi: Option<real>)
  {
    lo.None? || hi.None? || lo.value <= hi.value
  }

  /**
   * `ClampValue` on one number: `FMath::Clamp` against the registered
   * minimum and maximum, a missing bound being no bound at all. The
   * result is within an uncrossed range, and a number already within the
   * range is left alone.
   */
  function ClampTo(x: real, lo: Option<real>, hi: Option<real>): (r: real)
    ensures Ordered(lo, hi) ==> Within(r, lo, hi)
    ensures Within(x, lo, hi) ==> r == x
    ensures lo.Some? && hi.Some? ==> r == ClampR(x, lo.value, hi.value)
  {
    if lo.Some? && x < lo.value then lo.value
    else if hi.None? || x < hi.value then x
    else hi.value
  }

  /** Clamping twice into an uncrossed range is clamping once. */
  lemma ClampIdempotent(x: real, lo: Option<real>, hi: Option<real>)
    requires Ordered(lo, hi)
    ensures ClampTo(ClampTo(x, lo, hi), lo, hi) == ClampTo(x, lo, hi)
  {
  }

  /** A predefined value read back from the value table when it is stored there. */
  function Mirror(values: map<string, real>, key: string, current: real): real
  {
    if key in values then values[key] else current
  }

  /** A value id that `GetValue` answers from a predefined field when it is not stored. */
  predicate Predefined(id: string)
  {
    EqualsIgnoreCase(id, "Health") || EqualsIgnoreCase(id, "MentalState")
  }

  // ---------------------------------------------------------------------
  // Health and mental state
  // ---------------------------------------------------------------------

  /**
   * The health (or mental state) `ModifyHealth` (`ModifyMentalState`)
   * leaves: the sum clamped to [0, max], then clamped again by `SetValue`
   * to the range registered for the value.
   */
  function PredefinedAfter(current: real, delta: real, max: real, lo: Option<real>, hi: Option<real>): real
  {
    ClampTo(ClampR(current + delta, 0.0, max), lo, hi)
  }

  /**
   * With the range registered as [0, m] for some m >= 0, a change of
   * health never leaves [0, max] for a non-negative max.
   */
  lemma PredefinedAfterBounds(current: real, delta: real, max: real, hi: Option<real>)
    requires 0.0 <= max
    requires hi.None? || 0.0 <= hi.value
    ensures 0.0 <= PredefinedAfter(current, delta, max, Some(0.0), hi) <= max
  {
    var x := ClampR(current + delta, 0.0, max);
    assert 0.0 <= x <= max;
  }

  /**
   * As written, raising the maximum through configuration does not move
   * the range registered at initialisation: with that range ending at
   * `m` below the new maximum, no change of health gets above `m`.
   */
  lemma RaisedMaxUnreachable(current: real, delta: real, max: real, m: real)
    requires 0.0 <= m < max
    ensures PredefinedAfter(current, delta, max, Some(0.0), Some(m)) <= m < max
  {
  }

  /**
   * With the range following the maximum, a change of health is exactly
   * the sum clamped to [0, max]: the maximum itself is reachable.
   */
  lemma RangeFollowsMax(current: real, delta: real, max: real)
    requires 0.0 <= max
    ensures PredefinedAfter(current, delta, max, Some(0.0), Some(max)) == ClampR(current + delta, 0.0, max)
    ensures current + delta >= max ==> PredefinedAfter(current, delta, max, Some(0.0), Some(max)) == max
  {
  }

  /**
   * The vision radius `ModifyMentalState` leaves when the mental state is
   * below 30% of its maximum: scaled by the share of that threshold still
   * held, floored at 0. A zero threshold (only reachable with a negative
   * mental state) floors it to 0.
   */
  function DimmedVision(vision: real, mental: real, maxMental: real): real
  {
    var threshold := maxMental * 0.3;
    if threshold == 0.0 then 0.0 else MaxR(0.0, vision * (mental / threshold))
  }

  /**
   * Below the threshold the vision radius shrinks in proportion to the
   * mental state: it stays within [0, vision] and scales linearly, and a
   * mental state strictly between 0 and the threshold strictly shrinks a
   * positive radius, so each further call shrinks it again.
   */
  lemma DimmingShrinks(vision: real, mental: real, maxMental: real)
    requires 0.0 <= vision && 0.0 <= mental < maxMental * 0.3
    ensures 0.0 <= DimmedVision(vision, mental, maxMental) <= vision
    ensures DimmedVision(vision, mental, maxMental) * (maxMental * 0.3) == vision * mental
    ensures 0.0 < vision ==> DimmedVision(vision, mental, maxMental) < vision
  {
    var t := maxMental * 0.3;
    var q := mental / t;
    assert q * t == mental;
    assert 0.0 <= q < 1.0;
    assert 0.0 <= vision * q <= vision * 1.0;
    assert 0.0 < vision ==> vision * q < vision * 1.0;
    assert DimmedVision(vision, mental, maxMental) == vision * q;
    assert vision * q * t == vision * mental;
  }

  /** `GetHealthPercentage`, `GetMentalStatePercentage`: the share of a positive maximum, in percent, else 0. */
  function Percent(current: real, max: real): (r: real)
    ensures max <= 0.0 ==> r == 0.0
    ensures max > 0.0 ==> r * max == current * 100.0
    ensures max > 0.0 && 0.0 <= current <= max ==> 0.0 <= r <= 100.0
    ensures max > 0.0 ==> (r == 100.0 <==> current == max)
  {
    if max > 0.0 then
      var q := current / max;
      assert q * max == current;
      assert 0.0 <= current <= max ==> 0.0 <= q <= 1.0;
      (current / max) * 100.0
    else 0.0
  }

  /** `GetValuePercentage`: the share of a non-zero maximum, in percent, else 0. */
  function ValuePercent(current: real, max: real): (r: real)
    ensures max == 0.0 ==> r == 0.0
    ensures max != 0.0 ==> r * max == current * 100.0
    ensures max > 0.0 && 0.0 <= current <= max ==> 0.0 <= r <= 100.0
  {
    if max == 0.0 then 0.0
    else
      var q := current / max;
      assert q * max == current;
      assert max > 0.0 && 0.0 <= current <= max ==> 0.0 <= q <= 1.0;
      q * 100.0
  }

  // ---------------------------------------------------------------------
  // Resources
  // ---------------------------------------------------------------------

  /**
   * A pool after `ConsumeResource` of `amount`: taken only when the amount
   * is positive and covered, and then exactly; never below zero when it
   * is taken from a non-negative pool.
   */
  function Drained(pool: real, amount: real): (r: real)
    ensures amount > 0.0 && pool >= amount ==> r + amount == pool && r >= 0.0
    ensures !(amount > 0.0 && pool >= amount) ==> r == pool
    ensures r <= pool
  {
    if amount > 0.0 && pool >= amount then pool - amount else pool
  }

  /** What each resource with a positive rate consumes over `dt` seconds; other rates are skipped. */
  function Draws(rates: map<string, real>, dt: real): map<string, real>
  {
    map k | k in rates && rates[k] > 0.0 :: Accrued(rates[k], dt)
  }

  /** The pools after one consumption pass taking `amounts`. */
  function DrainAll(pools: map<string, real>, amounts: map<string, real>): (r: map<string, real>)
    ensures r.Keys == pools.Keys
  {
    map k | k in pools :: if k in amounts then Drained(pools[k], amounts[k]) else pools[k]
  }

  /** Whether the consumption of `k`'s amount is refused. */
  predicate Depletes(pools: map<string, real>, amounts: map<string, real>, k: string)
  {
    k in amounts && !(amounts[k] > 0.0 && k in pools && pools[k] >= amounts[k])
  }

  /** The trigger event raised on the owner when a resource cannot be consumed. */
  function DepletionEvent(k: string): (e: string)
    ensures e != ""
  {
    "ResourceDepleted_" + k
  }

  /** What a rate accrues over `t` seconds: the amount consumed or regenerated. */
  function Accrued(rate: real, t: real): real
  {
    rate * t
  }

  /** Accruals add up over consecutive spans and are never negative for a non-negative rate and span. */
  lemma AccruedAdds(rate: real, a: real, b: real)
    ensures Accrued(rate, a + b) == Accrued(rate, a) + Accrued(rate, b)
    ensures 0.0 <= rate && 0.0 <= a ==> 0.0 <= Accrued(rate, a)
  {
  }

  /**
   * One pool under the tick path alone, frame by frame: the frame times
   * accumulate, and once they reach the update interval the accumulated
   * time is consumed at `rate` and the accumulator restarts.
   */
  function TickDrain(pool: real, rate: real, acc: real, dts: seq<real>, interval: real): real
    decreases |dts|
  {
    if dts == [] then pool
    else if acc + dts[0] >= interval then TickDrain(Drained(pool, Accrued(rate, acc + dts[0])), rate, 0.0, dts[1..], interval)
    else TickDrain(pool, rate, acc + dts[0], dts[1..], interval)
  }

  function Sum(dts: seq<real>): real
  {
    if dts == [] then 0.0 else dts[0] + Sum(dts[1..])
  }

  /**
   * The tick path never drains faster than the rate: over frames totalling
   * `Sum(dts)` seconds after `acc` already accumulated, at most the
   * consumption over `acc + Sum(dts)` seconds is taken.
   */
  lemma {:induction false} TickDrainAtRate(pool: real, rate: real, acc: real, dts: seq<real>, interval: real)
    requires 0.0 <= rate && 0.0 <= acc
    requires forall i :: 0 <= i < |dts| ==> 0.0 <= dts[i]
    ensures pool - TickDrain(pool, rate, acc, dts, interval) <= Accrued(rate, acc + Sum(dts))
    decreases |dts|
  {
    if dts == [] {
      AccruedAdds(rate, acc, 0.0);
    } else {
      var a := acc + dts[0];
      var rest := dts[1..];
      assert acc + Sum(dts) == a + Sum(rest);
      AccruedAdds(rate, a, Sum(rest));
      if a >= interval {
        var p := Drained(pool, Accrued(rate, a));
        TickDrainAtRate(p, rate, 0.0, rest, interval);
        assert 0.0 + Sum(rest) == Sum(rest);
      } else {
        TickDrainAtRate(pool, rate, a, rest, interval);
      }
    }
  }

  /**
   * As written, the repeating timer started in `BeginPlay` consumes as
   * well as the tick path: one interval of frames followed by one timer
   * firing drains twice the rate, more than the tick path alone allows.
   */
  lemma TimerDrainsTwice(pool: real, rate: real, interval: real)
    requires 0.0 < rate && 0.0 < interval && 2.0 * Accrued(rate, interval) <= pool
    ensures Drained(TickDrain(pool, rate, 0.0, [interval], interval), Accrued(rate, interval))
      == pool - 2.0 * Accrued(rate, interval)
    ensures pool - Drained(TickDrain(pool, rate, 0.0, [interval], interval), Accrued(rate, interval))
      > Accrued(rate, 0.0 + Sum([interval]))
  {
    var c := Accrued(rate, interval);
    assert 0.0 < c;
    assert 0.0 + interval == interval;
    assert TickDrain(pool, rate, 0.0, [interval], interval) == TickDrain(pool - c, rate, 0.0, [], interval);
    assert Sum([interval]) == interval;
  }

  // ---------------------------------------------------------------------
  // Milestones
  // ---------------------------------------------------------------------

  /** `CheckAndTriggerMilestones` fires: progress reached the milestone and the last checked value had not. */
  predicate Fires(progress: real, milestone: real, last: real)
  {
    progress >= milestone && last < milestone
  }

  /** How many of a run of checks against successive progress values fire, each firing recording its progress. */
  function Firings(ps: seq<real>, milestone: real, last: real): nat
  {
    if ps == [] then 0
    else if Fires(ps[0], milestone, last) then 1 + Firings(ps[1..], milestone, ps[0])
    else Firings(ps[1..], milestone, last)
  }

  /**
   * A milestone fires at most once along any run of progress values; not
   * at all once the last checked value has reached it (so a milestone of
   * 0 or less, checked against the default 0, never fires); and exactly
   * once when it has not been reached and some progress value reaches it.
   */
  lemma {:induction false} MilestoneFiresOnce(ps: seq<real>, milestone: real, last: real)
    ensures Firings(ps, milestone, last) <= 1
    ensures last >= milestone ==> Firings(ps, milestone, last) == 0
    ensures last < milestone ==> (Firings(ps, milestone, last) == 1 <==> exists i :: 0 <= i < |ps| && ps[i] >= milestone)
  {
    if ps != [] {
      if Fires(ps[0], milestone, last) {
        MilestoneFiresOnce(ps[1..], milestone, ps[0]);
      } else {
        MilestoneFiresOnce(ps[1..], milestone, last);
        if last < milestone && Firings(ps, milestone, last) == 1 {
          var i :| 0 <= i < |ps[1..]| && ps[1..][i] >= milestone;
          assert ps[i + 1] >= milestone;
        }
        if last < milestone && (exists i :: 0 <= i < |ps| && ps[i] >= milestone) {
          var i :| 0 <= i < |ps| && ps[i] >= milestone;
          assert i != 0;
          assert ps[1..][i - 1] >= milestone;
        }
      }
    }
  }

  /** The trigger event raised on the owner when a milestone with a reward is reached. */
  function MilestoneEvent(id: string, reward: string): (e: string)
    ensures e != ""
  {
    "MilestoneReached_" + id + "_" + reward
  }

  // ---------------------------------------------------------------------
  // Perception
  // ---------------------------------------------------------------------

  /** The nodes of `found` other than `self` that are not Hidden, in their order. */
  function Perceived(found: seq<InteractiveNode>, self: InteractiveNode): (r: seq<InteractiveNode>)
    reads (set n | n in found)`state
    ensures |r| <= |found|
  {
    if found == [] then []
    else
      var rest := Perceived(found[..|found| - 1], self);
      var last := found[|found| - 1];
      if last != self && last.state != Hidden then rest + [last] else rest
  }

  /** A node is perceived exactly when it was found, is not the owner and is not Hidden. */
  lemma {:induction false} PerceivedMembers(found: seq<InteractiveNode>, self: InteractiveNode)
    ensures forall x :: x in Perceived(found, self) <==> x in found && x != self && x.state != Hidden
  {
    if found != [] {
      var init := found[..|found| - 1];
      PerceivedMembers(init, self);
      assert found == init + [found[|found| - 1]];
    }
  }

  // ---------------------------------------------------------------------
  // Configuration keys
  // ---------------------------------------------------------------------

  /** The configuration keys the numerical capability recognises. */
  datatype ConfigKey =
    | MaxHealthKey | MaxMentalKey | VisionKey | HearingKey | DangerKey | AutoConsumeKey
    | ValueKey(valueId: string) | ResourceKey(resource: string) | ProgressKey(progress: string)
    | OtherKey

  /**
   * How `ApplyConfigValue` reads a key: six field names compared ignoring
   * case, then the Value_, Resource_ and Progress_ prefixes, which are
   * chopped off to leave the id.
   */
  function ConfigKeyOf(key: string): ConfigKey
  {
    if EqualsIgnoreCase(key, "PlayerMaxHealth") then MaxHealthKey
    else if EqualsIgnoreCase(key, "MaxMentalState") then MaxMentalKey
    else if EqualsIgnoreCase(key, "VisionRadius") then VisionKey
    else if EqualsIgnoreCase(key, "HearingRadius") then HearingKey
    else if EqualsIgnoreCase(key, "DangerSenseRadius") then DangerKey
    else if EqualsIgnoreCase(key, "AutoConsume") then AutoConsumeKey
    else if StartsWithIgnoreCase(key, "Value_") then ValueKey(RightChop(key, 6))
    else if StartsWithIgnoreCase(key, "Resource_") then ResourceKey(RightChop(key, 9))
    else if StartsWithIgnoreCase(key, "Progress_") then ProgressKey(RightChop(key, 9))
    else OtherKey
  }

  /** Every field name selects its field, and each prefix hands over exactly the id after it. */
  lemma ConfigKeysSelect(key: string, id: string)
    ensures EqualsIgnoreCase(key, "PlayerMaxHealth") ==> ConfigKeyOf(key) == MaxHealthKey
    ensures EqualsIgnoreCase(key, "MaxMentalState") ==> ConfigKeyOf(key) == MaxMentalKey
    ensures EqualsIgnoreCase(key, "VisionRadius") ==> ConfigKeyOf(key) == VisionKey
    ensures EqualsIgnoreCase(key, "HearingRadius") ==> ConfigKeyOf(key) == HearingKey
    ensures EqualsIgnoreCase(key, "DangerSenseRadius") ==> ConfigKeyOf(key) == DangerKey
    ensures EqualsIgnoreCase(key, "AutoConsume") ==> ConfigKeyOf(key) == AutoConsumeKey
    ensures ConfigKeyOf("Value_" + id) == ValueKey(id)
    ensures ConfigKeyOf("Resource_" + id) == ResourceKey(id)
    ensures ConfigKeyOf("Progress_" + id) == ProgressKey(id)
  {
    ValueSelects(id);
    ResourceSelects(id);
    ProgressSelects(id);
  }

  lemma ValueSelects(id: string)
    ensures ConfigKeyOf("Value_" + id) == ValueKey(id)
  {
    var k := "Value_" + id;
    ChopPrefix("Value_", id);
    LetterApart(k, "Value_", "PlayerMaxHealth", 0);
    LetterApart(k, "Value_", "MaxMentalState", 0);
    LetterApart(k, "Value_", "VisionRadius", 1);
    LetterApart(k, "Value_", "HearingRadius", 0);
    LetterApart(k, "Value_", "DangerSenseRadius", 0);
    LetterApart(k, "Value_", "AutoConsume", 0);
  }

  lemma ResourceSelects(id: string)
    ensures ConfigKeyOf("Resource_" + id) == ResourceKey(id)
  {
    var k := "Resource_" + id;
    ChopPrefix("Resource_", id);
    LetterApart(k, "Resource_", "PlayerMaxHealth", 0);
    LetterApart(k, "Resource_", "MaxMentalState", 0);
    LetterApart(k, "Resource_", "VisionRadius", 0);
    LetterApart(k, "Resource_", "HearingRadius", 0);
    LetterApart(k, "Resource_", "DangerSenseRadius", 0);
    LetterApart(k, "Resource_", "AutoConsume", 0);
    LetterApart(k, "Resource_", "Value_", 0);
  }

  lemma ProgressSelects(id: string)
    ensures ConfigKeyOf("Progress_" + id) == ProgressKey(id)
  {
    var k := "Progress_" + id;
    ChopPrefix("Progress_", id);
    LetterApart(k, "Progress_", "PlayerMaxHealth", 1);
    LetterApart(k, "Progress_", "MaxMentalState", 0);
    LetterApart(k, "Progress_", "VisionRadius", 0);
    LetterApart(k, "Progress_", "HearingRadius", 0);
    LetterApart(k, "Progress_", "DangerSenseRadius", 0);
    LetterApart(k, "Progress_", "AutoConsume", 0);
    LetterApart(k, "Progress_", "Value_", 0);
    LetterApart(k, "Progress_", "Resource_", 0);
  }

  /** The scalar fields a configuration key can set. */
  datatype Settings = Settings(
    maxHealth: real, health: real, maxMental: real, mental: real,
    vision: real, hearing: real, danger: real, autoConsume: bool)

  /**
   * The scalar part of `ApplyConfigValue`: a new maximum health or mental
   * state caps the current one; radii are read as given; AutoConsume is
   * read as a boolean. Other keys leave the scalars.
   */
  function Configured(s: Settings, k: ConfigKey, value: string): (r: Settings)
  {
    match k
    case MaxHealthKey => var m := Atof(value); s.(maxHealth := m, health := MinR(s.health, m))
    case MaxMentalKey => var m := Atof(value); s.(maxMental := m, mental := MinR(s.mental, m))
    case VisionKey => s.(vision := Atof(value))
    case HearingKey => s.(hearing := Atof(value))
    case DangerKey => s.(danger := Atof(value))
    case AutoConsumeKey => s.(autoConsume := ToBool(value))
    case _ => s
  }

  /** A key that names no scalar setting leaves the settings as they are. */
  lemma ConfiguredKeepsOthers(s: Settings, k: ConfigKey, value: string)
    requires k.ValueKey? || k.ResourceKey? || k.ProgressKey? || k.OtherKey?
    ensures Configured(s, k, value) == s
  {
  }

  /**
   * A configured maximum caps the current value without raising it, and
   * leaves a value already within it; every other scalar is kept.
   */
  lemma ConfiguredMaxCaps(s: Settings, value: string)
    ensures var r := Configured(s, MaxHealthKey, value);
      r.maxHealth == Atof(value) && r.health <= r.maxHealth && r.health <= s.health &&
      (s.health <= r.maxHealth ==> r.health == s.health) &&
      r.(maxHealth := s.maxHealth, health := s.health) == s
    ensures var r := Configured(s, MaxMentalKey, value);
      r.maxMental == Atof(value) && r.mental <= r.maxMental && r.mental <= s.mental &&
      (s.mental <= r.maxMental ==> r.mental == s.mental) &&
      r.(maxMental := s.maxMental, mental := s.mental) == s
  {
  }

  /**
   * Unlike `SetPerceptionRadius`, configuration does not floor a radius:
   * the decimal text of a negative number is stored as that number.
   */
  lemma ConfiguredRadiusUnfloored(s: Settings, n: int)
    requires n < 0
    ensures Configured(s, VisionKey, IntString(n)).vision == n as real < 0.0
    ensures Configured(s, HearingKey, IntString(n)).hearing == n as real < 0.0
    ensures Configured(s, DangerKey, IntString(n)).danger == n as real < 0.0
  {
    AtofReadsIntString(n);
  }

  /**
   * The trigger events after one consumption pass taking `amounts`: the
   * earlier ones kept in front, one depletion event for each resource
   * whose consumption was refused, and nothing else.
   */
  ghost predicate DepletionsRaised(before: seq<string>, after: seq<string>, pools: map<string, real>, amounts: map<string, real>)
  {
    before <= after &&
    (forall k :: Depletes(pools, amounts, k) ==> DepletionEvent(k) in after) &&
    (forall e :: e in after ==> e in before || exists k :: Depletes(pools, amounts, k) && e == DepletionEvent(k))
  }

  // ---------------------------------------------------------------------
  // The value table
  // ---------------------------------------------------------------------

  /** The value table together with the predefined health and mental state that mirror it. */
  datatype Table = Table(values: map<string, real>, health: real, mental: real)

  /**
   * `GetValue` on a table: the stored number; otherwise the predefined
   * health or mental state for their names (ignoring case); otherwise 0.
   */
  function Read(t: Table, id: string): (r: real)
    ensures id in t.values ==> r == t.values[id]
    ensures id !in t.values && !Predefined(id) ==> r == 0.0
  {
    if id in t.values then t.values[id]
    else if EqualsIgnoreCase(id, "Health") then t.health
    else if EqualsIgnoreCase(id, "MentalState") then t.mental
    else 0.0
  }

  /** Every stored value lies within its registered range whenever that range does not cross. */
  predicate InRange(values: map<string, real>, mins: map<string, real>, maxs: map<string, real>)
  {
    forall k :: k in values && Ordered(BoundOf(mins, k), BoundOf(maxs, k)) ==>
      Within(values[k], BoundOf(mins, k), BoundOf(maxs, k))
  }

  /** Registering a value with its range keeps every stored value within its uncrossed range. */
  lemma RegisteredInRange(values: map<string, real>, mins: map<string, real>, maxs: map<string, real>,
    id: string, initial: real, lo: real, hi: real)
    requires InRange(values, mins, maxs)
    ensures InRange(values[id := ClampR(initial, lo, hi)], mins[id := lo], maxs[id := hi])
  {
  }

  /**
   * `SetValue` on a table: an empty id changes nothing; otherwise the
   * number is stored clamped to its range and the predefined fields follow
   * the table.
   */
  function Written(t: Table, id: string, v: real, mins: map<string, real>, maxs: map<string, real>): Table
  {
    if id == "" then t
    else
      var vs := t.values[id := ClampTo(v, BoundOf(mins, id), BoundOf(maxs, id))];
      Table(vs, Mirror(vs, "Health", t.health), Mirror(vs, "MentalState", t.mental))
  }

  /**
   * A write reads back as the clamped number, lands within an uncrossed
   * range, touches no other id, and keeps every stored value in range.
   */
  lemma WrittenReadsBack(t: Table, id: string, v: real, mins: map<string, real>, maxs: map<string, real>)
    requires id != ""
    ensures Read(Written(t, id, v, mins, maxs), id) == ClampTo(v, BoundOf(mins, id), BoundOf(maxs, id))
    ensures Ordered(BoundOf(mins, id), BoundOf(maxs, id)) ==>
      Within(Read(Written(t, id, v, mins, maxs), id), BoundOf(mins, id), BoundOf(maxs, id))
    ensures forall j :: j != id && j in t.values ==> Read(Written(t, id, v, mins, maxs), j) == t.values[j]
    ensures InRange(t.values, mins, maxs) ==> InRange(Written(t, id, v, mins, maxs).values, mins, maxs)
  {
  }

  /** What each id with a non-zero rate accrues over `dt` seconds; ids with a zero rate are skipped. */
  function Accruals(rates: map<string, real>, dt: real): map<string, real>
  {
    map k | k in rates && rates[k] != 0.0 :: Accrued(rates[k], dt)
  }

  /** `id` has an accrual that `ProcessRegeneration` applies to a settable id. */
  predicate Regenerates(amounts: map<string, real>, id: string)
  {
    id in amounts && id != ""
  }

  /**
   * The value table `after` moving every id with an accrual from
   * `before`: a stored value moves from its number, an unstored id that is
   * not a predefined name from 0; every other id keeps its number.
   */
  ghost predicate Regenerated(after: map<string, real>, before: map<string, real>, amounts: map<string, real>,
                              mins: map<string, real>, maxs: map<string, real>)
  {
    (forall k :: k in after <==> k in before || Regenerates(amounts, k)) &&
    (forall k :: k in before && Regenerates(amounts, k) ==>
      after[k] == ClampTo(before[k] + amounts[k], BoundOf(mins, k), BoundOf(maxs, k))) &&
    (forall k :: k !in before && Regenerates(amounts, k) && !Predefined(k) ==>
      after[k] == ClampTo(0.0 + amounts[k], BoundOf(mins, k), BoundOf(maxs, k))) &&
    (forall k :: k in before && !Regenerates(amounts, k) ==> after[k] == before[k])
  }

  /** `order` visits each id of `keys` exactly once, as iterating a map does. */
  ghost predicate VisitOrder(order: seq<string>, keys: set<string>)
  {
    NoDup(order) && forall k :: k in order <==> k in keys
  }

  /** Every id of `order` has an accrual. */
  predicate AllAccrue(order: seq<string>, amounts: map<string, real>)
  {
    forall i :: 0 <= i < |order| ==> order[i] in amounts
  }

  /**
   * The table after `ProcessRegeneration` visits the ids of `order`, first
   * to last, each read and written back moved by its accrual
   * (`ModifyValue` on the table).
   */
  function RegenAlong(t: Table, order: seq<string>, amounts: map<string, real>, mins: map<string, real>,
                      maxs: map<string, real>): Table
    requires AllAccrue(order, amounts)
    decreases |order|
  {
    if order == [] then t
    else
      var r := RegenAlong(t, order[..|order| - 1], amounts, mins, maxs);
      var k := order[|order| - 1];
      Written(r, k, Read(r, k) + amounts[k], mins, maxs)
  }

  /** Visiting one more id is one more write on the table reached so far. */
  lemma RegenAlongSnoc(t: Table, order: seq<string>, k: string, amounts: map<string, real>,
                       mins: map<string, real>, maxs: map<string, real>)
    requires AllAccrue(order, amounts) && k in amounts
    ensures AllAccrue(order + [k], amounts)
    ensures RegenAlong(t, order + [k], amounts, mins, maxs) ==
      Written(RegenAlong(t, order, amounts, mins, maxs), k, Read(RegenAlong(t, order, amounts, mins, maxs), k) + amounts[k], mins, maxs)
  {
    assert (order + [k])[..|order|] == order;
  }

  /** Some visited id is settable, so some write refreshed the predefined fields. */
  predicate WritesAny(order: seq<string>)
  {
    exists k :: k in order && k != ""
  }

  /**
   * Along any order without repeats, one id at a time: it is stored
   * afterwards exactly when it was stored before or was visited with an
   * accrual; if visited, it moved from its stored number (from 0 if it
   * was unstored and is no predefined name); otherwise it kept its number.
   */
  lemma {:induction false} RegenAlongAt(t: Table, order: seq<string>, amounts: map<string, real>,
                                        mins: map<string, real>, maxs: map<string, real>, j: string)
    requires NoDup(order) && AllAccrue(order, amounts)
    ensures j in RegenAlong(t, order, amounts, mins, maxs).values <==> j in t.values || (Regenerates(amounts, j) && j in order)
    ensures j in t.values && Regenerates(amounts, j) && j in order ==>
      RegenAlong(t, order, amounts, mins, maxs).values[j] == ClampTo(t.values[j] + amounts[j], BoundOf(mins, j), BoundOf(maxs, j))
    ensures j !in t.values && Regenerates(amounts, j) && j in order && !Predefined(j) ==>
      RegenAlong(t, order, amounts, mins, maxs).values[j] == ClampTo(0.0 + amounts[j], BoundOf(mins, j), BoundOf(maxs, j))
    ensures j in t.values && !(Regenerates(amounts, j) && j in order) ==>
      RegenAlong(t, order, amounts, mins, maxs).values[j] == t.values[j]
    decreases |order|
  {
    if order != [] {
      var init := order[..|order| - 1];
      var k := order[|order| - 1];
      assert order == init + [k];
      NoDupSnoc(init, k);
      RegenAlongAt(t, init, amounts, mins, maxs, j);
      RegenAlongSnoc(t, init, k, amounts, mins, maxs);
    }
  }

  /**
   * Whatever order the rate table is visited in, the pass regenerates
   * every id with an accrual: the outcome for each stored id and each
   * ordinary id does not depend on the order.
   */
  lemma RegenerationComplete(t: Table, order: seq<string>, amounts: map<string, real>,
                             mins: map<string, real>, maxs: map<string, real>)
    requires VisitOrder(order, amounts.Keys) && AllAccrue(order, amounts)
    ensures Regenerated(RegenAlong(t, order, amounts, mins, maxs).values, t.values, amounts, mins, maxs)
  {
    forall j | true
      ensures j in RegenAlong(t, order, amounts, mins, maxs).values <==> j in t.values || Regenerates(amounts, j)
    {
      RegenAlongAt(t, order, amounts, mins, maxs, j);
    }
    forall j | j in t.values && Regenerates(amounts, j)
      ensures RegenAlong(t, order, amounts, mins, maxs).values[j] == ClampTo(t.values[j] + amounts[j], BoundOf(mins, j), BoundOf(maxs, j))
    {
      RegenAlongAt(t, order, amounts, mins, maxs, j);
    }
    forall j | j !in t.values && Regenerates(amounts, j) && !Predefined(j)
      ensures RegenAlong(t, order, amounts, mins, maxs).values[j] == ClampTo(0.0 + amounts[j], BoundOf(mins, j), BoundOf(maxs, j))
    {
      RegenAlongAt(t, order, amounts, mins, maxs, j);
    }
    forall j | j in t.values && !Regenerates(amounts, j)
      ensures RegenAlong(t, order, amounts, mins, maxs).values[j] == t.values[j]
    {
      RegenAlongAt(t, order, amounts, mins, maxs, j);
    }
  }

  /** The pass keeps every stored value within its uncrossed range. */
  lemma {:induction false} RegenAlongInRange(t: Table, order: seq<string>, amounts: map<string, real>,
                                             mins: map<string, real>, maxs: map<string, real>)
    requires AllAccrue(order, amounts) && InRange(t.values, mins, maxs)
    ensures InRange(RegenAlong(t, order, amounts, mins, maxs).values, mins, maxs)
    decreases |order|
  {
    if order != [] {
      var init := order[..|order| - 1];
      var k := order[|order| - 1];
      assert order == init + [k];
      RegenAlongInRange(t, init, amounts, mins, maxs);
      RegenAlongSnoc(t, init, k, amounts, mins, maxs);
      var r := RegenAlong(t, init, amounts, mins, maxs);
      if k != "" {
        WrittenReadsBack(r, k, Read(r, k) + amounts[k], mins, maxs);
      }
    }
  }

  /**
   * The table only gains ids along the pass; once anything was written the
   * predefined fields mirror the table, and with nothing written the table
   * is untouched.
   */
  lemma {:induction false} RegenAlongMirrors(t: Table, order: seq<string>, amounts: map<string, real>,
                                             mins: map<string, real>, maxs: map<string, real>)
    requires AllAccrue(order, amounts)
    ensures t.values.Keys <= RegenAlong(t, order, amounts, mins, maxs).values.Keys
    ensures WritesAny(order) ==>
      RegenAlong(t, order, amounts, mins, maxs).health == Mirror(RegenAlong(t, order, amounts, mins, maxs).values, "Health", t.health) &&
      RegenAlong(t, order, amounts, mins, maxs).mental == Mirror(RegenAlong(t, order, amounts, mins, maxs).values, "MentalState", t.mental)
    ensures !WritesAny(order) ==> RegenAlong(t, order, amounts, mins, maxs) == t
    decreases |order|
  {
    if order != [] {
      var init := order[..|order| - 1];
      var k := order[|order| - 1];
      assert order == init + [k];
      RegenAlongMirrors(t, init, amounts, mins, maxs);
      RegenAlongSnoc(t, init, k, amounts, mins, maxs);
      var r := RegenAlong(t, init, amounts, mins, maxs);
      if k != "" {
        assert k in order;
      } else {
        if WritesAny(order) {
          var j :| j in order && j != "";
          assert j in init;
        }
        if WritesAny(init) {
          var j :| j in init && j != "";
          assert j in order;
        }
      }
    }
  }

  /**
   * The loop of `ProcessRegeneration` on a table: the rate table's ids, in
   * its own order, each read and written back moved by its accrual. The
   * order is returned for the proof.
   */
  method Regenerate(t: Table, amounts: map<string, real>, mins: map<string, real>, maxs: map<string, real>)
    returns (r: Table, ghost order: seq<string>)
    ensures VisitOrder(order, amounts.Keys) && AllAccrue(order, amounts)
    ensures r == RegenAlong(t, order, amounts, mins, maxs)
  {
    r := t;
    order := [];
    var todo := amounts.Keys;
    while todo != {}
      invariant todo <= amounts.Keys
      invariant NoDup(order) && AllAccrue(order, amounts)
      invariant forall k :: k in order <==> k in amounts && k !in todo
      invariant r == RegenAlong(t, order, amounts, mins, maxs)
      decreases todo
    {
      var k :| k in todo;
      NoDupSnoc(order, k);
      RegenAlongSnoc(t, order, k, amounts, mins, maxs);
      var amount := Read(r, k) + amounts[k];
      r := Written(r, k, amount, mins, maxs);
      order := order + [k];
      todo := todo - {k};
    }
  }

  // ---------------------------------------------------------------------
  // Applying one configuration entry
  // ---------------------------------------------------------------------

  /** Everything one configuration entry can change, apart from milestone bookkeeping. */
  datatype Store = Store(
    settings: Settings, values: map<string, real>, mins: map<string, real>, maxs: map<string, real>,
    pools: map<string, real>, progress: map<string, real>)

  /**
   * A new maximum `hi` for `id` also becomes the top of the range [0, hi]
   * registered for it, and a stored number is clamped into that range.
   */
  function RangeFollows(st: Store, id: string, hi: real): Store
  {
    st.(mins := st.mins[id := 0.0], maxs := st.maxs[id := hi],
        values := if id in st.values then st.values[id := ClampR(st.values[id], 0.0, hi)] else st.values)
  }

  /**
   * `ApplyConfigValue` on a store, for a key read as `k`: a value is
   * written as `SetValue` writes it, a pool is set, a progress is set
   * floored at 0, and a scalar setting is configured, a new maximum health
   * or mental state bringing its range along.
   */
  function ConfigApplied(st: Store, k: ConfigKey, value: string): Store
  {
    match k
    case ValueKey(id) =>
      var t := Written(Table(st.values, st.settings.health, st.settings.mental), id, Atof(value), st.mins, st.maxs);
      st.(values := t.values, settings := st.settings.(health := t.health, mental := t.mental))
    case ResourceKey(id) => st.(pools := st.pools[id := Atof(value)])
    case ProgressKey(id) => st.(progress := st.progress[id := MaxR(0.0, Atof(value))])
    case MaxHealthKey =>
      var s := Configured(st.settings, k, value);
      RangeFollows(st.(settings := s), "Health", s.maxHealth)
    case MaxMentalKey =>
      var s := Configured(st.settings, k, value);
      RangeFollows(st.(settings := s), "MentalState", s.maxMental)
    case _ => st.(settings := Configured(st.settings, k, value))
  }

  /** What a value entry does to a store, spelled out field by field. */
  lemma ValueEntry(st: Store, id: string, value: string)
    ensures id == "" ==> ConfigApplied(st, ValueKey(id), value) == st
    ensures id != "" ==>
      var vs := st.values[id := ClampTo(Atof(value), BoundOf(st.mins, id), BoundOf(st.maxs, id))];
      ConfigApplied(st, ValueKey(id), value) ==
        st.(values := vs, settings := st.settings.(health := Mirror(vs, "Health", st.settings.health),
          mental := Mirror(vs, "MentalState", st.settings.mental)))
  {
  }

  /** What a progress entry does to a store. */
  lemma ProgressEntry(st: Store, id: string, value: string)
    ensures ConfigApplied(st, ProgressKey(id), value) == st.(progress := st.progress[id := MaxR(0.0, Atof(value))])
  {
  }

  /** Every stored progress is non-negative. */
  predicate ProgressFloored(progress: map<string, real>)
  {
    forall k :: k in progress ==> progress[k] >= 0.0
  }

  /**
   * What one entry changes: only a value key changes the table (and
   * reads back clamped), only a pool key the pools, only a progress key
   * the progress (never below 0), only the two maxima the ranges; every
   * scalar other than the mirrored health and mental state is configured
   * exactly as `Configured` reads it.
   */
  lemma ConfigAppliedTouches(st: Store, k: ConfigKey, value: string)
    ensures var r := ConfigApplied(st, k, value);
      (k.ValueKey? && k.valueId != "" ==>
        r.values == st.values[k.valueId := ClampTo(Atof(value), BoundOf(st.mins, k.valueId), BoundOf(st.maxs, k.valueId))]) &&
      (!k.ValueKey? && !k.MaxHealthKey? && !k.MaxMentalKey? ==> r.values == st.values) &&
      (!k.ValueKey? ==> r.settings == Configured(st.settings, k, value)) &&
      r.pools == (if k.ResourceKey? then st.pools[k.resource := Atof(value)] else st.pools) &&
      r.progress == (if k.ProgressKey? then st.progress[k.progress := MaxR(0.0, Atof(value))] else st.progress) &&
      (k.MaxHealthKey? ==> r.mins == st.mins["Health" := 0.0] && r.maxs == st.maxs["Health" := r.settings.maxHealth]) &&
      (k.MaxMentalKey? ==> r.mins == st.mins["MentalState" := 0.0] && r.maxs == st.maxs["MentalState" := r.settings.maxMental]) &&
      (!k.MaxHealthKey? && !k.MaxMentalKey? ==> r.mins == st.mins && r.maxs == st.maxs)
  {
    match k {
      case ValueKey(id) =>
      case ResourceKey(id) =>
      case ProgressKey(id) =>
      case MaxHealthKey =>
      case MaxMentalKey =>
      case _ =>
    }
  }

  /**
   * One entry keeps every stored value within its uncrossed range and
   * every progress non-negative, and a non-negative maximum health leaves
   * health registered over [0, max].
   */
  lemma ConfigAppliedKeeps(st: Store, k: ConfigKey, value: string)
    ensures var r := ConfigApplied(st, k, value);
      (InRange(st.values, st.mins, st.maxs) ==> InRange(r.values, r.mins, r.maxs)) &&
      (ProgressFloored(st.progress) ==> ProgressFloored(r.progress)) &&
      (k.MaxHealthKey? && 0.0 <= r.settings.maxHealth ==>
        BoundOf(r.mins, "Health") == Some(0.0) && BoundOf(r.maxs, "Health") == Some(r.settings.maxHealth))
  {
    var r := ConfigApplied(st, k, value);
    if k.ValueKey? && k.valueId != "" {
      WrittenReadsBack(Table(st.values, st.settings.health, st.settings.mental), k.valueId, Atof(value), st.mins, st.maxs);
    }
  }

  /**
   * `InitializePredefinedValues` on a store: health and mental state are
   * registered over [0, max] with their current numbers clamped in.
   */
  function WithPredefined(st: Store): Store
  {
    st.(values := st.values["Health" := ClampR(st.settings.health, 0.0, st.settings.maxHealth)]
                           ["MentalState" := ClampR(st.settings.mental, 0.0, st.settings.maxMental)],
        mins := st.mins["Health" := 0.0]["MentalState" := 0.0],
        maxs := st.maxs["Health" := st.settings.maxHealth]["MentalState" := st.settings.maxMental])
  }

  /** `LoadNumericalConfig`: each entry of `order` applied in turn. */
  function ConfigAlong(st: Store, order: seq<string>, config: map<string, string>): Store
    requires forall i :: 0 <= i < |order| ==> order[i] in config
  {
    if order == [] then st
    else
      var k := order[|order| - 1];
      ConfigApplied(ConfigAlong(st, order[..|order| - 1], config), ConfigKeyOf(k), config[k])
  }

  /** Loading one more entry is one more application of `ConfigApplied`. */
  lemma ConfigAlongSnoc(st: Store, ids: seq<string>, i: nat, config: map<string, string>)
    requires i < |ids| && forall k :: k in ids ==> k in config
    ensures ConfigAlong(st, ids[..i + 1], config) ==
      ConfigApplied(ConfigAlong(st, ids[..i], config), ConfigKeyOf(ids[i]), config[ids[i]])
  {
    assert ids[..i + 1][..i] == ids[..i];
  }

  /**
   * Loading a configuration, whatever the order of its entries, keeps every
   * stored value within its uncrossed range and every progress
   * non-negative.
   */
  lemma {:induction false} ConfigAlongKeeps(st: Store, order: seq<string>, config: map<string, string>)
    requires forall i :: 0 <= i < |order| ==> order[i] in config
    ensures InRange(st.values, st.mins, st.maxs) ==>
      InRange(ConfigAlong(st, order, config).values, ConfigAlong(st, order, config).mins, ConfigAlong(st, order, config).maxs)
    ensures ProgressFloored(st.progress) ==> ProgressFloored(ConfigAlong(st, order, config).progress)
  {
    if order != [] {
      var init := order[..|order| - 1];
      var k := order[|order| - 1];
      assert forall i :: 0 <= i < |init| ==> init[i] == order[i];
      ConfigAlongKeeps(st, init, config);
      ConfigAppliedKeeps(ConfigAlong(st, init, config), ConfigKeyOf(k), config[k]);
    }
  }

  // ---------------------------------------------------------------------
  // The capability
  // ---------------------------------------------------------------------

  class NumericalCapability {
    const base: ItemCapability
    var values: map<string, real>
    var maxValues: map<string, real>
    var minValues: map<string, real>
    var regenerationRates: map<string, real>
    var playerHealth: real
    var playerMaxHealth: real
    var mentalState: real
    var maxMentalState: real
    var resourcePools: map<string, real>
    var consumptionRates: map<string, real>
    var autoConsume: bool
    var resourceUpdateInterval: real
    var progressTrackers: map<string, real>
    var progressMilestones: map<string, real>
    var milestoneRewards: map<string, string>
    var lastMilestoneChecked: map<string, real>
    var visionRadius: real
    var hearingRadius: real
    var dangerSenseRadius: real
    var affinityValues: map<string, real>
    var affinityMin: real
    var affinityMax: real
    var numericalConfig: map<string, string>
    var accumulatedDeltaTime: real

    /** The defaults: full health and mental state of 100, radii 1000/800/1500, affinity within [-100, 100]. */
    constructor()
      ensures fresh(base) && base.kind == Numerical && base.owner == null && !base.capabilityActive
      ensures base.currentCooldown == 0.0 && base.cooldownDuration == 0.0
      ensures values == map[] && maxValues == map[] && minValues == map[] && regenerationRates == map[]
      ensures playerHealth == 100.0 && playerMaxHealth == 100.0 && mentalState == 100.0 && maxMentalState == 100.0
      ensures resourcePools == map[] && consumptionRates == map[] && !autoConsume && resourceUpdateInterval == 0.5
      ensures progressTrackers == map[] && progressMilestones == map[] && milestoneRewards == map[]
      ensures lastMilestoneChecked == map[]
      ensures visionRadius == 1000.0 && hearingRadius == 800.0 && dangerSenseRadius == 1500.0
      ensures affinityValues == map[] && affinityMin == -100.0 && affinityMax == 100.0
      ensures numericalConfig == map[] && accumulatedDeltaTime == 0.0
      ensures ValuesInRange() && RatesActive() && ProgressNonNegative() && AffinityInRange()
    {
      base := new ItemCapability(Numerical);
      values := map[];
      maxValues := map[];
      minValues := map[];
      regenerationRates := map[];
      playerHealth := 100.0;
      playerMaxHealth := 100.0;
      mentalState := 100.0;
      maxMentalState := 100.0;
      resourcePools := map[];
      consumptionRates := map[];
      autoConsume := false;
      resourceUpdateInterval := 0.5;
      progressTrackers := map[];
      progressMilestones := map[];
      milestoneRewards := map[];
      lastMilestoneChecked := map[];
      visionRadius := 1000.0;
      hearingRadius := 800.0;
      dangerSenseRadius := 1500.0;
      affinityValues := map[];
      affinityMin := -100.0;
      affinityMax := 100.0;
      numericalConfig := map[];
      accumulatedDeltaTime := 0.0;
    }

    /** Every stored value lies within its registered range whenever that range does not cross. */
    predicate ValuesInRange()
      reads `values, `minValues, `maxValues
    {
      InRange(values, minValues, maxValues)
    }

    /** The rate tables hold only rates that act: no zero regeneration, no non-positive consumption. */
    predicate RatesActive()
      reads `regenerationRates, `consumptionRates
    {
      (forall k :: k in regenerationRates ==> regenerationRates[k] != 0.0) &&
      (forall k :: k in consumptionRates ==> consumptionRates[k] > 0.0)
    }

    /** Tracked progress is never negative. */
    predicate ProgressNonNegative()
      reads `progressTrackers
    {
      forall k :: k in progressTrackers ==> progressTrackers[k] >= 0.0
    }

    /** With an uncrossed affinity range, every affinity lies within it. */
    predicate AffinityInRange()
      reads `affinityValues, `affinityMin, `affinityMax
    {
      affinityMin <= affinityMax ==>
        forall k :: k in affinityValues ==> affinityMin <= affinityValues[k] <= affinityMax
    }

    /** The health range as `Initialize` registers it: from 0 up to a non-negative maximum, if any. */
    predicate HealthRegistered()
      reads `minValues, `maxValues
    {
      BoundOf(minValues, "Health") == Some(0.0) &&
      (BoundOf(maxValues, "Health").None? || 0.0 <= maxValues["Health"])
    }

    /** `id`'s number as `ClampValue` would store it. */
    function Clamped(id: string, x: real): real
      reads `minValues, `maxValues
    {
      ClampTo(x, BoundOf(minValues, id), BoundOf(maxValues, id))
    }

    // ---- values ----

    /** The value table with the predefined fields. */
    function TableNow(): Table
      reads `values, `playerHealth, `mentalState
    {
      Table(values, playerHealth, mentalState)
    }

    /** `GetValue`: `Read` on the current table. */
    function GetValue(id: string): (r: real)
      reads `values, `playerHealth, `mentalState
      ensures id in values ==> r == values[id]
      ensures id !in values && !Predefined(id) ==> r == 0.0
    {
      Read(TableNow(), id)
    }

    /** `UpdatePredefinedValues`: health and mental state follow their stored numbers. */
    method UpdatePredefinedValues()
      modifies `playerHealth, `mentalState
      ensures playerHealth == Mirror(values, "Health", old(playerHealth))
      ensures mentalState == Mirror(values, "MentalState", old(mentalState))
    {
      if "Health" in values {
        playerHealth := values["Health"];
      }
      if "MentalState" in values {
        mentalState := values["MentalState"];
      }
    }

    /**
     * `SetValue`: an empty id changes nothing; otherwise the number is
     * stored clamped to its range, reads back as stored, and the
     * predefined values follow the table.
     */
    method SetValue(id: string, v: real)
      modifies `values, `playerHealth, `mentalState
      ensures id == "" ==> values == old(values) && playerHealth == old(playerHealth) && mentalState == old(mentalState)
      ensures id != "" ==> values == old(values)[id := Clamped(id, v)]
      ensures id != "" ==> GetValue(id) == Clamped(id, v)
      ensures id != "" ==> playerHealth == Mirror(values, "Health", old(playerHealth))
      ensures id != "" ==> mentalState == Mirror(values, "MentalState", old(mentalState))
      ensures id != "" && Ordered(BoundOf(minValues, id), BoundOf(maxValues, id)) ==>
        Within(values[id], BoundOf(minValues, id), BoundOf(maxValues, id))
      ensures old(ValuesInRange()) ==> ValuesInRange()
    {
      if id == "" {
        return;
      }
      values := values[id := v];
      ClampValue(id);
      UpdatePredefinedValues();
    }

    /** `ClampValue`: a stored number is brought into its range; an unstored id changes nothing. */
    method ClampValue(id: string)
      modifies `values
      ensures id in old(values) ==> values == old(values)[id := Clamped(id, old(values)[id])]
      ensures id !in old(values) ==> values == old(values)
    {
      if id !in values {
        return;
      }
      values := values[id := Clamped(id, values[id])];
    }

    /** `ModifyValue`: the value read by `GetValue`, moved by `delta`, set again. */
    method ModifyValue(id: string, delta: real)
      modifies `values, `playerHealth, `mentalState
      ensures id == "" ==> values == old(values) && playerHealth == old(playerHealth) && mentalState == old(mentalState)
      ensures id != "" ==> values == old(values)[id := Clamped(id, old(GetValue(id)) + delta)]
      ensures id != "" ==> playerHealth == Mirror(values, "Health", old(playerHealth))
      ensures id != "" ==> mentalState == Mirror(values, "MentalState", old(mentalState))
      ensures old(ValuesInRange()) ==> ValuesInRange()
    {
      var current := GetValue(id);
      SetValue(id, current + delta);
    }

    /**
     * `RegisterNewValue`: an empty id changes nothing; otherwise the range
     * is recorded and the initial number stored clamped into it. The
     * predefined fields are not refreshed.
     */
    method RegisterNewValue(id: string, initial: real, lo: real, hi: real)
      modifies `values, `minValues, `maxValues
      ensures id == "" ==> values == old(values) && minValues == old(minValues) && maxValues == old(maxValues)
      ensures id != "" ==> minValues == old(minValues)[id := lo] && maxValues == old(maxValues)[id := hi]
      ensures id != "" ==> values == old(values)[id := ClampR(initial, lo, hi)]
      ensures id != "" && lo <= hi ==> lo <= values[id] <= hi
      ensures old(ValuesInRange()) ==> ValuesInRange()
    {
      if id == "" {
        return;
      }
      values := values[id := initial];
      minValues := minValues[id := lo];
      maxValues := maxValues[id := hi];
      ClampValue(id);
    }

    /**
     * `SetValueRange`: the range is recorded (even for an empty id) and a
     * stored number is clamped into it.
     */
    method SetValueRange(id: string, lo: real, hi: real)
      modifies `values, `minValues, `maxValues
      ensures minValues == old(minValues)[id := lo] && maxValues == old(maxValues)[id := hi]
      ensures id in old(values) ==> values == old(values)[id := ClampR(old(values)[id], lo, hi)]
      ensures id !in old(values) ==> values == old(values)
      ensures id in values && lo <= hi ==> lo <= values[id] <= hi
      ensures old(ValuesInRange()) ==> ValuesInRange()
    {
      minValues := minValues[id := lo];
      maxValues := maxValues[id := hi];
      ClampValue(id);
    }

    /** `SetRegenerationRate`: a non-zero rate is recorded, a zero rate removes the entry. */
    method SetRegenerationRate(id: string, rate: real)
      modifies `regenerationRates
      ensures id in regenerationRates <==> rate != 0.0
      ensures rate != 0.0 ==> regenerationRates == old(regenerationRates)[id := rate]
      ensures rate == 0.0 ==> regenerationRates == old(regenerationRates) - {id}
      ensures old(RatesActive()) ==> RatesActive()
    {
      if rate != 0.0 {
        regenerationRates := regenerationRates[id := rate];
      } else {
        regenerationRates := regenerationRates - {id};
      }
    }

    /** The maximum `GetValuePercentage` divides by: the registered one, 100 by default. */
    function PercentMax(id: string): real
      reads `maxValues
    {
      if id in maxValues then maxValues[id] else 100.0
    }

    /** `GetValuePercentage`: the value's share of its maximum, in percent; 0 for a zero maximum. */
    function GetValuePercentage(id: string): (r: real)
      reads `values, `playerHealth, `mentalState, `maxValues
      ensures PercentMax(id) == 0.0 ==> r == 0.0
      ensures PercentMax(id) != 0.0 ==> r * PercentMax(id) == GetValue(id) * 100.0
      ensures PercentMax(id) > 0.0 && 0.0 <= GetValue(id) <= PercentMax(id) ==> 0.0 <= r <= 100.0
    {
      ValuePercent(GetValue(id), PercentMax(id))
    }

    // ---- health and mental state ----

    /**
     * `ModifyHealth`: the health moves by `delta` within [0, max] and is
     * stored (clamped again to its registered range); at or below 0 an
     * owner becomes Inactive. With the range registered by `Initialize`
     * and a non-negative maximum, health stays within [0, max].
     */
    method ModifyHealth(delta: real)
      modifies `values, `playerHealth, `mentalState
      modifies if base.owner == null then {} else {base.owner.node}`state
      modifies if base.owner == null then {} else {base.owner.node}`stateChanges
      ensures playerHealth == PredefinedAfter(old(playerHealth), delta, playerMaxHealth,
        BoundOf(minValues, "Health"), BoundOf(maxValues, "Health"))
      ensures values == old(values)["Health" := playerHealth]
      ensures mentalState == Mirror(values, "MentalState", old(mentalState))
      ensures HealthRegistered() && 0.0 <= playerMaxHealth ==> 0.0 <= playerHealth <= playerMaxHealth
      ensures base.owner != null && playerHealth <= 0.0 ==> base.owner.node.state == Inactive
      ensures base.owner != null && playerHealth > 0.0 ==>
        base.owner.node.state == old(base.owner.node.state) && base.owner.node.stateChanges == old(base.owner.node.stateChanges)
      ensures old(ValuesInRange()) ==> ValuesInRange()
    {
      var h := ClampR(playerHealth + delta, 0.0, playerMaxHealth);
      playerHealth := h;
      SetValue("Health", h);
      if HealthRegistered() && 0.0 <= playerMaxHealth {
        PredefinedAfterBounds(old(playerHealth), delta, playerMaxHealth, BoundOf(maxValues, "Health"));
      }
      if playerHealth <= 0.0 && base.owner != null {
        base.owner.node.SetNodeState(Inactive);
      }
    }

    /**
     * `ModifyMentalState`: the mental state moves by `delta` within
     * [0, max] and is stored; below 30% of the maximum the vision radius
     * is dimmed in proportion.
     */
    method ModifyMentalState(delta: real)
      modifies `values, `playerHealth, `mentalState, `visionRadius
      ensures mentalState == PredefinedAfter(old(mentalState), delta, maxMentalState,
        BoundOf(minValues, "MentalState"), BoundOf(maxValues, "MentalState"))
      ensures values == old(values)["MentalState" := mentalState]
      ensures playerHealth == Mirror(values, "Health", old(playerHealth))
      ensures visionRadius == if mentalState < maxMentalState * 0.3
        then DimmedVision(old(visionRadius), mentalState, maxMentalState) else old(visionRadius)
      ensures old(ValuesInRange()) ==> ValuesInRange()
    {
      var m := ClampR(mentalState + delta, 0.0, maxMentalState);
      mentalState := m;
      SetValue("MentalState", m);
      if mentalState < maxMentalState * 0.3 {
        visionRadius := DimmedVision(visionRadius, mentalState, maxMentalState);
      }
    }

    /** `GetHealthPercentage`. */
    function GetHealthPercentage(): (r: real)
      reads `playerHealth, `playerMaxHealth
      ensures playerMaxHealth > 0.0 && 0.0 <= playerHealth <= playerMaxHealth ==> 0.0 <= r <= 100.0
      ensures playerMaxHealth > 0.0 ==> (r == 100.0 <==> playerHealth == playerMaxHealth)
      ensures playerMaxHealth <= 0.0 ==> r == 0.0
    {
      Percent(playerHealth, playerMaxHealth)
    }

    /** `GetMentalStatePercentage`. */
    function GetMentalStatePercentage(): (r: real)
      reads `mentalState, `maxMentalState
      ensures maxMentalState > 0.0 && 0.0 <= mentalState <= maxMentalState ==> 0.0 <= r <= 100.0
      ensures maxMentalState > 0.0 ==> (r == 100.0 <==> mentalState == maxMentalState)
      ensures maxMentalState <= 0.0 ==> r == 0.0
    {
      Percent(mentalState, maxMentalState)
    }

    // ---- resources ----

    /** `GetResourceAmount`: the pool, 0 for an unknown resource. */
    function GetResourceAmount(id: string): real
      reads `resourcePools
    {
      if id in resourcePools then resourcePools[id] else 0.0
    }

    /** `HasEnoughResource`: the amount is covered by the pool. */
    predicate HasEnoughResource(id: string, amount: real)
      reads `resourcePools
    {
      GetResourceAmount(id) >= amount
    }

    /**
     * `ConsumeResource`: refused for a non-positive amount, an unknown
     * resource or a pool that does not cover it, leaving every pool;
     * otherwise exactly the amount is taken and the pool stays
     * non-negative.
     */
    method ConsumeResource(id: string, amount: real) returns (ok: bool)
      modifies `resourcePools
      ensures ok <==> amount > 0.0 && id in old(resourcePools) && old(HasEnoughResource(id, amount))
      ensures ok ==> resourcePools == old(resourcePools)[id := old(resourcePools)[id] - amount]
      ensures ok ==> resourcePools[id] + amount == old(resourcePools)[id] && old(resourcePools)[id] >= 0.0 ==> resourcePools[id] >= 0.0
      ensures !ok ==> resourcePools == old(resourcePools)
      ensures id in old(resourcePools) ==> resourcePools == old(resourcePools)[id := Drained(old(resourcePools)[id], amount)]
    {
      if amount <= 0.0 || id !in resourcePools {
        return false;
      }
      var current := resourcePools[id];
      if current < amount {
        return false;
      }
      resourcePools := resourcePools[id := current - amount];
      return true;
    }

    /**
     * `ReplenishResource`: a non-positive amount changes nothing;
     * otherwise the pool (0 if unknown) grows by the amount but not past
     * the value maximum registered under the same id (100 by default).
     */
    method ReplenishResource(id: string, amount: real)
      modifies `resourcePools
      ensures amount <= 0.0 ==> resourcePools == old(resourcePools)
      ensures amount > 0.0 ==>
        resourcePools == old(resourcePools)[id := MinR(old(GetResourceAmount(id)) + amount, PercentMax(id))]
      ensures amount > 0.0 ==> resourcePools[id] <= PercentMax(id)
      ensures amount > 0.0 && old(GetResourceAmount(id)) + amount <= PercentMax(id) ==>
        resourcePools[id] == old(GetResourceAmount(id)) + amount
    {
      if amount <= 0.0 {
        return;
      }
      var current := GetResourceAmount(id);
      var max := PercentMax(id);
      resourcePools := resourcePools[id := MinR(current + amount, max)];
    }

    /** `SetConsumptionRate`: a positive rate is recorded, any other removes the entry. */
    method SetConsumptionRate(id: string, rate: real)
      modifies `consumptionRates
      ensures id in consumptionRates <==> rate > 0.0
      ensures rate > 0.0 ==> consumptionRates == old(consumptionRates)[id := rate]
      ensures rate <= 0.0 ==> consumptionRates == old(consumptionRates) - {id}
      ensures old(RatesActive()) ==> RatesActive()
    {
      if rate > 0.0 {
        consumptionRates := consumptionRates[id := rate];
      } else {
        consumptionRates := consumptionRates - {id};
      }
    }

    // ---- progress ----

    /** `GetProgress`: the tracked progress, 0 for an untracked id. */
    function GetProgress(id: string): real
      reads `progressTrackers
    {
      if id in progressTrackers then progressTrackers[id] else 0.0
    }

    /** The last progress at which `id`'s milestone fired, 0 by default. */
    function LastChecked(id: string): real
      reads `lastMilestoneChecked
    {
      if id in lastMilestoneChecked then lastMilestoneChecked[id] else 0.0
    }

    /** `HasReachedMilestone`: tracked, with a milestone, and the progress at or past it. */
    predicate HasReachedMilestone(id: string)
      reads `progressTrackers, `progressMilestones
    {
      id in progressTrackers && id in progressMilestones && progressTrackers[id] >= progressMilestones[id]
    }

    /** `RegisterMilestone`: the milestone and its reward are recorded. */
    method RegisterMilestone(id: string, milestone: real, reward: string)
      modifies `progressMilestones, `milestoneRewards
      ensures progressMilestones == old(progressMilestones)[id := milestone]
      ensures milestoneRewards == old(milestoneRewards)[id := reward]
    {
      progressMilestones := progressMilestones[id := milestone];
      milestoneRewards := milestoneRewards[id := reward];
    }

    /**
     * `CheckAndTriggerMilestones`: when the progress reaches the milestone
     * and the last checked value had not, the progress is recorded as
     * checked (so it will not fire again) and, with a reward, the owner
     * receives the reward event; otherwise nothing changes.
     */
    method CheckAndTriggerMilestones(id: string)
      modifies `lastMilestoneChecked
      modifies if base.owner == null then {} else {base.owner.node}`triggerEvents
      ensures id in progressMilestones && old(Fires(GetProgress(id), progressMilestones[id], LastChecked(id))) ==>
        lastMilestoneChecked == old(lastMilestoneChecked)[id := GetProgress(id)] &&
        LastChecked(id) >= progressMilestones[id] && !Fires(GetProgress(id), progressMilestones[id], LastChecked(id))
      ensures !(id in progressMilestones && old(Fires(GetProgress(id), progressMilestones[id], LastChecked(id)))) ==>
        lastMilestoneChecked == old(lastMilestoneChecked)
      ensures base.owner != null ==> (base.owner.node.triggerEvents ==
        if id in progressMilestones && old(Fires(GetProgress(id), progressMilestones[id], LastChecked(id))) && id in milestoneRewards
        then WithTriggerEvent(old(base.owner.node.triggerEvents), MilestoneEvent(id, milestoneRewards[id]))
        else old(base.owner.node.triggerEvents))
    {
      if id !in progressMilestones {
        return;
      }
      var current := GetProgress(id);
      var milestone := progressMilestones[id];
      var last := LastChecked(id);
      if current >= milestone && last < milestone {
        if id in milestoneRewards {
          var reward := milestoneRewards[id];
          if base.owner != null {
            base.owner.node.AddTriggerEvent(MilestoneEvent(id, reward));
          }
        }
        lastMilestoneChecked := lastMilestoneChecked[id := current];
      }
    }

    /** `SetProgress`: the progress is stored floored at 0, then its milestone is checked. */
    method SetProgress(id: string, v: real)
      modifies `progressTrackers, `lastMilestoneChecked
      modifies if base.owner == null then {} else {base.owner.node}`triggerEvents
      ensures progressTrackers == old(progressTrackers)[id := MaxR(0.0, v)]
      ensures GetProgress(id) >= 0.0 && (v >= 0.0 ==> GetProgress(id) == v)
      ensures id in progressMilestones && Fires(GetProgress(id), progressMilestones[id], old(LastChecked(id))) ==>
        lastMilestoneChecked == old(lastMilestoneChecked)[id := GetProgress(id)]
      ensures !(id in progressMilestones && Fires(GetProgress(id), progressMilestones[id], old(LastChecked(id)))) ==>
        lastMilestoneChecked == old(lastMilestoneChecked)
      ensures base.owner != null ==> (base.owner.node.triggerEvents ==
        if id in progressMilestones && Fires(GetProgress(id), progressMilestones[id], old(LastChecked(id))) && id in milestoneRewards
        then WithTriggerEvent(old(base.owner.node.triggerEvents), MilestoneEvent(id, milestoneRewards[id]))
        else old(base.owner.node.triggerEvents))
      ensures old(ProgressNonNegative()) ==> ProgressNonNegative()
    {
      progressTrackers := progressTrackers[id := MaxR(0.0, v)];
      CheckAndTriggerMilestones(id);
    }

    /** `UpdateProgress`: the tracked progress (0 if untracked) moved by `delta`, set again. */
    method UpdateProgress(id: string, delta: real)
      modifies `progressTrackers, `lastMilestoneChecked
      modifies if base.owner == null then {} else {base.owner.node}`triggerEvents
      ensures progressTrackers == old(progressTrackers)[id := MaxR(0.0, old(GetProgress(id)) + delta)]
      ensures id in progressMilestones && Fires(GetProgress(id), progressMilestones[id], old(LastChecked(id))) ==>
        lastMilestoneChecked == old(lastMilestoneChecked)[id := GetProgress(id)]
      ensures !(id in progressMilestones && Fires(GetProgress(id), progressMilestones[id], old(LastChecked(id)))) ==>
        lastMilestoneChecked == old(lastMilestoneChecked)
      ensures old(ProgressNonNegative()) ==> ProgressNonNegative()
    {
      var current := GetProgress(id);
      SetProgress(id, current + delta);
    }

    // ---- perception ----

    /** `GetPerceptionRadius`: the sense's radius; for All the largest of the three. */
    function GetPerceptionRadius(t: PerceptionType): (r: real)
      reads `visionRadius, `hearingRadius, `dangerSenseRadius
      ensures t == All ==> r >= visionRadius && r >= hearingRadius && r >= dangerSenseRadius
      ensures t == All ==> r == visionRadius || r == hearingRadius || r == dangerSenseRadius
    {
      match t
      case Vision => visionRadius
      case Hearing => hearingRadius
      case Danger => dangerSenseRadius
      case All => MaxR(MaxR(visionRadius, hearingRadius), dangerSenseRadius)
    }

    /**
     * `SetPerceptionRadius`: the sense's radius (all three for All) becomes
     * the given one floored at 0, and reads back as such.
     */
    method SetPerceptionRadius(t: PerceptionType, radius: real)
      modifies `visionRadius, `hearingRadius, `dangerSenseRadius
      ensures visionRadius == if t == Vision || t == All then MaxR(0.0, radius) else old(visionRadius)
      ensures hearingRadius == if t == Hearing || t == All then MaxR(0.0, radius) else old(hearingRadius)
      ensures dangerSenseRadius == if t == Danger || t == All then MaxR(0.0, radius) else old(dangerSenseRadius)
      ensures GetPerceptionRadius(t) == MaxR(0.0, radius) >= 0.0
    {
      var r := MaxR(0.0, radius);
      match t
      case Vision => visionRadius := r;
      case Hearing => hearingRadius := r;
      case Danger => dangerSenseRadius := r;
      case All =>
        visionRadius := r;
        hearingRadius := r;
        dangerSenseRadius := r;
    }

    /**
     * `PerceiveNodesInRadius`: nothing without an owner or for a
     * non-positive radius; otherwise the nodes found in the radius that
     * are not the owner and not Hidden, in the order found.
     */
    method PerceiveNodesInRadius(radius: real, found: seq<InteractiveNode>) returns (r: seq<InteractiveNode>)
      ensures base.owner == null || radius <= 0.0 ==> r == []
      ensures base.owner != null && radius > 0.0 ==> r == Perceived(found, base.owner.node)
    {
      r := [];
      if base.owner == null || radius <= 0.0 {
        return;
      }
      var self := base.owner.node;
      var i := 0;
      while i < |found|
        invariant 0 <= i <= |found|
        invariant r == Perceived(found[..i], self)
      {
        var n := found[i];
        assert found[..i + 1][..i] == found[..i];
        if n != self && n.state != Hidden {
          r := r + [n];
        }
        i := i + 1;
      }
      assert found[..|found|] == found;
    }

    /** `PerceiveNodesByType`: perception within the sense's radius (the largest for All). */
    method PerceiveNodesByType(t: PerceptionType, found: seq<InteractiveNode>) returns (r: seq<InteractiveNode>)
      ensures base.owner == null || GetPerceptionRadius(t) <= 0.0 ==> r == []
      ensures base.owner != null && GetPerceptionRadius(t) > 0.0 ==> r == Perceived(found, base.owner.node)
    {
      var radius := GetPerceptionRadius(t);
      r := PerceiveNodesInRadius(radius, found);
    }

    // ---- affinity ----

    /** `GetAffinity`: the recorded affinity, 0 for an unknown target. */
    function GetAffinity(id: string): real
      reads `affinityValues
    {
      if id in affinityValues then affinityValues[id] else 0.0
    }

    /**
     * `ModifyAffinity`: an empty target id changes nothing; otherwise the
     * affinity (0 if unknown) moves by `delta` clamped to
     * [AffinityMin, AffinityMax]. `connect` says whether the emotional
     * connection is requested: the new affinity exceeds 50 in magnitude.
     */
    method ModifyAffinity(id: string, delta: real) returns (connect: bool)
      modifies `affinityValues
      ensures id == "" ==> affinityValues == old(affinityValues) && !connect
      ensures id != "" ==> affinityValues == old(affinityValues)[id := ClampR(old(GetAffinity(id)) + delta, affinityMin, affinityMax)]
      ensures id != "" && affinityMin <= affinityMax ==> affinityMin <= GetAffinity(id) <= affinityMax
      ensures connect <==> id != "" && (GetAffinity(id) > 50.0 || GetAffinity(id) < -50.0)
      ensures old(AffinityInRange()) ==> AffinityInRange()
    {
      if id == "" {
        return false;
      }
      var current := GetAffinity(id);
      var next := ClampR(current + delta, affinityMin, affinityMax);
      affinityValues := affinityValues[id := next];
      connect := next > 50.0 || next < -50.0;
    }

    // ---- the engine hooks ----

    /** `CanUse`: the base gate alone. */
    predicate CanUse(d: InteractionData)
      reads base`capabilityActive, base`owner, base`currentCooldown
      reads if base.owner == null then {} else {base.owner.node}`state
    {
      base.CanUse(d)
    }

    /**
     * `Use`: refused exactly when the base refuses; otherwise 20 health is
     * restored while health is below its maximum, else 15 mental state
     * while that is below its maximum, and the use succeeds either way.
     */
    method Use(d: InteractionData) returns (ok: bool)
      modifies base`currentCooldown, `values, `playerHealth, `mentalState, `visionRadius
      modifies if base.owner == null then {} else {base.owner.node}`state
      modifies if base.owner == null then {} else {base.owner.node}`stateChanges
      ensures ok == old(CanUse(d))
      ensures !ok ==> values == old(values) && playerHealth == old(playerHealth) && mentalState == old(mentalState)
      ensures !ok ==> visionRadius == old(visionRadius) && base.currentCooldown == old(base.currentCooldown)
      ensures ok && old(playerHealth < playerMaxHealth) ==>
        playerHealth == PredefinedAfter(old(playerHealth), 20.0, playerMaxHealth,
          BoundOf(minValues, "Health"), BoundOf(maxValues, "Health")) &&
        visionRadius == old(visionRadius)
      ensures ok && old(playerHealth >= playerMaxHealth && mentalState < maxMentalState) ==>
        mentalState == PredefinedAfter(old(mentalState), 15.0, maxMentalState,
          BoundOf(minValues, "MentalState"), BoundOf(maxValues, "MentalState"))
      ensures ok && old(playerHealth >= playerMaxHealth && mentalState >= maxMentalState) ==>
        values == old(values) && playerHealth == old(playerHealth) && mentalState == old(mentalState)
      ensures old(ValuesInRange()) ==> ValuesInRange()
    {
      ok := base.Use(d);
      if !ok {
        return;
      }
      if playerHealth < playerMaxHealth {
        ModifyHealth(20.0);
        return true;
      }
      if mentalState < maxMentalState {
        ModifyMentalState(15.0);
        return true;
      }
      return true;
    }

    /**
     * `OnOwnerStateChanged`: the base hook, then an Active owner
     * regenerates health at 2 per second and an Inactive one stops.
     */
    method OnOwnerStateChanged(s: NodeState)
      modifies base`engineActive, `regenerationRates
      ensures s == Active ==> regenerationRates == old(regenerationRates)["Health" := 2.0]
      ensures s == Inactive ==> regenerationRates == old(regenerationRates) - {"Health"}
      ensures s != Active && s != Inactive ==> regenerationRates == old(regenerationRates)
      ensures old(RatesActive()) ==> RatesActive()
    {
      base.OnOwnerStateChanged(s);
      if s == Active {
        SetRegenerationRate("Health", 2.0);
      } else if s == Inactive {
        SetRegenerationRate("Health", 0.0);
      }
    }

    /**
     * `InitializePredefinedValues`: health and mental state are registered
     * with the ranges [0, max] and their current numbers clamped into them.
     */
    method InitializePredefinedValues()
      modifies `values, `minValues, `maxValues
      ensures StoreNow() == WithPredefined(old(StoreNow()))
      ensures 0.0 <= playerMaxHealth ==> HealthRegistered()
      ensures old(ValuesInRange()) ==> ValuesInRange()
    {
      RegisterNewValue("Health", playerHealth, 0.0, playerMaxHealth);
      RegisterNewValue("MentalState", mentalState, 0.0, maxMentalState);
    }

    /** One pass of the loop of `LoadNumericalConfig`: the entry `ids[i]` is applied. */
    method LoadAt(ids: seq<string>, i: nat, config: map<string, string>, ghost start: Store, ghost before: map<string, string>)
      requires i < |ids| && forall k :: k in ids ==> k in config
      requires StoreNow() == ConfigAlong(start, ids[..i], config)
      requires numericalConfig == before + Restricted(config, ids[..i])
      modifies `playerMaxHealth, `playerHealth, `maxMentalState, `mentalState
      modifies `visionRadius, `hearingRadius, `dangerSenseRadius, `autoConsume
      modifies `values, `minValues, `maxValues, `resourcePools, `progressTrackers, `lastMilestoneChecked, `numericalConfig
      modifies if base.owner == null then {} else {base.owner.node}`triggerEvents
      ensures StoreNow() == ConfigAlong(start, ids[..i + 1], config)
      ensures numericalConfig == before + Restricted(config, ids[..i + 1])
    {
      var key := ids[i];
      ConfigAlongSnoc(start, ids, i, config);
      RestrictedSnoc(before, config, ids, i);
      var _ := ApplyConfigValue(key, config[key]);
    }

    /** `LoadNumericalConfig`: every entry is applied, visiting the table in `order`. */
    method LoadNumericalConfig(config: map<string, string>) returns (ghost order: seq<string>)
      modifies `playerMaxHealth, `playerHealth, `maxMentalState, `mentalState
      modifies `visionRadius, `hearingRadius, `dangerSenseRadius, `autoConsume
      modifies `values, `minValues, `maxValues, `resourcePools, `progressTrackers, `lastMilestoneChecked, `numericalConfig
      modifies if base.owner == null then {} else {base.owner.node}`triggerEvents
      ensures NoDup(order) && forall k :: k in order <==> k in config
      ensures StoreNow() == ConfigAlong(old(StoreNow()), order, config)
      ensures numericalConfig == old(numericalConfig) + config
    {
      var ids := KeysOf(config);
      order := ids;
      ghost var start := StoreNow();
      ghost var before := numericalConfig;
      assert Restricted(config, ids[..0]) == map[];
      assert before + map[] == before;
      var i := 0;
      while i < |ids|
        invariant 0 <= i <= |ids| && base.owner == old(base.owner)
        invariant StoreNow() == ConfigAlong(start, ids[..i], config)
        invariant numericalConfig == before + Restricted(config, ids[..i])
      {
        LoadAt(ids, i, config, start, before);
        i := i + 1;
      }
      assert ids[..i] == ids;
      assert Restricted(config, ids) == config;
    }

    /**
     * `Initialize`: attach to the owner, register health and mental state,
     * then apply the stored configuration, visiting it in `order`.
     */
    method Initialize(o: ItemNode?) returns (ghost order: seq<string>)
      modifies base
      modifies `playerMaxHealth, `playerHealth, `maxMentalState, `mentalState
      modifies `visionRadius, `hearingRadius, `dangerSenseRadius, `autoConsume
      modifies `values, `minValues, `maxValues, `resourcePools, `progressTrackers, `lastMilestoneChecked, `numericalConfig
      modifies if o == null then {} else {o.node}`triggerEvents
      ensures base.owner == o && numericalConfig == old(numericalConfig)
      ensures NoDup(order) && forall k :: k in order <==> k in old(numericalConfig)
      ensures StoreNow() == ConfigAlong(WithPredefined(old(StoreNow())), order, old(numericalConfig))
      ensures old(ValuesInRange()) ==> ValuesInRange()
      ensures old(ProgressNonNegative()) ==> ProgressNonNegative()
    {
      base.Initialize(o);
      InitializePredefinedValues();
      order := [];
      if |numericalConfig| > 0 {
        ghost var st := StoreNow();
        order := LoadNumericalConfig(numericalConfig);
        assert numericalConfig == old(numericalConfig);
        ConfigAlongKeeps(st, order, old(numericalConfig));
      }
    }

    /**
     * `ProcessRegeneration`: every id with a non-zero rate moves by its
     * accrual over `dt` through `ModifyValue`, visiting the rate table in
     * `order`; `RegenerationComplete` shows every such id regenerates
     * whatever that order is.
     */
    method ProcessRegeneration(dt: real) returns (ghost order: seq<string>)
      modifies `values, `playerHealth, `mentalState
      ensures VisitOrder(order, Accruals(regenerationRates, dt).Keys) && AllAccrue(order, Accruals(regenerationRates, dt))
      ensures TableNow() == RegenAlong(old(TableNow()), order, Accruals(regenerationRates, dt), minValues, maxValues)
      ensures old(ValuesInRange()) ==> ValuesInRange()
    {
      var t;
      t, order := Regenerate(TableNow(), Accruals(regenerationRates, dt), minValues, maxValues);
      if ValuesInRange() {
        RegenAlongInRange(TableNow(), order, Accruals(regenerationRates, dt), minValues, maxValues);
      }
      values, playerHealth, mentalState := t.values, t.health, t.mental;
    }

    /**
     * `ProcessResourceConsumption`: every resource with a positive rate is
     * consumed by its accrual over `dt`; each refusal raises that
     * resource's depletion event on an owner.
     */
    method ProcessResourceConsumption(dt: real)
      modifies `resourcePools, if base.owner == null then {} else {base.owner.node}`triggerEvents
      ensures resourcePools == DrainAll(old(resourcePools), Draws(consumptionRates, dt))
      ensures base.owner != null ==> DepletionsRaised(old(base.owner.node.triggerEvents), base.owner.node.triggerEvents,
        old(resourcePools), Draws(consumptionRates, dt))
    {
      var amounts := Draws(consumptionRates, dt);
      ConsumeAll(amounts);
    }

    /** The loop of `ProcessResourceConsumption`: each amount, in the table's own order, is consumed or raises its event. */
    method ConsumeAll(amounts: map<string, real>)
      modifies `resourcePools, if base.owner == null then {} else {base.owner.node}`triggerEvents
      ensures resourcePools == DrainAll(old(resourcePools), amounts)
      ensures base.owner != null ==> DepletionsRaised(old(base.owner.node.triggerEvents), base.owner.node.triggerEvents,
        old(resourcePools), amounts)
    {
      var todo := amounts.Keys;
      while todo != {}
        invariant todo <= amounts.Keys
        invariant resourcePools.Keys == old(resourcePools).Keys
        invariant forall k :: k in resourcePools && k in todo ==> resourcePools[k] == old(resourcePools)[k]
        invariant forall k :: k in resourcePools && k !in todo ==>
          resourcePools[k] == DrainAll(old(resourcePools), amounts)[k]
        invariant base.owner != null ==> old(base.owner.node.triggerEvents) <= base.owner.node.triggerEvents
        invariant base.owner != null ==> forall k :: k !in todo && Depletes(old(resourcePools), amounts, k) ==>
          DepletionEvent(k) in base.owner.node.triggerEvents
        invariant base.owner != null ==> forall e :: e in base.owner.node.triggerEvents ==>
          e in old(base.owner.node.triggerEvents) ||
          exists k :: k !in todo && Depletes(old(resourcePools), amounts, k) && e == DepletionEvent(k)
        decreases todo
      {
        var k :| k in todo;
        var ok := ConsumeResource(k, amounts[k]);
        if !ok && base.owner != null {
          base.owner.node.AddTriggerEvent(DepletionEvent(k));
        }
        todo := todo - {k};
      }
      assert resourcePools == DrainAll(old(resourcePools), amounts);
    }

    /**
     * The AutoConsume part of `TickComponent`: the elapsed time
     * accumulates until it reaches the update interval, when the
     * accumulated time is consumed at once and the accumulator restarts.
     */
    method ConsumeWhenDue(dt: real)
      modifies `resourcePools, `accumulatedDeltaTime, if base.owner == null then {} else {base.owner.node}`triggerEvents
      ensures old(accumulatedDeltaTime) + dt >= resourceUpdateInterval ==>
        resourcePools == DrainAll(old(resourcePools), Draws(consumptionRates, old(accumulatedDeltaTime) + dt)) &&
        accumulatedDeltaTime == 0.0
      ensures old(accumulatedDeltaTime) + dt < resourceUpdateInterval ==>
        resourcePools == old(resourcePools) && accumulatedDeltaTime == old(accumulatedDeltaTime) + dt
    {
      accumulatedDeltaTime := accumulatedDeltaTime + dt;
      if accumulatedDeltaTime >= resourceUpdateInterval {
        ProcessResourceConsumption(accumulatedDeltaTime);
        accumulatedDeltaTime := 0.0;
      }
    }

    /** The part of `TickComponent` that runs while the capability is active. */
    method TickActive(dt: real) returns (ghost order: seq<string>)
      modifies `values, `playerHealth, `mentalState, `resourcePools, `accumulatedDeltaTime
      modifies if base.owner == null then {} else {base.owner.node}`triggerEvents
      ensures VisitOrder(order, Accruals(regenerationRates, dt).Keys) && AllAccrue(order, Accruals(regenerationRates, dt))
      ensures TableNow() == RegenAlong(old(TableNow()), order, Accruals(regenerationRates, dt), minValues, maxValues)
      ensures autoConsume && old(accumulatedDeltaTime) + dt >= resourceUpdateInterval ==>
        resourcePools == DrainAll(old(resourcePools), Draws(consumptionRates, old(accumulatedDeltaTime) + dt)) &&
        accumulatedDeltaTime == 0.0
      ensures !(autoConsume && old(accumulatedDeltaTime) + dt >= resourceUpdateInterval) ==> resourcePools == old(resourcePools)
      ensures autoConsume && old(accumulatedDeltaTime) + dt < resourceUpdateInterval ==>
        accumulatedDeltaTime == old(accumulatedDeltaTime) + dt
      ensures !autoConsume ==> accumulatedDeltaTime == old(accumulatedDeltaTime)
      ensures old(ValuesInRange()) ==> ValuesInRange()
    {
      order := ProcessRegeneration(dt);
      if autoConsume {
        ConsumeWhenDue(dt);
      }
    }

    /**
     * `TickComponent`: the base counts its cooldown down; an inactive
     * capability does nothing more. Otherwise values regenerate over `dt`
     * and, with AutoConsume, resources are consumed when due.
     */
    method TickComponent(dt: real) returns (ghost order: seq<string>)
      modifies base`currentCooldown, `values, `playerHealth, `mentalState, `resourcePools, `accumulatedDeltaTime
      modifies if base.owner == null then {} else {base.owner.node}`triggerEvents
      ensures old(base.Valid()) ==> base.Valid()
      ensures !base.capabilityActive ==>
        values == old(values) && playerHealth == old(playerHealth) && mentalState == old(mentalState) &&
        resourcePools == old(resourcePools) && accumulatedDeltaTime == old(accumulatedDeltaTime)
      ensures base.capabilityActive ==> (VisitOrder(order, Accruals(regenerationRates, dt).Keys) &&
        AllAccrue(order, Accruals(regenerationRates, dt)) &&
        TableNow() == RegenAlong(old(TableNow()), order, Accruals(regenerationRates, dt), minValues, maxValues))
      ensures base.capabilityActive && autoConsume && old(accumulatedDeltaTime) + dt >= resourceUpdateInterval ==>
        resourcePools == DrainAll(old(resourcePools), Draws(consumptionRates, old(accumulatedDeltaTime) + dt)) &&
        accumulatedDeltaTime == 0.0
      ensures !(base.capabilityActive && autoConsume && old(accumulatedDeltaTime) + dt >= resourceUpdateInterval) ==>
        resourcePools == old(resourcePools)
      ensures base.capabilityActive && autoConsume && old(accumulatedDeltaTime) + dt < resourceUpdateInterval ==>
        accumulatedDeltaTime == old(accumulatedDeltaTime) + dt
      ensures !(base.capabilityActive && autoConsume) ==> accumulatedDeltaTime == old(accumulatedDeltaTime)
      ensures old(ValuesInRange()) ==> ValuesInRange()
    {
      order := [];
      base.Tick(dt);
      if base.capabilityActive {
        order := TickActive(dt);
      }
    }

    /**
     * `OnResourceUpdateTimer`, which the repeating timer started by
     * `BeginPlay` calls when AutoConsume is on: one consumption pass over
     * the update interval.
     */
    method OnResourceUpdateTimer()
      modifies `resourcePools, if base.owner == null then {} else {base.owner.node}`triggerEvents
      ensures autoConsume ==> resourcePools == DrainAll(old(resourcePools), Draws(consumptionRates, resourceUpdateInterval))
      ensures autoConsume && base.owner != null ==> DepletionsRaised(old(base.owner.node.triggerEvents),
        base.owner.node.triggerEvents, old(resourcePools), Draws(consumptionRates, resourceUpdateInterval))
      ensures !autoConsume ==> resourcePools == old(resourcePools)
      ensures !autoConsume && base.owner != null ==> base.owner.node.triggerEvents == old(base.owner.node.triggerEvents)
    {
      if autoConsume {
        ProcessResourceConsumption(resourceUpdateInterval);
      }
    }

    // ---- configuration ----

    /** The scalar fields a configuration key can set. */
    function SettingsNow(): Settings
      reads `playerMaxHealth, `playerHealth, `maxMentalState, `mentalState
      reads `visionRadius, `hearingRadius, `dangerSenseRadius, `autoConsume
    {
      Settings(playerMaxHealth, playerHealth, maxMentalState, mentalState,
        visionRadius, hearingRadius, dangerSenseRadius, autoConsume)
    }

    /**
     * The scalar branches of `ApplyConfigValue` as written: a new maximum
     * health or mental state only caps the current value; the range
     * registered for the value is left as `Initialize` set it.
     */
    method ApplySettingAsWritten(k: ConfigKey, value: string)
      modifies `playerMaxHealth, `playerHealth, `maxMentalState, `mentalState
      modifies `visionRadius, `hearingRadius, `dangerSenseRadius, `autoConsume
      ensures SettingsNow() == Configured(old(SettingsNow()), k, value)
    {
      match k
      case MaxHealthKey =>
        playerMaxHealth := Atof(value);
        playerHealth := MinR(playerHealth, playerMaxHealth);
      case MaxMentalKey =>
        maxMentalState := Atof(value);
        mentalState := MinR(mentalState, maxMentalState);
      case VisionKey => visionRadius := Atof(value);
      case HearingKey => hearingRadius := Atof(value);
      case DangerKey => dangerSenseRadius := Atof(value);
      case AutoConsumeKey => autoConsume := ToBool(value);
      case _ =>
    }

    /**
     * The scalar branches of `ApplyConfigValue` with the range kept in
     * step: a new maximum health (mental state) also becomes the top of
     * the range [0, max] registered for "Health" ("MentalState"), so the
     * stored number is clamped to it and later changes can reach it.
     */
    method ApplySetting(k: ConfigKey, value: string)
      modifies `playerMaxHealth, `playerHealth, `maxMentalState, `mentalState
      modifies `visionRadius, `hearingRadius, `dangerSenseRadius, `autoConsume
      modifies `values, `minValues, `maxValues
      ensures SettingsNow() == Configured(old(SettingsNow()), k, value)
      ensures k == MaxHealthKey ==>
        minValues == old(minValues)["Health" := 0.0] && maxValues == old(maxValues)["Health" := playerMaxHealth] &&
        values == (if "Health" in old(values) then old(values)["Health" := ClampR(old(values)["Health"], 0.0, playerMaxHealth)] else old(values))
      ensures k == MaxMentalKey ==>
        minValues == old(minValues)["MentalState" := 0.0] && maxValues == old(maxValues)["MentalState" := maxMentalState] &&
        values == (if "MentalState" in old(values) then old(values)["MentalState" := ClampR(old(values)["MentalState"], 0.0, maxMentalState)] else old(values))
      ensures k != MaxHealthKey && k != MaxMentalKey ==>
        values == old(values) && minValues == old(minValues) && maxValues == old(maxValues)
      ensures k == MaxHealthKey && 0.0 <= playerMaxHealth ==> HealthRegistered()
      ensures old(ValuesInRange()) ==> ValuesInRange()
    {
      ApplySettingAsWritten(k, value);
      if k == MaxHealthKey {
        SetValueRange("Health", 0.0, playerMaxHealth);
      } else if k == MaxMentalKey {
        SetValueRange("MentalState", 0.0, maxMentalState);
      }
    }

    /** Whether progress `p` for `id`, after `last` was checked, fires its milestone. */
    predicate FiresAt(id: string, p: real, last: real)
      reads `progressMilestones
    {
      id in progressMilestones && Fires(p, progressMilestones[id], last)
    }

    /** The fields one configuration entry can change, apart from milestone bookkeeping. */
    function StoreNow(): Store
      reads `playerMaxHealth, `playerHealth, `maxMentalState, `mentalState
      reads `visionRadius, `hearingRadius, `dangerSenseRadius, `autoConsume
      reads `values, `minValues, `maxValues, `resourcePools, `progressTrackers
    {
      Store(SettingsNow(), values, minValues, maxValues, resourcePools, progressTrackers)
    }

    /** The value branch of `ApplyConfigValue`. */
    method ConfigureValue(id: string, value: string)
      modifies `values, `playerHealth, `mentalState
      ensures StoreNow() == ConfigApplied(old(StoreNow()), ValueKey(id), value)
    {
      ValueEntry(StoreNow(), id, value);
      SetValue(id, Atof(value));
    }

    /** The pool branch of `ApplyConfigValue`. */
    method ConfigurePool(id: string, value: string)
      modifies `resourcePools
      ensures StoreNow() == ConfigApplied(old(StoreNow()), ResourceKey(id), value)
    {
      ConfiguredKeepsOthers(SettingsNow(), ResourceKey(id), value);
      resourcePools := resourcePools[id := Atof(value)];
    }

    /** The progress branch of `ApplyConfigValue`. */
    method ConfigureProgress(id: string, value: string)
      modifies `progressTrackers, `lastMilestoneChecked
      modifies if base.owner == null then {} else {base.owner.node}`triggerEvents
      ensures StoreNow() == ConfigApplied(old(StoreNow()), ProgressKey(id), value)
    {
      ProgressEntry(StoreNow(), id, value);
      SetProgress(id, Atof(value));
    }

    /** The scalar branches of `ApplyConfigValue`. */
    method ConfigureSetting(k: ConfigKey, value: string)
      requires !k.ValueKey? && !k.ResourceKey? && !k.ProgressKey?
      modifies `playerMaxHealth, `playerHealth, `maxMentalState, `mentalState
      modifies `visionRadius, `hearingRadius, `dangerSenseRadius, `autoConsume
      modifies `values, `minValues, `maxValues
      ensures StoreNow() == ConfigApplied(old(StoreNow()), k, value)
    {
      ApplySetting(k, value);
    }

    /**
     * `ApplyConfigValue`: the key is routed as `ConfigKeyOf` reads it,
     * returned as `k`, and applied as `ConfigApplied` says; the raw pair
     * is always recorded.
     */
    method ApplyConfigValue(key: string, value: string) returns (ghost k: ConfigKey)
      modifies `playerMaxHealth, `playerHealth, `maxMentalState, `mentalState
      modifies `visionRadius, `hearingRadius, `dangerSenseRadius, `autoConsume
      modifies `values, `minValues, `maxValues, `resourcePools, `progressTrackers, `lastMilestoneChecked, `numericalConfig
      modifies if base.owner == null then {} else {base.owner.node}`triggerEvents
      ensures k == ConfigKeyOf(key)
      ensures numericalConfig == old(numericalConfig)[key := value]
      ensures StoreNow() == ConfigApplied(old(StoreNow()), k, value)
    {
      var routed := ConfigKeyOf(key);
      k := routed;
      if routed.ValueKey? {
        ConfigureValue(routed.valueId, value);
      } else if routed.ResourceKey? {
        ConfigurePool(routed.resource, value);
      } else if routed.ProgressKey? {
        ConfigureProgress(routed.progress, value);
      } else {
        ConfigureSetting(routed, value);
      }
      numericalConfig := numericalConfig[key := value];
    }
  }
}
