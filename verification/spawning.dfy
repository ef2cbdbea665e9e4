/**
 * The capability part of node creation: each capability entry of a
 * generator spec adds (or finds) the capability of its kind on the new
 * item, optionally renames it and optionally switches it on.
 */
module Spawning {
  import opened Util
  import opened NodeTypes
  import opened Items

  /**
   * Every listed capability is the cache entry of its own kind, so an item
   * holds at most one capability per kind and finds each one in its cache.
   */
  ghost predicate KindsCached(item: ItemNode)
    reads item
  {
    forall i :: 0 <= i < |item.capabilities| ==>
      item.capabilities[i].kind in item.capabilityMap && item.capabilityMap[item.capabilities[i].kind] == item.capabilities[i]
  }

  /** Some entry of `caps` asks for a capability of kind `k`, which names a class. */
  predicate Requests(caps: seq<CapabilityData>, k: CapabilityType)
  {
    k != NoCapability && exists i :: 0 <= i < |caps| && caps[i].capabilityType == k
  }

  /** Some entry of `caps` for kind `k` asks for its capability to be switched on. */
  predicate AutoActivates(caps: seq<CapabilityData>, k: CapabilityType)
  {
    exists i :: 0 <= i < |caps| && caps[i].capabilityType == k && caps[i].autoActivate
  }

  /**
   * The id a capability of kind `k`, whose id was `id`, ends up with once
   * the entries of `caps` are applied in order: the last non-empty id an
   * entry for `k` gives, or `id` when none gives one.
   */
  function ConfiguredId(caps: seq<CapabilityData>, k: CapabilityType, id: string): string
  {
    if caps == [] then id
    else
      var last := caps[|caps| - 1];
      if last.capabilityType == k && last.capabilityId != "" then last.capabilityId
      else ConfiguredId(caps[..|caps| - 1], k, id)
  }

  /** Without a non-empty id for `k`, the id stays as it was. */
  lemma {:induction false} ConfiguredIdKept(caps: seq<CapabilityData>, k: CapabilityType, id: string)
    requires forall i :: 0 <= i < |caps| && caps[i].capabilityType == k ==> caps[i].capabilityId == ""
    ensures ConfiguredId(caps, k, id) == id
  {
    if caps != [] {
      ConfiguredIdKept(caps[..|caps| - 1], k, id);
    }
  }

  /** With some non-empty id for `k`, the id becomes the last one given. */
  lemma {:induction false} ConfiguredIdLast(caps: seq<CapabilityData>, k: CapabilityType, id: string)
    requires exists i :: 0 <= i < |caps| && caps[i].capabilityType == k && caps[i].capabilityId != ""
    ensures ConfiguredId(caps, k, id) != ""
    ensures exists i :: 0 <= i < |caps| && caps[i].capabilityType == k && caps[i].capabilityId == ConfiguredId(caps, k, id) &&
                        forall j :: i < j < |caps| && caps[j].capabilityType == k ==> caps[j].capabilityId == ""
  {
    var n := |caps| - 1;
    var init := caps[..n];
    if !(caps[n].capabilityType == k && caps[n].capabilityId != "") {
      var w :| 0 <= w < |caps| && caps[w].capabilityType == k && caps[w].capabilityId != "";
      assert init[w] == caps[w];
      ConfiguredIdLast(init, k, id);
      var i :| 0 <= i < |init| && init[i].capabilityType == k && init[i].capabilityId == ConfiguredId(init, k, id) &&
               forall j :: i < j < |init| && init[j].capabilityType == k ==> init[j].capabilityId == "";
      assert caps[i] == init[i];
      forall j | i < j < |caps| && caps[j].capabilityType == k
        ensures caps[j].capabilityId == ""
      {
        if j < n {
          assert caps[j] == init[j];
        }
      }
    }
  }

  /** One more entry: the id, the request and the activation for kind `k`, from those of the shorter prefix. */
  lemma ConfigureStepAt(caps: seq<CapabilityData>, i: nat, j: nat, k: CapabilityType, id: string)
    requires i < |caps| && j == i + 1
    ensures ConfiguredId(caps[..j], k, id) ==
      if caps[i].capabilityType == k && caps[i].capabilityId != "" then caps[i].capabilityId
      else ConfiguredId(caps[..i], k, id)
    ensures Requests(caps[..j], k) <==> Requests(caps[..i], k) || (k != NoCapability && caps[i].capabilityType == k)
    ensures AutoActivates(caps[..j], k) <==> AutoActivates(caps[..i], k) || (caps[i].capabilityType == k && caps[i].autoActivate)
  {
    assert caps[..j][..i] == caps[..i];
    RequestsStep(caps, i, j, k);
    AutoActivatesStep(caps, i, j, k);
  }

  lemma RequestsStep(caps: seq<CapabilityData>, i: nat, j: nat, k: CapabilityType)
    requires i < |caps| && j == i + 1
    ensures Requests(caps[..j], k) <==> Requests(caps[..i], k) || (k != NoCapability && caps[i].capabilityType == k)
  {
    var longer := caps[..j];
    assert longer[i] == caps[i];
    if k != NoCapability && Requests(caps[..i], k) {
      var m :| 0 <= m < i && caps[..i][m].capabilityType == k;
      assert longer[m] == caps[..i][m];
    }
    if Requests(longer, k) {
      var m :| 0 <= m < j && longer[m].capabilityType == k;
      if m < i {
        assert caps[..i][m] == longer[m];
      }
    }
  }

  lemma AutoActivatesStep(caps: seq<CapabilityData>, i: nat, j: nat, k: CapabilityType)
    requires i < |caps| && j == i + 1
    ensures AutoActivates(caps[..j], k) <==> AutoActivates(caps[..i], k) || (caps[i].capabilityType == k && caps[i].autoActivate)
  {
    var longer := caps[..j];
    assert longer[i] == caps[i];
    if AutoActivates(caps[..i], k) {
      var m :| 0 <= m < i && caps[..i][m].capabilityType == k && caps[..i][m].autoActivate;
      assert longer[m] == caps[..i][m];
    }
    if AutoActivates(longer, k) {
      var m :| 0 <= m < j && longer[m].capabilityType == k && longer[m].autoActivate;
      if m < i {
        assert caps[..i][m] == longer[m];
      }
    }
  }

  /** What the capability loop looks at and sets: per held kind, its capability's id and engine switch. */
  ghost function Profile(item: ItemNode): (r: map<CapabilityType, (string, bool)>)
    requires item.CacheConsistent() && KindsCached(item)
    reads item, item.capabilities
    ensures Shows(item, r)
  {
    map k | k in item.capabilityMap :: (item.capabilityMap[k].capabilityId, item.capabilityMap[k].engineActive)
  }

  /** The item holds capabilities of exactly the kinds of `m`, each with the id and engine switch `m` gives it. */
  ghost predicate Shows(item: ItemNode, m: map<CapabilityType, (string, bool)>)
    reads item, item.capabilities
  {
    (forall k :: k in m <==> k in item.capabilityMap) &&
    forall i :: 0 <= i < |item.capabilities| ==>
      var c := item.capabilities[i];
      c.kind in m && c.capabilityId == m[c.kind].0 && c.engineActive == m[c.kind].1
  }

  /**
   * The id and switch the capability of kind `k` has in profile `m`, or
   * would have if made now on an item that auto-activates new
   * capabilities when `auto` holds: named after its class, switched on iff
   * `auto`.
   */
  function Seed(m: map<CapabilityType, (string, bool)>, k: CapabilityType, auto: bool): (string, bool)
  {
    if k in m then m[k] else (CapabilityClassName(k), auto)
  }

  /**
   * One capability entry applied to a profile: the kind `NoCapability`
   * changes nothing; otherwise the kind's capability, found or new, takes
   * the entry's non-empty id and is switched on when the entry asks.
   */
  function ApplyEntry(m: map<CapabilityType, (string, bool)>, d: CapabilityData, auto: bool): (r: map<CapabilityType, (string, bool)>)
  {
    var k := d.capabilityType;
    if k == NoCapability then m
    else
      var seed := Seed(m, k, auto);
      m[k := (if d.capabilityId != "" then d.capabilityId else seed.0, d.autoActivate || seed.1)]
  }

  /** The entries of `caps` applied in order. */
  function Configured(caps: seq<CapabilityData>, m: map<CapabilityType, (string, bool)>, auto: bool): (r: map<CapabilityType, (string, bool)>)
  {
    if caps == [] then m else ApplyEntry(Configured(caps[..|caps| - 1], m, auto), caps[|caps| - 1], auto)
  }

  lemma ConfiguredSnoc(caps: seq<CapabilityData>, i: nat, j: nat, m: map<CapabilityType, (string, bool)>, auto: bool)
    requires i < |caps| && j == i + 1
    ensures Configured(caps[..j], m, auto) == ApplyEntry(Configured(caps[..i], m, auto), caps[i], auto)
  {
    assert caps[..j][..i] == caps[..i];
  }

  /** The kinds held after the entries are applied: the earlier ones plus the requested ones. */
  lemma {:induction false} ConfiguredKeys(caps: seq<CapabilityData>, m: map<CapabilityType, (string, bool)>, auto: bool, k: CapabilityType)
    ensures k in Configured(caps, m, auto) <==> k in m || Requests(caps, k)
    ensures k == NoCapability && k in m ==> Configured(caps, m, auto)[k] == m[k]
  {
    if caps != [] {
      var n := |caps| - 1;
      ConfiguredKeys(caps[..n], m, auto, k);
      ConfigureStepAt(caps, n, n + 1, k, "");
      assert caps[..n + 1] == caps;
    }
  }

  /**
   * For a kind naming a class, the entries leave its capability with the
   * last non-empty id given for it (else its earlier id, or its class name
   * when new), switched on iff some entry for it asks or it was on before
   * (or, new, the item auto-activates).
   */
  lemma {:induction false} ConfiguredSeed(caps: seq<CapabilityData>, m: map<CapabilityType, (string, bool)>, auto: bool, k: CapabilityType)
    requires k != NoCapability
    ensures Seed(Configured(caps, m, auto), k, auto) ==
      (ConfiguredId(caps, k, Seed(m, k, auto).0), AutoActivates(caps, k) || Seed(m, k, auto).1)
  {
    if caps != [] {
      var n := |caps| - 1;
      ConfiguredSeed(caps[..n], m, auto, k);
      ConfigureStepAt(caps, n, n + 1, k, Seed(m, k, auto).0);
      assert caps[..n + 1] == caps;
    }
  }

  /**
   * The outcome of the capability loop, kind by kind: the kinds held are
   * the earlier ones plus the requested ones; each kind naming a class
   * carries the last non-empty id given for it (else its earlier id, or
   * its class name when new) and is switched on iff some entry for it
   * asks, or it was on before, or it is new on an auto-activating item.
   */
  lemma ConfiguredKinds(caps: seq<CapabilityData>, m: map<CapabilityType, (string, bool)>, auto: bool)
    ensures forall k :: k in Configured(caps, m, auto) <==> k in m || Requests(caps, k)
    ensures forall k :: k in Configured(caps, m, auto) && k != NoCapability ==>
      Configured(caps, m, auto)[k].0 == ConfiguredId(caps, k, if k in m then m[k].0 else CapabilityClassName(k)) &&
      (Configured(caps, m, auto)[k].1 <==> AutoActivates(caps, k) || (if k in m then m[k].1 else auto))
    ensures NoCapability in m ==> Configured(caps, m, auto)[NoCapability] == m[NoCapability]
  {
    forall k
      ensures k in Configured(caps, m, auto) <==> k in m || Requests(caps, k)
      ensures k in Configured(caps, m, auto) && k != NoCapability ==>
        Configured(caps, m, auto)[k].0 == ConfiguredId(caps, k, if k in m then m[k].0 else CapabilityClassName(k)) &&
        (Configured(caps, m, auto)[k].1 <==> AutoActivates(caps, k) || (if k in m then m[k].1 else auto))
    {
      ConfiguredKeys(caps, m, auto, k);
      if k != NoCapability {
        ConfiguredSeed(caps, m, auto, k);
      }
    }
    ConfiguredKeys(caps, m, auto, NoCapability);
  }

  /**
   * One capability entry of `CreateNode`: nothing happens for the kind
   * `NoCapability`. Otherwise the item's capability of that kind is found,
   * or created (inactive, named after its class, switched on when the item
   * auto-activates); it takes the entry's id when that is non-empty and is
   * switched on when the entry asks for it.
   */
  method ConfigureOne(item: ItemNode, d: CapabilityData, ghost m: map<CapabilityType, (string, bool)>)
    requires item.Valid() && KindsCached(item) && Shows(item, m)
    modifies item, set c | c in item.capabilities && c.kind == d.capabilityType && d.capabilityType != NoCapability
    ensures item.Valid() && KindsCached(item)
    ensures item.autoActivateCapabilities == old(item.autoActivateCapabilities)
    ensures forall c :: c in item.capabilities ==> c in old(item.capabilities) || fresh(c)
    ensures Shows(item, ApplyEntry(m, d, item.autoActivateCapabilities))
  {
    var k := d.capabilityType;
    if k == NoCapability {
      return;
    }
    ghost var seed := Seed(m, k, item.autoActivateCapabilities);
    var c := FindOrAdd(item, k, m);
    ghost var found := m[k := seed];
    Apply(item, c, d, found);
    ApplyEntryTwice(m, d, item.autoActivateCapabilities);
  }

  /**
   * On a new item (no capabilities, auto-activating) the entries leave one
   * capability per requested kind, every one switched on and named by the
   * last non-empty id given for its kind, else by its class name.
   */
  lemma NewItemCapabilities(caps: seq<CapabilityData>)
    ensures forall k :: k in Configured(caps, map[], true) <==> Requests(caps, k)
    ensures forall k :: k in Configured(caps, map[], true) ==>
      Configured(caps, map[], true)[k] == (ConfiguredId(caps, k, CapabilityClassName(k)), true)
  {
    ConfiguredKinds(caps, map[], true);
  }

  lemma SeedHeld(m: map<CapabilityType, (string, bool)>, k: CapabilityType, auto: bool)
    requires k in m
    ensures m[k := Seed(m, k, auto)] == m
  {
  }

  /** `ApplyEntry` as the two updates the entry's capability goes through: found or made, then configured. */
  lemma ApplyEntryTwice(m: map<CapabilityType, (string, bool)>, d: CapabilityData, auto: bool)
    requires d.capabilityType != NoCapability
    ensures var k := d.capabilityType;
      var found := m[k := Seed(m, k, auto)];
      ApplyEntry(m, d, auto) ==
        found[k := (if d.capabilityId != "" then d.capabilityId else found[k].0, d.autoActivate || found[k].1)]
  {
  }

  /**
   * `AddCapability` on an item that caches each listed capability under
   * its kind: the capability of kind `k` is the one held, or a new one
   * named after its class and switched on iff the item auto-activates.
   */
  method FindOrAdd(item: ItemNode, k: CapabilityType, ghost m: map<CapabilityType, (string, bool)>) returns (c: ItemCapability)
    requires item.Valid() && KindsCached(item) && k != NoCapability && Shows(item, m)
    modifies item
    ensures item.Valid() && KindsCached(item)
    ensures item.autoActivateCapabilities == old(item.autoActivateCapabilities)
    ensures k in item.capabilityMap && item.capabilityMap[k] == c && c.kind == k
    ensures forall x :: x in item.capabilities ==> x in old(item.capabilities) || fresh(x)
    ensures c in old(item.capabilities) || fresh(c)
    ensures Shows(item, m[k := Seed(m, k, item.autoActivateCapabilities)])
  {
    if k in item.capabilityMap {
      c := item.AddCapability(Some(k));
      SeedHeld(m, k, item.autoActivateCapabilities);
    } else {
      c := AddNew(item, k, m);
    }
  }

  /** `AddCapability` for a kind the item holds no capability of. */
  method AddNew(item: ItemNode, k: CapabilityType, ghost m: map<CapabilityType, (string, bool)>) returns (c: ItemCapability)
    requires item.Valid() && KindsCached(item) && k != NoCapability && k !in item.capabilityMap && Shows(item, m)
    modifies item
    ensures item.Valid() && KindsCached(item)
    ensures item.autoActivateCapabilities == old(item.autoActivateCapabilities)
    ensures k in item.capabilityMap && item.capabilityMap[k] == c && c.kind == k && fresh(c)
    ensures item.capabilities == old(item.capabilities) + [c]
    ensures Shows(item, m[k := (CapabilityClassName(k), item.autoActivateCapabilities)])
  {
    ghost var before := item.capabilities;
    ghost var cache := item.capabilityMap;
    assert forall i :: 0 <= i < |item.capabilities| ==> !IsA(item.capabilities[i].kind, k);
    var found := item.AddCapability(Some(k));
    c := found;
    CachedAppend(before, cache, c);
    ShowsAdded(item, before, c, m, (CapabilityClassName(k), item.autoActivateCapabilities));
  }

  /** Appending a capability of a kind not cached yet, and caching it under its kind, keeps every capability cached under its kind. */
  lemma CachedAppend(before: seq<ItemCapability>, cache: map<CapabilityType, ItemCapability>, c: ItemCapability)
    requires c.kind !in cache
    requires forall i :: 0 <= i < |before| ==> before[i].kind in cache && cache[before[i].kind] == before[i]
    ensures forall i :: 0 <= i < |before + [c]| ==>
      (before + [c])[i].kind in cache[c.kind := c] && cache[c.kind := c][(before + [c])[i].kind] == (before + [c])[i]
  {
  }

  /** Appending a capability of a new kind with the given id and switch extends what the item shows. */
  lemma ShowsAdded(item: ItemNode, before: seq<ItemCapability>, c: ItemCapability, m: map<CapabilityType, (string, bool)>, v: (string, bool))
    requires item.capabilities == before + [c] && c.kind !in m
    requires forall k :: k in m[c.kind := v] <==> k in item.capabilityMap
    requires forall i :: 0 <= i < |before| ==>
      before[i].kind in m && before[i].capabilityId == m[before[i].kind].0 && before[i].engineActive == m[before[i].kind].1
    requires c.capabilityId == v.0 && c.engineActive == v.1
    ensures Shows(item, m[c.kind := v])
  {
    forall i | 0 <= i < |item.capabilities|
      ensures item.capabilities[i].kind in m[c.kind := v]
      ensures item.capabilities[i].capabilityId == m[c.kind := v][item.capabilities[i].kind].0
      ensures item.capabilities[i].engineActive == m[c.kind := v][item.capabilities[i].kind].1
    {
      if i < |before| {
        assert item.capabilities[i] == before[i];
      }
    }
  }

  /**
   * The entry's non-empty id and its activation request, applied to `c`,
   * the capability the item caches under the entry's kind.
   */
  method Apply(item: ItemNode, c: ItemCapability, d: CapabilityData, ghost m: map<CapabilityType, (string, bool)>)
    requires KindsCached(item) && d.capabilityType in item.capabilityMap && item.capabilityMap[d.capabilityType] == c
    requires c.kind == d.capabilityType && Shows(item, m)
    modifies c`capabilityId, c`engineActive
    ensures Shows(item, m[d.capabilityType := (if d.capabilityId != "" then d.capabilityId else m[d.capabilityType].0,
                                               d.autoActivate || m[d.capabilityType].1)])
  {
    if d.capabilityId != "" {
      c.capabilityId := d.capabilityId;
    }
    if d.autoActivate {
      c.engineActive := true;
    }
    forall i | 0 <= i < |item.capabilities|
      ensures item.capabilities[i] == c <==> item.capabilities[i].kind == d.capabilityType
    {
    }
  }

  /**
   * The capability loop of `CreateNode`: the entries are applied in order,
   * so the item ends up holding exactly its earlier capabilities plus one
   * of each requested kind, each named by the last non-empty id given for
   * its kind and switched on when it was already, when a new one is made
   * by an auto-activating item, or when some entry for its kind asks.
   */
  method ConfigureCapabilities(item: ItemNode, caps: seq<CapabilityData>)
    requires item.Valid() && KindsCached(item)
    modifies item, set c | c in item.capabilities
    ensures item.Valid() && KindsCached(item)
    ensures item.autoActivateCapabilities == old(item.autoActivateCapabilities)
    ensures Shows(item, Configured(caps, old(Profile(item)), item.autoActivateCapabilities))
  {
    ghost var start := Profile(item);
    var i := 0;
    while i < |caps|
      invariant 0 <= i <= |caps|
      invariant item.Valid() && KindsCached(item)
      invariant item.autoActivateCapabilities == old(item.autoActivateCapabilities)
      invariant forall c :: c in item.capabilities ==> c in old(item.capabilities) || fresh(c)
      invariant Shows(item, Configured(caps[..i], start, item.autoActivateCapabilities))
    {
      var next := i + 1;
      ConfiguredSnoc(caps, i, next, start, item.autoActivateCapabilities);
      ConfigureOne(item, caps[i], Configured(caps[..i], start, item.autoActivateCapabilities));
      i := next;
    }
    assert caps[..|caps|] == caps;
  }
}
