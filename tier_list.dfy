/**
 * The tier list's whole state as a value: `items` (where each id is placed)
 * and `itemsData` (the item registry: id to optional image URL), the state
 * each handler of the component produces from the previous one, and the
 * invariants those handlers keep: every registered id is placed exactly
 * once, and every stored image URL is trimmed and non-empty.
 */
module TierList {
  import opened Wrappers
  import opened JsText
  import opened Splice
  import opened Placement

  type Url = string

  /** The `itemsData` state: item id to its image URL, `None` for `null`. */
  type Registry = map<ItemId, Option<Url>>

  datatype TierState = TierState(items: Placement, itemsData: Registry)

  /** Every registered id is placed exactly once and nothing else is placed. */
  predicate Partitioned(s: TierState) {
    WellFormed(s.items) && multiset(AllPlaced(s.items)) == multiset(s.itemsData.Keys)
  }

  /** A URL as the image form stores it: trimmed, and not empty. */
  predicate IsStoredImage(url: Url) {
    url != [] && Trim(url) == url
  }

  /** Every stored image URL is as the image form stores it. */
  predicate ImagesNormalised(data: Registry) {
    forall id :: id in data && data[id].Some? ==> IsStoredImage(data[id].value)
  }

  predicate Valid(s: TierState) {
    Partitioned(s) && ImagesNormalised(s.itemsData)
  }

  /** The registries built one id at a time, as the component's loops do. */
  lemma RegistriesSnoc(data: Registry, ids: seq<ItemId>, id: ItemId)
    ensures NoImages(ids + [id]) == NoImages(ids)[id := None]
    ensures KeptImages(data, ids + [id]) == KeptImages(data, ids)[id := KeptImage(data, id)]
  {
    assert forall x :: x in ids + [id] <==> x in ids || x == id;
  }

  /** In a partitioned state a registered id sits in exactly one container, once. */
  lemma PlacedOnce(s: TierState, id: ItemId) returns (c: Container)
    requires Partitioned(s) && id in s.itemsData
    ensures multiset(s.items[c])[id] == 1
    ensures forall d :: d != c ==> id !in s.items[d]
  {
    assert multiset(AllPlaced(s.items))[id] == 1;
    FlattenMember(s.items, Containers, id);
    c :| c in Containers && id in s.items[c];
    ContainerWithinAll(s.items, c);
    forall d | d != c ensures id !in s.items[d] {
      TwoContainersWithinAll(s.items, c, d);
    }
  }

  /** In a partitioned state an unregistered id is placed nowhere. */
  lemma UnregisteredUnplaced(s: TierState, id: ItemId, c: Container)
    requires Partitioned(s) && id !in s.itemsData
    ensures id !in s.items[c]
  {
    ContainerWithinAll(s.items, c);
    assert multiset(AllPlaced(s.items))[id] == 0;
  }

  /** The seed id `item-n`. */
  function SeedId(n: nat): ItemId {
    "item-" + NatToDecimal(n)
  }

  /** `item-1` .. `item-10`, in order. */
  function SeedIds(): seq<ItemId> {
    seq(10, i requires 0 <= i => SeedId(i + 1))
  }

  lemma SeedIdsDistinct()
    ensures |SeedIds()| == 10 && Distinct(SeedIds())
  {
    var ids := SeedIds();
    forall i, j | 0 <= i < j < |ids| ensures ids[i] != ids[j] {
      SeedIdInjective(i + 1, j + 1);
    }
  }

  /** Different numbers give different seed ids. */
  lemma SeedIdInjective(a: nat, b: nat)
    ensures SeedId(a) == SeedId(b) <==> a == b
  {
    assert SeedId(a)[5..] == NatToDecimal(a);
    assert SeedId(b)[5..] == NatToDecimal(b);
    DecimalRoundTrip(a);
    DecimalRoundTrip(b);
  }

  /** A sequence without repeats holds each of its elements exactly once. */
  lemma {:induction false} DistinctCounts(s: seq<ItemId>, x: ItemId)
    requires Distinct(s)
    ensures multiset(s)[x] == if x in s then 1 else 0
  {
    if s != [] {
      assert s == [s[0]] + s[1..];
      DistinctTail(s);
      DistinctCounts(s[1..], x);
    }
  }

  /** The placement with `pool` holding `pool` and every tier empty. */
  function PoolOnly(pool: seq<ItemId>): (items: Placement)
    ensures WellFormed(items) && AllPlaced(items) == pool
    ensures items[Pool] == pool && forall c :: c != Pool ==> items[c] == []
  {
    var items := map[Pool := pool, S := [], A := [], B := [], C := [], D := [], F := []];
    assert WellFormed(items) by {
      forall c: Container ensures c in items {
        ContainersListed(c);
      }
    }
    assert Containers == [Pool] + Containers[1..];
    FlattenEmpty(items, Containers[1..]);
    items
  }

  lemma {:induction false} FlattenEmpty(items: Placement, cs: seq<Container>)
    requires WellFormed(items) && Pool !in cs
    requires forall c :: c != Pool ==> items[c] == []
    ensures Flatten(items, cs) == []
  {
    if cs != [] {
      FlattenEmpty(items, cs[1..]);
    }
  }

  /** A registry of the ids `ids`, none of them with an image. */
  function NoImages(ids: seq<ItemId>): Registry {
    map id | id in ids :: None
  }

  /** The state the component starts in. */
  function InitialState(): TierState {
    TierState(PoolOnly(SeedIds()), NoImages(SeedIds()))
  }

  /**
   * The initial state: `pool` is `item-1` .. `item-10` in order, every tier
   * is empty, the registry holds exactly those ten ids without an image,
   * and the invariants hold.
   */
  lemma InitialStateFacts(s: TierState)
    requires s == InitialState()
    ensures |s.items[Pool]| == 10
      && (forall k :: 0 <= k < 10 ==> s.items[Pool][k] == SeedId(k + 1))
      && (forall c :: c != Pool ==> s.items[c] == [])
      && s.itemsData.Keys == (set k | 1 <= k <= 10 :: SeedId(k))
      && (forall id :: id in s.itemsData ==> s.itemsData[id] == None)
      && Valid(s)
  {
    InitialPlacement(s);
    InitialRegistry(s);
    InitialValid(s);
  }

  lemma InitialPlacement(s: TierState)
    requires s == InitialState()
    ensures |s.items[Pool]| == 10 && (forall k :: 0 <= k < 10 ==> s.items[Pool][k] == SeedId(k + 1))
    ensures forall c :: c != Pool ==> s.items[c] == []
  {
    assert s.items == PoolOnly(SeedIds());
  }

  lemma InitialRegistry(s: TierState)
    requires s == InitialState()
    ensures s.itemsData.Keys == (set k | 1 <= k <= 10 :: SeedId(k))
    ensures forall id :: id in s.itemsData ==> s.itemsData[id] == None
  {
    var ids := SeedIds();
    assert s.itemsData == NoImages(ids);
    NoImagesFacts(ids);
    SeedIdsAsSet();
  }

  lemma InitialValid(s: TierState)
    requires s == InitialState()
    ensures Valid(s)
  {
    var ids := SeedIds();
    assert s.items == PoolOnly(ids) && s.itemsData == NoImages(ids);
    NoImagesFacts(ids);
    SeedsPartitioned(s.items, s.itemsData);
  }

  /** A registry without images holds exactly its ids, and its images are trivially normalised. */
  lemma NoImagesFacts(ids: seq<ItemId>)
    ensures var data := NoImages(ids);
      && data.Keys == (set id | id in ids)
      && (forall id :: id in data ==> data[id] == None)
      && ImagesNormalised(data)
  {
  }

  /** The seed ids as a set: `item-1` .. `item-10`. */
  lemma SeedIdsAsSet()
    ensures (set id | id in SeedIds()) == (set k | 1 <= k <= 10 :: SeedId(k))
  {
    var ids := SeedIds();
    forall id | id in ids ensures id in (set k | 1 <= k <= 10 :: SeedId(k)) {
      var k :| 0 <= k < 10 && ids[k] == id;
      assert id == SeedId(k + 1);
    }
    forall k | 1 <= k <= 10 ensures SeedId(k) in ids {
      assert ids[k - 1] == SeedId(k);
    }
  }

  /** The ten seeds in `pool` and a registry holding exactly them form a partition. */
  lemma SeedsPartitioned(items: Placement, data: Registry)
    requires items == PoolOnly(SeedIds()) && data.Keys == set id | id in SeedIds()
    ensures Partitioned(TierState(items, data))
  {
    SeedIdsDistinct();
    DistinctPoolPartitioned(SeedIds(), data);
  }

  /** Ids without repeats, all in `pool`, and a registry of exactly them form a partition. */
  lemma DistinctPoolPartitioned(pool: seq<ItemId>, data: Registry)
    requires Distinct(pool) && data.Keys == set id | id in pool
    ensures Partitioned(TierState(PoolOnly(pool), data))
  {
    forall x ensures multiset(pool)[x] == multiset(data.Keys)[x] {
      DistinctCounts(pool, x);
    }
  }

  /** The state after `handleDragEnd`; the registry is not touched. */
  function AfterDragEnd(s: TierState, result: DropResult): TierState
    requires WellFormed(s.items) && SourceInRange(s.items, result)
  {
    TierState(DragEnd(s.items, result), s.itemsData)
  }

  /** A drag keeps both invariants and the registry. */
  lemma DragEndPreservesValid(s: TierState, result: DropResult)
    requires Valid(s) && SourceInRange(s.items, result)
    ensures Valid(AfterDragEnd(s, result))
    ensures AfterDragEnd(s, result).itemsData == s.itemsData
  {
  }

  /** The state after `addNewItem` with the id `newItemId`. */
  function AfterAddItem(s: TierState, newItemId: ItemId): TierState
    requires WellFormed(s.items)
  {
    TierState(s.items[Pool := s.items[Pool] + [newItemId]], s.itemsData[newItemId := None])
  }

  /**
   * Adding a fresh id: it is appended to `pool`, the tiers do not change,
   * the registry gains exactly that id with no image, and the invariants
   * still hold.
   */
  lemma AddItemPreservesValid(s: TierState, newItemId: ItemId)
    requires Valid(s) && newItemId !in s.itemsData
    ensures var t := AfterAddItem(s, newItemId);
      && t.items[Pool] == s.items[Pool] + [newItemId]
      && (forall c :: c != Pool ==> t.items[c] == s.items[c])
      && t.itemsData.Keys == s.itemsData.Keys + {newItemId}
      && t.itemsData[newItemId] == None
      && |AllPlaced(t.items)| == |AllPlaced(s.items)| + 1
      && Valid(t)
  {
    var t := AfterAddItem(s, newItemId);
    AppendToPool(s.items, newItemId);
    NormalisedUpdate(s.itemsData, newItemId, None);
    assert multiset(t.itemsData.Keys) == multiset(s.itemsData.Keys) + multiset{newItemId};
    assert |multiset(AllPlaced(t.items))| == |multiset(AllPlaced(s.items))| + 1;
  }

  /** Adding an id that is already registered places it twice: the partition breaks. */
  lemma AddExistingIdBreaksPartition(s: TierState, newItemId: ItemId)
    requires Partitioned(s) && newItemId in s.itemsData
    ensures !Partitioned(AfterAddItem(s, newItemId))
  {
    var t := AfterAddItem(s, newItemId);
    var c := PlacedOnce(s, newItemId);
    ContainerWithinAll(s.items, c);
    AppendToPool(s.items, newItemId);
    assert multiset(AllPlaced(t.items))[newItemId] == multiset(AllPlaced(s.items))[newItemId] + 1;
    assert multiset(AllPlaced(t.items))[newItemId] >= 2;
    assert multiset(t.itemsData.Keys)[newItemId] == 1;
  }

  /** Appending an id to `pool` adds exactly that id to the placed ids. */
  lemma AppendToPool(items: Placement, id: ItemId)
    requires WellFormed(items)
    ensures multiset(AllPlaced(items[Pool := items[Pool] + [id]])) == multiset(AllPlaced(items)) + multiset{id}
  {
    var pool := items[Pool] + [id];
    ReplaceContainer(items, Pool, pool);
    var before, after := multiset(AllPlaced(items)), multiset(AllPlaced(items[Pool := pool]));
    forall x ensures after[x] == (before + multiset{id})[x] {
      assert (after + multiset(items[Pool]))[x] == (before + multiset(pool))[x];
    }
  }

  /** The image a reset keeps for a seed: its current one, or none when it is missing or the empty string. */
  function KeptImage(data: Registry, id: ItemId): Option<Url> {
    if id in data && data[id].Some? && data[id].value != "" then data[id] else None
  }

  /** A registry of the ids `ids`, each with the image a reset keeps for it. */
  function KeptImages(data: Registry, ids: seq<ItemId>): Registry {
    map id | id in ids :: KeptImage(data, id)
  }

  /** The state after `clearAllItems`. */
  function AfterClear(s: TierState): TierState {
    TierState(PoolOnly(SeedIds()), KeptImages(s.itemsData, SeedIds()))
  }

  /**
   * A reset puts the ten seeds back in `pool` in order, empties every tier,
   * forgets every other id, keeps each seed's image (a missing or empty one
   * becomes none), and always yields a partition.
   */
  lemma ClearFacts(s: TierState)
    ensures var t := AfterClear(s);
      && t.items[Pool] == SeedIds()
      && (forall c :: c != Pool ==> t.items[c] == [])
      && t.itemsData.Keys == (set id | id in SeedIds())
      && (forall id :: id in t.itemsData ==>
            t.itemsData[id] == if id in s.itemsData && s.itemsData[id] != Some("") then s.itemsData[id] else None)
      && Partitioned(t)
      && (ImagesNormalised(s.itemsData) ==> Valid(t))
  {
    var ids := SeedIds();
    var t := AfterClear(s);
    KeptImagesFacts(s.itemsData, ids);
    SeedsPartitioned(t.items, t.itemsData);
  }

  /** The registry a reset builds: exactly `ids`, each with its kept image, and trimmed images stay so. */
  lemma KeptImagesFacts(data: Registry, ids: seq<ItemId>)
    ensures var kept := KeptImages(data, ids);
      && kept.Keys == (set id | id in ids)
      && (forall id :: id in kept ==> kept[id] == if id in data && data[id] != Some("") then data[id] else None)
      && (ImagesNormalised(data) ==> ImagesNormalised(kept))
  {
  }

  /** Resetting twice is resetting once. */
  lemma ClearIdempotent(s: TierState)
    ensures AfterClear(AfterClear(s)) == AfterClear(s)
  {
    var ids := SeedIds();
    var once := AfterClear(s);
    KeptImagesTwice(s.itemsData, ids);
    assert AfterClear(once) == TierState(PoolOnly(ids), KeptImages(once.itemsData, ids));
  }

  lemma KeptImagesTwice(data: Registry, ids: seq<ItemId>)
    ensures KeptImages(KeptImages(data, ids), ids) == KeptImages(data, ids)
  {
  }

  /** What the image form stores for the typed text: the text trimmed, or none when nothing is left. */
  function ImageFromInput(input: string): (r: Option<Url>)
    ensures r.None? <==> AllWhiteSpace(input)
    ensures r.Some? ==> r.value == Trim(input) && IsStoredImage(r.value)
  {
    var trimmed := Trim(input);
    TrimIdempotent(input);
    if trimmed != "" then Some(trimmed) else None
  }

  /** JavaScript truthiness of the active id: present and not the empty string. */
  predicate IsTruthy(activeItemId: Option<ItemId>) {
    activeItemId.Some? && activeItemId.value != ""
  }

  /** The state after `handleSaveImage` with the modal's active id and typed URL. */
  function AfterSaveImage(s: TierState, activeItemId: Option<ItemId>, imageUrl: string): TierState {
    if IsTruthy(activeItemId) then
      TierState(s.items, s.itemsData[activeItemId.value := ImageFromInput(imageUrl)])
    else s
  }

  /**
   * Saving an image: with no active id nothing changes; otherwise only the
   * active entry changes, to the trimmed input or none when that is blank,
   * and placements are untouched.
   */
  lemma SaveImageFacts(s: TierState, activeItemId: Option<ItemId>, imageUrl: string)
    ensures var t := AfterSaveImage(s, activeItemId, imageUrl);
      && (!IsTruthy(activeItemId) ==> t == s)
      && t.items == s.items
      && (IsTruthy(activeItemId) ==>
            && t.itemsData[activeItemId.value] == (if AllWhiteSpace(imageUrl) then None else Some(Trim(imageUrl)))
            && t.itemsData.Keys == s.itemsData.Keys + {activeItemId.value}
            && forall id :: id in s.itemsData && id != activeItemId.value ==> t.itemsData[id] == s.itemsData[id])
  {
  }

  /** Saving an image for a registered id (or for none) keeps both invariants. */
  lemma SaveImagePreservesValid(s: TierState, activeItemId: Option<ItemId>, imageUrl: string)
    requires Valid(s) && (IsTruthy(activeItemId) ==> activeItemId.value in s.itemsData)
    ensures Valid(AfterSaveImage(s, activeItemId, imageUrl))
  {
    var t := AfterSaveImage(s, activeItemId, imageUrl);
    if IsTruthy(activeItemId) {
      var id, r := activeItemId.value, ImageFromInput(imageUrl);
      assert t == TierState(s.items, s.itemsData[id := r]);
      SavedValid(s, id, r);
    }
  }

  /** From a valid state, a save keeps the invariants exactly when the active id is falsy or registered. */
  lemma SaveImageValidIff(s: TierState, activeItemId: Option<ItemId>, imageUrl: string)
    requires Valid(s)
    ensures Valid(AfterSaveImage(s, activeItemId, imageUrl))
      <==> !IsTruthy(activeItemId) || activeItemId.value in s.itemsData
  {
    if !IsTruthy(activeItemId) || activeItemId.value in s.itemsData {
      SaveImagePreservesValid(s, activeItemId, imageUrl);
    } else {
      SaveUnknownIdBreaksPartition(s, activeItemId, imageUrl);
    }
  }

  /** Replacing a registered id's image by a normalised one (or none) keeps both invariants. */
  lemma SavedValid(s: TierState, id: ItemId, r: Option<Url>)
    requires Valid(s) && id in s.itemsData && (r.Some? ==> IsStoredImage(r.value))
    ensures Valid(TierState(s.items, s.itemsData[id := r]))
  {
    SameKeysPartitioned(s.items, s.itemsData, s.itemsData[id := r]);
    NormalisedUpdate(s.itemsData, id, r);
  }

  /** Saving an image for an id the registry does not hold registers an id placed nowhere: the partition breaks. */
  lemma SaveUnknownIdBreaksPartition(s: TierState, activeItemId: Option<ItemId>, imageUrl: string)
    requires Partitioned(s) && IsTruthy(activeItemId) && activeItemId.value !in s.itemsData
    ensures !Partitioned(AfterSaveImage(s, activeItemId, imageUrl))
  {
    var id := activeItemId.value;
    var t := AfterSaveImage(s, activeItemId, imageUrl);
    assert t.items == s.items && id in t.itemsData;
    assert multiset(AllPlaced(s.items))[id] == 0;
    assert multiset(t.itemsData.Keys)[id] == 1;
  }

  /** Whether the registry partitions the placement depends on its ids only. */
  lemma SameKeysPartitioned(items: Placement, data: Registry, data': Registry)
    requires Partitioned(TierState(items, data)) && data'.Keys == data.Keys
    ensures Partitioned(TierState(items, data'))
  {
  }

  /** Storing a normalised image (or none) keeps every image normalised. */
  lemma NormalisedUpdate(data: Registry, id: ItemId, r: Option<Url>)
    requires ImagesNormalised(data) && (r.Some? ==> IsStoredImage(r.value))
    ensures ImagesNormalised(data[id := r])
  {
  }

  /**
   * Dragging the first seed from the start of `pool` to the start of tier S:
   * S holds just `item-1` and `pool` keeps `item-2` .. `item-10` in order.
   */
  lemma FirstSeedToTierS(s: TierState)
    requires s == InitialState()
    ensures var t := AfterDragEnd(s, DropResult(Location(Pool, 0), Some(Location(S, 0))));
      && t.items[S] == [SeedId(1)]
      && t.items[Pool] == SeedIds()[1..]
      && t.itemsData == s.itemsData
  {
    var ids := SeedIds();
    assert s.items[Pool] == ids && |ids| == 10 && ids[0] == SeedId(1);
    FrontOfPoolToEmptyTier(s.items, S);
  }

  /** Dragging the front of `pool` onto an empty tier. */
  lemma FrontOfPoolToEmptyTier(items: Placement, tier: Container)
    requires WellFormed(items) && items[Pool] != [] && tier != Pool && items[tier] == []
    ensures var r := DragEnd(items, DropResult(Location(Pool, 0), Some(Location(tier, 0))));
      r[tier] == [items[Pool][0]] && r[Pool] == items[Pool][1..]
  {
    var r := Move(items, Location(Pool, 0), Location(tier, 0));
    assert r[Pool] == RemoveAt(items[Pool], 0) == items[Pool][1..];
    assert r[tier] == InsertAt([], 0, items[Pool][0]) == [items[Pool][0]];
  }
}
