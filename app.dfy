/**
 * The `App` component's two state cells and the handlers that replace
 * them: the initial state, `handleDragEnd`, `addNewItem`, `clearAllItems`
 * and `handleSaveImage`. Each handler is proved to produce the state the
 * matching function of `TierList` describes and to keep the invariants.
 */
module TierListApp {
  import opened Wrappers
  import opened Splice
  import opened Placement
  import opened TierList

  class App {
    var items: Placement
    var itemsData: Registry

    function State(): TierState
      reads this
    {
      TierState(items, itemsData)
    }

    ghost predicate Valid()
      reads this
    {
      TierList.Valid(State())
    }

    /** The initial state: ten seed items, all in `pool`, none with an image. */
    constructor ()
      ensures State() == InitialState() && Valid()
    {
      var initialItems: Registry := map[];
      ghost var ids := SeedIds();
      for i := 1 to 11
        invariant initialItems == NoImages(ids[..i - 1])
      {
        assert ids[..i] == ids[..i - 1] + [SeedId(i)];
        RegistriesSnoc(map[], ids[..i - 1], SeedId(i));
        initialItems := initialItems[SeedId(i) := None];
      }
      assert ids[..10] == ids;
      itemsData := initialItems;
      items := PoolOnly(SeedIds());
      new;
      InitialStateFacts(State());
    }

    /**
     * The drop handler: ignores a drop outside every list or onto its own
     * spot, else moves one id. It runs from any state; a valid one stays valid.
     */
    method HandleDragEnd(result: DropResult)
      requires WellFormed(items) && SourceInRange(items, result)
      modifies this
      ensures State() == AfterDragEnd(old(State()), result) && WellFormed(items)
      ensures multiset(AllPlaced(items)) == old(multiset(AllPlaced(items)))
      ensures old(Valid()) ==> Valid()
    {
      if Valid() {
        DragEndPreservesValid(State(), result);
      }
      var source := result.source;
      if result.destination.None? {
        return;
      }
      var destination := result.destination.value;
      if source.droppableId == destination.droppableId && source.index == destination.index {
        return;
      }
      var sourceList := items[source.droppableId];
      var removed := sourceList[source.index];
      sourceList := RemoveAt(sourceList, source.index);
      if source.droppableId == destination.droppableId {
        sourceList := InsertAt(sourceList, destination.index, removed);
        items := items[source.droppableId := sourceList];
      } else {
        var destList := InsertAt(items[destination.droppableId], destination.index, removed);
        items := items[source.droppableId := sourceList][destination.droppableId := destList];
      }
    }

    /**
     * Registers `newItemId` without an image and appends it to `pool`. The
     * invariants survive exactly when the id is fresh (the component builds
     * it from the clock, so freshness is not checked).
     */
    method AddNewItem(newItemId: ItemId)
      requires WellFormed(items)
      modifies this
      ensures WellFormed(items)
      ensures items[Pool] == old(items[Pool]) + [newItemId]
      ensures forall c :: c != Pool ==> items[c] == old(items[c])
      ensures itemsData == old(itemsData)[newItemId := None]
      ensures State() == AfterAddItem(old(State()), newItemId)
      ensures old(Valid()) ==> (Valid() <==> newItemId !in old(itemsData))
    {
      if Valid() {
        if newItemId !in itemsData {
          AddItemPreservesValid(State(), newItemId);
        } else {
          AddExistingIdBreaksPartition(State(), newItemId);
        }
      }
      itemsData := itemsData[newItemId := None];
      items := items[Pool := items[Pool] + [newItemId]];
    }

    /**
     * The `forEach` of `clearAllItems`: a registry of exactly `ids`, each with
     * the image the current registry holds for it, or none when that is
     * missing or empty.
     */
    method KeepImagesOf(ids: seq<ItemId>) returns (resetItemsData: Registry)
      ensures resetItemsData == KeptImages(itemsData, ids)
      ensures resetItemsData.Keys == set id | id in ids
      ensures forall id :: id in ids ==>
        resetItemsData[id] == if id in itemsData && itemsData[id] != Some("") then itemsData[id] else None
    {
      resetItemsData := map[];
      for k := 0 to |ids|
        invariant resetItemsData == KeptImages(itemsData, ids[..k])
      {
        var id := ids[k];
        var imageUrl: Option<Url> := None;
        if id in itemsData && itemsData[id].Some? && itemsData[id].value != "" {
          imageUrl := itemsData[id];
        }
        assert ids[..k + 1] == ids[..k] + [id];
        RegistriesSnoc(itemsData, ids[..k], id);
        resetItemsData := resetItemsData[id := imageUrl];
      }
      assert ids[..|ids|] == ids;
      KeptImagesFacts(itemsData, ids);
    }

    /**
     * Puts the ten seeds back in `pool`, empties the tiers and forgets every
     * added item. It runs from any state and always restores the partition,
     * so it recovers from a duplicate or unplaced id.
     */
    method ClearAllItems()
      modifies this
      ensures State() == AfterClear(old(State())) && WellFormed(items)
      ensures items[Pool] == SeedIds() && forall c :: c != Pool ==> items[c] == []
      ensures Partitioned(State())
      ensures ImagesNormalised(old(itemsData)) ==> Valid()
    {
      ghost var before := State();
      var initialItemIds := SeedIds();
      var resetItemsData := KeepImagesOf(initialItemIds);
      itemsData := resetItemsData;
      items := PoolOnly(initialItemIds);
      ClearFacts(before);
    }

    /**
     * The image form's save: with a (non-empty) active id, stores the trimmed
     * URL for it, or no image when the URL is blank; otherwise does nothing.
     */
    method HandleSaveImage(activeItemId: Option<ItemId>, imageUrl: string)
      modifies this
      ensures State() == AfterSaveImage(old(State()), activeItemId, imageUrl)
      ensures items == old(items)
      ensures old(Valid()) ==>
        (Valid() <==> !IsTruthy(activeItemId) || activeItemId.value in old(itemsData))
    {
      ghost var before := State();
      if IsTruthy(activeItemId) {
        itemsData := itemsData[activeItemId.value := ImageFromInput(imageUrl)];
      }
      assert State() == AfterSaveImage(before, activeItemId, imageUrl);
      if TierList.Valid(before) {
        SaveImageValidIff(before, activeItemId, imageUrl);
      }
    }
  }
}
