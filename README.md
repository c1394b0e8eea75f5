# TiLiGen tier list: the state of the `App` component

TiLiGen is a tier-list maker. Items (each an id and an optional image URL)
start out in an unranked `pool`. They are dragged into the tiers S, A, B,
C, D and F, or reordered within a list. This project models the two state
cells of the `App` component and the handlers that replace them:

- `items` maps each container (`pool` and the six tiers) to the ids it shows, in order.
- `itemsData` is the item registry: it maps each id to its image URL, or to none.

The model is in six files:

- `wrappers.dfy` holds `Option`.
- `js_text.dfy` models the two pieces of JavaScript string behaviour the handlers use:
  - `String.prototype.trim`, with the ECMAScript WhiteSpace and LineTerminator characters;
  - the decimal rendering of a number inside a template literal, which builds the seed ids `item-1` .. `item-10`.
- `splice.dfy` models the two `Array.prototype.splice` calls of the drag handler:
  - removal at an index;
  - insertion, where a start beyond the end is clamped to the length.
- `placement.dfy` holds the containers, the placement map, the drop result and the reorder step. The drop result's `destination` is an `Option`.
- `tier_list.dfy` holds the whole state as a value, the state each handler produces, the invariants and the lemmas about them.
- `app.dfy` holds the class `App`. Its two fields are the two state cells, and it has one method per handler:
  - the constructor builds the initial registry with the component's counting loop;
  - `KeepImagesOf` is the `forEach` of the reset;
  - each method is proved to produce the state the matching `TierList` function describes.

The invariant the handlers keep (`TierList.Valid`) has two parts:

- The registry and the placement form a partition: every registered id is placed exactly once, and nothing else is placed.
- Every stored image URL is trimmed and non-empty.

Every handler runs from any state, as in the component; the invariant is stated about what each one does to a valid state. A drag and a save for a registered (or absent) id keep the invariant. Adding an id keeps it exactly when the id is fresh. A save for an id the registry does not hold breaks it. Both directions are proved. The reset restores the partition from any state, so it recovers from the states that break it.

## Model

| member | source | states |
|---|---|---|
| JsText.Trim | src/App.tsx:355 | the result is no longer than the input, starts and ends with a non-white-space character, and is empty exactly when the input is all white space |
| JsText.TrimOfPadded | src/App.tsx:355 | independent characterisation: any text without white space at its ends comes back unchanged from any white-space padding |
| JsText.TrimIdempotent | src/App.tsx:355 | trimming a trimmed URL changes nothing |
| JsText.NatToDecimal | src/App.tsx:278 | the decimal text of the counter is non-empty, all digits, has no leading zero, and has at least two digits from 10 on |
| JsText.DecimalRoundTrip | src/App.tsx:278 | reading the decimal text back gives the number |
| JsText.DecimalInjective | src/App.tsx:278 | different counters give different decimal texts |
| Splice.RemoveAt | src/App.tsx:439 | removing at an index shortens the list by one, keeps the elements before it, shifts the ones after it, and takes exactly that element out of the multiset |
| Splice.InsertAt | src/App.tsx:443 | inserting puts the element at the clamped position, keeps the elements before it, shifts the ones after it, and adds exactly that element to the multiset |
| Splice.RemoveInsertRoundTrip | src/App.tsx:450 | removing the element just inserted, at its clamped position, gives the list back |
| Splice.InsertRemoveRoundTrip | src/App.tsx:439-443 | putting a removed element back at its own index gives the list back |
| Placement.Move | src/App.tsx:433-456 | a move keeps all seven containers and changes no container other than the source and the destination |
| Placement.MoveConservesIds | src/App.tsx:433-456 | a move neither loses nor duplicates an id: the multiset of placed ids is the same |
| Placement.DragEnd | src/App.tsx:418-457 | a drop without a destination and a drop onto its own position leave the placement unchanged; any drop keeps the placed ids and their total count |
| Placement.SameContainerMove | src/App.tsx:442-448 | within one list: same length and ids, the moved id at the requested index clamped to the last position, the other ids in their old order, other containers unchanged |
| Placement.CrossContainerMove | src/App.tsx:449-456 | between two lists: the source loses exactly the id at its index, the destination gains it at the clamped index with its own ids in order around it, the other five containers unchanged |
| Placement.SamePositionMoveIsIdentity | src/App.tsx:427-430 | a move onto its own position would itself change nothing, so the guard only skips work |
| Placement.ContainerWithinAll | src/App.tsx:285-288 | each container's ids are part of the ids placed overall |
| TierList.PlacedOnce | src/App.tsx:274-288 | in a partition, a registered id sits in exactly one container, exactly once |
| TierList.UnregisteredUnplaced | src/App.tsx:274-288 | in a partition, an unregistered id is placed nowhere |
| TierList.SeedIdInjective | src/App.tsx:278 | two seed ids are equal exactly when their counters are |
| TierList.SeedIdsDistinct | src/App.tsx:312 | the reset's ten seed ids have no repeats |
| TierList.PoolOnly | src/App.tsx:285-288 | the placement with every tier empty places exactly the given pool, in order |
| TierList.InitialStateFacts | src/App.tsx:274-288 | initially `pool` is `item-1` .. `item-10` in order, every tier is empty, the registry holds exactly those ten ids with no image, and the invariant holds |
| TierList.DragEndPreservesValid | src/App.tsx:418-457 | a drag keeps the invariant and does not touch the registry |
| TierList.AddItemPreservesValid | src/App.tsx:298-307 | adding a fresh id appends it to `pool`, leaves the tiers alone, registers exactly that id without an image, adds one to the placed count, and keeps the invariant |
| TierList.AddExistingIdBreaksPartition | src/App.tsx:299-306 | adding an id that is already registered places it twice, so the partition no longer holds |
| TierList.AppendToPool | src/App.tsx:306 | appending an id to `pool` adds exactly that id to the placed ids |
| TierList.ClearFacts | src/App.tsx:310-331 | a reset puts the ten seeds back in `pool` in order, empties the tiers, keeps exactly the seed ids, keeps each seed's image (missing or empty becomes none), always yields a partition, and yields the full invariant when the images were normalised |
| TierList.KeptImagesFacts | src/App.tsx:315-321 | the reset's registry holds exactly the given ids, each with its kept image, and keeps images normalised |
| TierList.ClearIdempotent | src/App.tsx:310-331 | resetting twice is resetting once |
| TierList.ImageFromInput | src/App.tsx:355 | the stored value is none exactly when the typed text is all white space, and otherwise is the trimmed text, which is non-empty and trimmed |
| TierList.SaveImageFacts | src/App.tsx:349-358 | without a truthy active id nothing changes; otherwise only the active entry changes, to the trimmed text or none when that is blank, the placement is untouched, and the registry's ids gain the active id |
| TierList.SaveImagePreservesValid | src/App.tsx:349-358 | saving for a registered id, or with no active id, keeps the invariant |
| TierList.SaveImageValidIff | src/App.tsx:349-358 | from a valid state, a save keeps the invariant exactly when there is no truthy active id or the active id is registered |
| TierList.SavedValid | src/App.tsx:351-357 | replacing a registered id's image by a normalised one, or by none, keeps the invariant |
| TierList.SaveUnknownIdBreaksPartition | src/App.tsx:350-357 | saving for an id the registry does not hold registers an id that is placed nowhere, so the partition no longer holds |
| TierList.FirstSeedToTierS | src/App.tsx:418-457 | from the initial state, dragging the front of `pool` to the front of tier S leaves S holding just `item-1` and `pool` holding `item-2` .. `item-10` |
| TierList.FrontOfPoolToEmptyTier | src/App.tsx:433-456 | dragging the front of `pool` onto an empty tier leaves the tier holding that id and `pool` its remainder |
| TierListApp.App.constructor | src/App.tsx:274-288 | the counting loop and the pool literal build the initial state, which satisfies the invariant |
| TierListApp.App.HandleDragEnd | src/App.tsx:418-457 | from any state whose source index exists, the copy-and-splice handler produces the drag's state and keeps the placed ids; a valid state stays valid |
| TierListApp.App.AddNewItem | src/App.tsx:298-307 | from any state, the handler appends the id to `pool`, registers it without an image and leaves the tiers alone; from a valid state the invariant holds afterwards exactly when the id was fresh |
| TierListApp.App.KeepImagesOf | src/App.tsx:315-321 | the loop builds a registry of exactly the given ids, each with its current image, or none when that is missing or empty |
| TierListApp.App.ClearAllItems | src/App.tsx:310-331 | from any state, the handler produces the reset state: seeds in `pool`, empty tiers, seed images kept; the partition always holds afterwards, and the whole invariant when the images were normalised |
| TierListApp.App.HandleSaveImage | src/App.tsx:349-358 | from any state, the handler produces the save's state and leaves the placement alone; from a valid state the invariant holds afterwards exactly when there was no truthy active id or it was registered |

## Left out

- Styling, the theme colours and all JSX rendering are left out. They are presentation only.
- The PNG export (`html2canvas` and the download link) is left out. It is a foreign library and DOM I/O.
- Saving to and loading from `localStorage` is left out. It is JSON I/O with alerts. A load replaces both maps wholesale with whatever was stored, so the invariant holds after a load only if it held when the data was saved.
- The modal's state is not modelled: whether it is open, the typed text and the active id. The active id and the typed text are parameters of `HandleSaveImage`, and closing the modal is not modelled.
- The input focus timer, `isDragging`, `handleDragStart` and `handleItemClick` are not modelled. They only drive the display.
- AddNewItem: the id is built from `Date.now()` in the component. Here it is a parameter, because the clock is I/O. Freshness is not assumed: the invariant is proved to hold when the id is fresh and to break when it is not.
- HandleDragEnd, AddNewItem: both require all seven lists to be present (`WellFormed`). The constructor establishes this and every handler keeps it, so no state the component reaches is excluded.
- HandleDragEnd: the drag library reports a source index inside the source list. This is a precondition (`SourceInRange`), needed only once both guards have passed. A destination index beyond the end is not excluded: `splice` clamps it, and the model does the same.
- The registry's entries drop the `id` field that repeats the key. Nothing reads it, and a save for an unknown id creates an entry without it.
- React's batching of state updates and stale closures are not modelled:
  - `handleDragEnd` reads `items` as captured when the component last rendered, for its copies and for the map it spreads;
  - `addNewItem` reads the captured `items`, but updates `itemsData` from its latest value;
  - `clearAllItems` reads only the captured `itemsData`, and replaces `items` without reading it;
  - `handleSaveImage` updates `itemsData` from its latest value;
  - each handler here acts on the current state, which is what those captures hold between renders.
- Where a reading of the app's intent and `src/App.tsx` differ, the model follows the code:
  - The component has no "move to container" control besides dragging, so none is modelled.
  - A save for an unknown active id is not ignored. It adds a registry entry, which breaks the partition (`TierList.SaveUnknownIdBreaksPartition`).
  - An added item is not numbered after the seeds (`item-11`); its id comes from the clock.
- `src/main.tsx` is not part of this model. It only mounts the component.
