/**
 * Where each item sits: the seven containers (the unranked pool and the
 * tiers S, A, B, C, D, F), each an ordered list of item ids, and the drag
 * handler's reorder step that moves one id from one list into another or
 * within the same list.
 */
module Placement {
  import opened Wrappers
  import opened Splice

  type ItemId = string

  /** The droppable areas: `pool` and one per entry of the tier table. */
  datatype Container = Pool | S | A | B | C | D | F

  /** Every container, pool first, then the tiers in display order. */
  const Containers: seq<Container> := [Pool, S, A, B, C, D, F]

  /** The `items` state: container name to the ids shown in it, in order. */
  type Placement = map<Container, seq<ItemId>>

  /** Every one of the seven containers has a list. */
  predicate WellFormed(items: Placement) {
    forall c: Container :: c in items
  }

  predicate Distinct<T(==)>(s: seq<T>) {
    forall i, j :: 0 <= i < j < |s| ==> s[i] != s[j]
  }

  lemma ContainersListed(c: Container)
    ensures c in Containers && Distinct(Containers)
  {
  }

  /** The lists of the containers `cs`, concatenated in that order. */
  function Flatten(items: Placement, cs: seq<Container>): seq<ItemId>
    requires WellFormed(items)
  {
    if cs == [] then [] else items[cs[0]] + Flatten(items, cs[1..])
  }

  /** Every placed id, with its multiplicity. */
  function AllPlaced(items: Placement): seq<ItemId>
    requires WellFormed(items)
  {
    Flatten(items, Containers)
  }

  /** Dropping the head of a sequence without repeats leaves one without repeats, and without the head. */
  lemma DistinctTail<T>(cs: seq<T>)
    requires cs != [] && Distinct(cs)
    ensures Distinct(cs[1..]) && cs[0] !in cs[1..]
  {
    forall i, j | 0 <= i < j < |cs[1..]| ensures cs[1..][i] != cs[1..][j] {
      assert cs[1..][i] == cs[i + 1] && cs[1..][j] == cs[j + 1];
    }
    forall j | 0 <= j < |cs[1..]| ensures cs[1..][j] != cs[0] {
      assert cs[1..][j] == cs[j + 1];
    }
  }

  /** Replacing the list of a container that is not listed leaves the concatenation alone. */
  lemma {:induction false} FlattenUnaffected(items: Placement, cs: seq<Container>, c: Container, s: seq<ItemId>)
    requires WellFormed(items) && c !in cs
    ensures Flatten(items[c := s], cs) == Flatten(items, cs)
  {
    if cs != [] {
      FlattenUnaffected(items, cs[1..], c, s);
    }
  }

  /** Replacing one container's list changes the concatenation by exactly that list. */
  lemma {:induction false} FlattenUpdate(items: Placement, cs: seq<Container>, c: Container, s: seq<ItemId>)
    requires WellFormed(items) && Distinct(cs) && c in cs
    ensures multiset(Flatten(items[c := s], cs)) + multiset(items[c]) == multiset(Flatten(items, cs)) + multiset(s)
  {
    var items' := items[c := s];
    DistinctTail(cs);
    if c == cs[0] {
      FlattenUnaffected(items, cs[1..], c, s);
      assert Flatten(items', cs) == s + Flatten(items, cs[1..]);
      assert Flatten(items, cs) == items[c] + Flatten(items, cs[1..]);
    } else {
      assert c in cs[1..] by {
        var j :| 0 <= j < |cs| && cs[j] == c;
        assert cs[1..][j - 1] == c;
      }
      FlattenUpdate(items, cs[1..], c, s);
      calc {
        multiset(Flatten(items', cs)) + multiset(items[c]);
        { assert Flatten(items', cs) == items[cs[0]] + Flatten(items', cs[1..]); }
        multiset(items[cs[0]]) + (multiset(Flatten(items', cs[1..])) + multiset(items[c]));
        multiset(items[cs[0]]) + (multiset(Flatten(items, cs[1..])) + multiset(s));
        { assert Flatten(items, cs) == items[cs[0]] + Flatten(items, cs[1..]); }
        multiset(Flatten(items, cs)) + multiset(s);
      }
    }
  }

  /** An id is placed in the concatenation exactly when some listed container holds it. */
  lemma {:induction false} FlattenMember(items: Placement, cs: seq<Container>, id: ItemId)
    requires WellFormed(items)
    ensures id in Flatten(items, cs) <==> exists c :: c in cs && id in items[c]
  {
    if cs != [] {
      FlattenMember(items, cs[1..], id);
      assert forall c :: c in cs <==> c == cs[0] || c in cs[1..];
    }
  }

  /** Replacing one container's list changes the whole placement by exactly that list. */
  lemma ReplaceContainer(items: Placement, c: Container, s: seq<ItemId>)
    requires WellFormed(items)
    ensures multiset(AllPlaced(items[c := s])) + multiset(items[c]) == multiset(AllPlaced(items)) + multiset(s)
  {
    ContainersListed(c);
    FlattenUpdate(items, Containers, c, s);
  }

  /** Emptying one container takes exactly its list out of the whole placement. */
  lemma EmptyContainer(items: Placement, c: Container)
    requires WellFormed(items)
    ensures multiset(AllPlaced(items[c := []])) + multiset(items[c]) == multiset(AllPlaced(items))
  {
    var empty: seq<ItemId> := [];
    ReplaceContainer(items, c, empty);
    assert multiset(empty) == multiset{};
  }

  /** Every container's list is part of the whole placement. */
  lemma ContainerWithinAll(items: Placement, c: Container)
    requires WellFormed(items)
    ensures multiset(items[c]) <= multiset(AllPlaced(items))
  {
    EmptyContainer(items, c);
    MultisetPart(multiset(AllPlaced(items[c := []])), multiset(items[c]), multiset(AllPlaced(items)));
  }

  /** Two different containers' lists together are part of the whole placement. */
  lemma TwoContainersWithinAll(items: Placement, c: Container, d: Container)
    requires WellFormed(items) && c != d
    ensures multiset(items[c]) + multiset(items[d]) <= multiset(AllPlaced(items))
  {
    var items1 := items[c := []];
    EmptyContainer(items, c);
    EmptyContainer(items1, d);
    var m0 := multiset(AllPlaced(items));
    var m1 := multiset(AllPlaced(items1));
    var m2 := multiset(AllPlaced(items1[d := []]));
    assert items1[d] == items[d];
    assert m2 + multiset(items[c]) + multiset(items[d]) == m0;
    MultisetPart(m2, multiset(items[c]) + multiset(items[d]), m0);
  }

  lemma MultisetCancel(a: multiset<ItemId>, b: multiset<ItemId>, m: multiset<ItemId>)
    requires a + m == b + m
    ensures a == b
  {
    forall x ensures a[x] == b[x] {
      assert (a + m)[x] == (b + m)[x];
    }
  }

  lemma MultisetPart(a: multiset<ItemId>, b: multiset<ItemId>, c: multiset<ItemId>)
    requires a + b == c
    ensures b <= c
  {
    forall x ensures b[x] <= c[x] {
      assert c[x] == a[x] + b[x];
    }
  }

  /** A drag end point: the droppable's name and the position in its list. */
  datatype Location = Location(droppableId: Container, index: nat)

  /** The drag library's result; `destination` is absent when dropped outside every droppable. */
  datatype DropResult = DropResult(source: Location, destination: Option<Location>)

  /** Dropped back where it was picked up. */
  predicate SamePosition(result: DropResult) {
    result.destination.Some? && result.destination.value == result.source
  }

  /**
   * The drag library only reports a source position that exists; the handler
   * reads it only once both guards have passed.
   */
  predicate SourceInRange(items: Placement, result: DropResult)
    requires WellFormed(items)
  {
    result.destination.Some? && !SamePosition(result) ==>
      result.source.index < |items[result.source.droppableId]|
  }

  /** Take the id at `src` out of its list and splice it into `dst`'s list. */
  function Move(items: Placement, src: Location, dst: Location): (r: Placement)
    requires WellFormed(items) && src.index < |items[src.droppableId]|
    ensures WellFormed(r)
    ensures forall c :: c != src.droppableId && c != dst.droppableId ==> r[c] == items[c]
  {
    var sourceList := items[src.droppableId];
    var removed := sourceList[src.index];
    var rest := RemoveAt(sourceList, src.index);
    if src.droppableId == dst.droppableId then
      items[src.droppableId := InsertAt(rest, dst.index, removed)]
    else
      items[src.droppableId := rest][dst.droppableId := InsertAt(items[dst.droppableId], dst.index, removed)]
  }

  /** A move neither loses nor duplicates an id: the placed ids are the same multiset. */
  lemma MoveConservesIds(items: Placement, src: Location, dst: Location)
    requires WellFormed(items) && src.index < |items[src.droppableId]|
    ensures multiset(AllPlaced(Move(items, src, dst))) == multiset(AllPlaced(items))
  {
    var sourceList := items[src.droppableId];
    var rest := RemoveAt(sourceList, src.index);
    if src.droppableId == dst.droppableId {
      ReorderConservesIds(items, src.droppableId, InsertAt(rest, dst.index, sourceList[src.index]));
    } else {
      TransferConservesIds(items, src.droppableId, rest, dst.droppableId,
                           InsertAt(items[dst.droppableId], dst.index, sourceList[src.index]));
    }
  }

  /** Replacing one list by a permutation of itself keeps the placed ids. */
  lemma ReorderConservesIds(items: Placement, c: Container, s: seq<ItemId>)
    requires WellFormed(items) && multiset(s) == multiset(items[c])
    ensures multiset(AllPlaced(items[c := s])) == multiset(AllPlaced(items))
  {
    ReplaceContainer(items, c, s);
    MultisetCancel(multiset(AllPlaced(items[c := s])), multiset(AllPlaced(items)), multiset(s));
  }

  /** Taking ids out of one list and adding exactly those to another keeps the placed ids. */
  lemma TransferConservesIds(items: Placement, c: Container, s: seq<ItemId>, d: Container, t: seq<ItemId>)
    requires WellFormed(items) && c != d
    requires multiset(s) + multiset(t) == multiset(items[c]) + multiset(items[d])
    ensures multiset(AllPlaced(items[c := s][d := t])) == multiset(AllPlaced(items))
  {
    var items1 := items[c := s];
    ReplaceContainer(items, c, s);
    ReplaceContainer(items1, d, t);
    var all, all1, all2 := multiset(AllPlaced(items)), multiset(AllPlaced(items1)), multiset(AllPlaced(items1[d := t]));
    assert all1 + multiset(items[c]) == all + multiset(s);
    assert all2 + multiset(items[d]) == all1 + multiset(t);
    forall x ensures all2[x] == all[x] {
      assert (all1 + multiset(items[c]))[x] == (all + multiset(s))[x];
      assert (all2 + multiset(items[d]))[x] == (all1 + multiset(t))[x];
      assert (multiset(s) + multiset(t))[x] == (multiset(items[c]) + multiset(items[d]))[x];
    }
  }

  /**
   * The placement after a drag ends: unchanged when dropped outside every
   * droppable or back on its own spot, otherwise the move. Ids are neither
   * lost nor duplicated.
   */
  function DragEnd(items: Placement, result: DropResult): (r: Placement)
    requires WellFormed(items) && SourceInRange(items, result)
    ensures WellFormed(r)
    ensures result.destination.None? ==> r == items
    ensures SamePosition(result) ==> r == items
    ensures multiset(AllPlaced(r)) == multiset(AllPlaced(items))
    ensures |AllPlaced(r)| == |AllPlaced(items)|
  {
    match result.destination
    case None => items
    case Some(dst) =>
      if result.source.droppableId == dst.droppableId && result.source.index == dst.index then items
      else
        var r := Move(items, result.source, dst);
        MoveConservesIds(items, result.source, dst);
        assert |multiset(AllPlaced(r))| == |multiset(AllPlaced(items))|;
        r
  }

  /**
   * A move within one list: the list keeps its length and its ids, the moved
   * id lands at the requested position (clamped to the end), the other ids
   * keep their relative order, and no other container changes.
   */
  lemma SameContainerMove(items: Placement, src: Location, dst: Location)
    requires WellFormed(items) && src.droppableId == dst.droppableId
    requires src != dst && src.index < |items[src.droppableId]|
    ensures var r := DragEnd(items, DropResult(src, Some(dst)));
      var before, after := items[src.droppableId], r[src.droppableId];
      var p := Clamp(dst.index, |before| - 1);
      && |after| == |before|
      && multiset(after) == multiset(before)
      && after[p] == before[src.index]
      && RemoveAt(after, p) == RemoveAt(before, src.index)
      && forall c :: c != src.droppableId ==> r[c] == items[c]
  {
    var before := items[src.droppableId];
    var rest := RemoveAt(before, src.index);
    RemoveInsertRoundTrip(rest, dst.index, before[src.index]);
  }

  /**
   * A move between two lists: the source loses exactly the id at the source
   * position and keeps the rest in order, the destination gains it at the
   * requested position (clamped to the end) with its own ids in order around
   * it, and the other five containers do not change.
   */
  lemma CrossContainerMove(items: Placement, src: Location, dst: Location)
    requires WellFormed(items) && src.droppableId != dst.droppableId
    requires src.index < |items[src.droppableId]|
    ensures var r := DragEnd(items, DropResult(src, Some(dst)));
      var moved := items[src.droppableId][src.index];
      var target := items[dst.droppableId];
      var p := Clamp(dst.index, |target|);
      && r[src.droppableId] == RemoveAt(items[src.droppableId], src.index)
      && |r[dst.droppableId]| == |target| + 1
      && r[dst.droppableId][p] == moved
      && RemoveAt(r[dst.droppableId], p) == target
      && forall c :: c != src.droppableId && c != dst.droppableId ==> r[c] == items[c]
  {
    var moved, target := items[src.droppableId][src.index], items[dst.droppableId];
    assert DragEnd(items, DropResult(src, Some(dst))) ==
      items[src.droppableId := RemoveAt(items[src.droppableId], src.index)][dst.droppableId := InsertAt(target, dst.index, moved)];
    RemoveInsertRoundTrip(target, dst.index, moved);
  }

  /** Moving an id onto its own position would change nothing: the same-position guard only saves work. */
  lemma SamePositionMoveIsIdentity(items: Placement, at: Location)
    requires WellFormed(items) && at.index < |items[at.droppableId]|
    ensures Move(items, at, at) == items
  {
    InsertRemoveRoundTrip(items[at.droppableId], at.index);
  }
}
