/** Siblings are ordered by real numbers, so that one can be put beside another without renumbering the
    rest. The orders are exact here; the source's are floating-point numbers. */
module UpdateOrder {
  import opened Wrappers

  datatype Position = Before | After

  datatype Outcome = Updated | NeedsShuffle

  type Orders = map<string, real>

  /** Twice the machine epsilon. */
  const TWO_EPSILON: real := 1.0 / 2251799813685248.0

  function Abs(x: real): real {
    if x < 0.0 then -x else x
  }

  predicate OnSide(position: Position, order: real, anchor: real) {
    if position.Before? then order < anchor else order > anchor
  }

  /** `order` is that of the sibling next to `anchor` on one side, `None` when there is none there. */
  ghost predicate IsNext(orders: Orders, position: Position, anchor: real, next: Option<real>) {
    match next
    case None => forall id :: id in orders ==> !OnSide(position, orders[id], anchor)
    case Some(order) =>
      && (exists id :: id in orders && orders[id] == order)
      && OnSide(position, order, anchor)
      && forall id :: id in orders && OnSide(position, orders[id], anchor) ==>
          Abs(order - anchor) <= Abs(orders[id] - anchor)
  }

  lemma NextIsUnique(orders: Orders, position: Position, anchor: real, a: Option<real>, b: Option<real>)
    requires IsNext(orders, position, anchor, a) && IsNext(orders, position, anchor, b)
    ensures a == b
  {
  }

  /** The nearer of `next` and one more sibling. */
  function Nearer(position: Position, anchor: real, next: Option<real>, order: real): Option<real> {
    if OnSide(position, order, anchor) && (next.None? || Abs(order - anchor) < Abs(next.value - anchor))
    then Some(order) else next
  }

  lemma NextGrows(orders: Orders, position: Position, anchor: real, next: Option<real>, id: string, order: real)
    requires IsNext(orders, position, anchor, next) && id !in orders
    ensures IsNext(orders[id := order], position, anchor, Nearer(position, anchor, next, order))
  {
    var grown := orders[id := order];
    assert grown[id] == order;
    if next.Some? {
      var k :| k in orders && orders[k] == next.value;
      assert grown[k] == next.value;
    }
  }

  /** Where the item goes: halfway to the next sibling, or one past the anchor. */
  function Target(position: Position, anchor: real, next: Option<real>): real {
    if next.Some? then (next.value + anchor) / 2.0 else anchor + if position.Before? then -1.0 else 1.0
  }

  predicate TooClose(order: real, anchor: real) {
    Abs(order - anchor) < TWO_EPSILON
  }

  /** `item` sits beside `anchor`, and no sibling is between them or shares its order. */
  ghost predicate Beside(orders: Orders, position: Position, item: string, anchor: string) {
    && item in orders && anchor in orders
    && OnSide(position, orders[item], orders[anchor])
    && forall id :: id in orders && id != item && OnSide(position, orders[id], orders[anchor]) ==>
         Abs(orders[item] - orders[anchor]) < Abs(orders[id] - orders[anchor])
  }

  ghost predicate Distinct(orders: Orders) {
    forall a, b :: a in orders && b in orders && a != b ==> orders[a] != orders[b]
  }

  class Siblings {
    var orders: Orders

    constructor (orders: Orders)
      ensures this.orders == orders
    {
      this.orders := orders;
    }

    /** The query for the next sibling: the first of those on one side, nearest first. */
    method GetNextItem(position: Position, anchor: real) returns (next: Option<real>)
      ensures IsNext(orders, position, anchor, next)
    {
      next := None;
      var ids := orders.Keys;
      ghost var seen: Orders := map[];
      while ids != {}
        invariant ids <= orders.Keys
        invariant seen == orders - ids
        invariant IsNext(seen, position, anchor, next)
        decreases |ids|
      {
        var id :| id in ids;
        ids := ids - {id};
        NextGrows(seen, position, anchor, next, id, orders[id]);
        seen := seen[id := orders[id]];
        next := Nearer(position, anchor, next, orders[id]);
      }
      assert orders - {} == orders;
    }

    /** `updateOrder`, up to its request to renumber the siblings, which changes nothing by itself. */
    method UpdateOrder(position: Position, item: string, anchor: string) returns (outcome: Outcome)
      requires item in orders && anchor in orders
      modifies this
      ensures outcome.NeedsShuffle? <==> Place(old(orders), position, item, anchor).None?
      ensures orders == match Place(old(orders), position, item, anchor)
                        case None => old(orders)
                        case Some(placed) => placed
    {
      var next := GetNextItem(position, orders[anchor]);
      NextIsUnique(orders, position, orders[anchor], next, Next(orders, position, orders[anchor]));
      var order := Target(position, orders[anchor], next);
      if TooClose(order, orders[anchor]) {
        return NeedsShuffle;
      }
      orders := orders[item := order];
      return Updated;
    }

    /** `updateMultipleOrders`: the items get evenly spaced orders in the gap, first to last. */
    method UpdateMultipleOrders(position: Position, items: seq<string>, anchor: string) returns (outcome: Outcome)
      requires anchor in orders && anchor !in items
      requires forall i, j :: 0 <= i < j < |items| ==> items[i] != items[j]
      modifies this
      ensures outcome.NeedsShuffle? <==> Spacing(old(orders), position, anchor, |items|) < TWO_EPSILON
      ensures outcome.NeedsShuffle? ==> orders == old(orders)
      ensures outcome.Updated? ==> orders.Keys == old(orders).Keys + set id | id in items
      ensures outcome.Updated? ==> forall id :: id in old(orders) && id !in items ==> orders[id] == old(orders)[id]
      ensures outcome.Updated? ==> SpreadBeside(old(orders), position, items, anchor, orders)
      ensures outcome.Updated? ==> EvenlySpread(old(orders), position, items, anchor, orders)
    {
      var start := orders[anchor];
      var next := GetNextItem(position, start);
      NextIsUnique(orders, position, start, next, Next(orders, position, start));
      var nextOrder := NextOrder(position, start, next);
      if Gap(start, nextOrder, |items|) < TWO_EPSILON {
        return NeedsShuffle;
      }
      hide SpreadBeside, EvenlySpread, NewOrders, Gap, NextOrder;
      var newOrders := NewOrders(position, start, nextOrder, |items|);
      Update(items, newOrders);
      NewOrdersSpread(old(orders), position, items, anchor, orders);
      return Updated;
    }

    /** The callback that stores the new orders of the items. */
    method Update(items: seq<string>, newOrders: seq<real>)
      requires |newOrders| == |items|
      requires forall i, j :: 0 <= i < j < |items| ==> items[i] != items[j]
      modifies this
      ensures orders.Keys == old(orders).Keys + set id | id in items
      ensures forall id :: id in old(orders) && id !in items ==> orders[id] == old(orders)[id]
      ensures forall i :: 0 <= i < |items| ==> orders[items[i]] == newOrders[i]
    {
      for i := 0 to |items|
        invariant orders.Keys == old(orders).Keys + set id | id in items[..i]
        invariant forall id :: id in old(orders) && id !in items[..i] ==> orders[id] == old(orders)[id]
        invariant forall j :: 0 <= j < i ==> orders[items[j]] == newOrders[j]
      {
        orders := orders[items[i] := newOrders[i]];
      }
      assert items[..|items|] == items;
    }
  }

  function NextOrder(position: Position, start: real, next: Option<real>): real {
    if next.Some? then next.value else start + if position.Before? then -1.0 else 1.0
  }

  function Gap(start: real, nextOrder: real, n: nat): real {
    Abs((start - nextOrder) / ((n + 1) as real))
  }

  /** The place of item `i`, counted from the low end of the gap. */
  function Offset(gap: real, i: nat): real {
    gap * ((i + 1) as real)
  }

  function NewOrders(position: Position, start: real, nextOrder: real, n: nat): (newOrders: seq<real>)
    ensures |newOrders| == n
  {
    var base := if position.Before? then nextOrder else start;
    seq(n, i requires 0 <= i < n => base + Offset(Gap(start, nextOrder, n), i))
  }

  /** The new orders rise and stay strictly inside the gap. */
  lemma NewOrdersFillGap(position: Position, start: real, nextOrder: real, n: nat)
    requires OnSide(position, nextOrder, start)
    ensures
      var newOrders := NewOrders(position, start, nextOrder, n);
      && (forall i :: 0 <= i < n ==>
            OnSide(position, newOrders[i], start) && Abs(newOrders[i] - start) < Abs(nextOrder - start))
      && (forall i, j :: 0 <= i < j < n ==> newOrders[i] < newOrders[j])
  {
    hide Gap, Offset;
    var newOrders := NewOrders(position, start, nextOrder, n);
    var gap := Gap(start, nextOrder, n);
    GapFits(start, nextOrder, n);
    forall i | 0 <= i < n
      ensures OnSide(position, newOrders[i], start) && Abs(newOrders[i] - start) < Abs(nextOrder - start)
    {
      OffsetFits(gap, i, n, Abs(start - nextOrder));
    }
    forall i, j | 0 <= i < j < n ensures newOrders[i] < newOrders[j] {
      OffsetsAscend(gap, i, j);
    }
  }

  lemma GapFits(start: real, next: real, n: nat)
    ensures Offset(Gap(start, next, n), n) == Abs(start - next)
    ensures start != next ==> Gap(start, next, n) > 0.0
  {
    var d := (n + 1) as real;
    assert ((start - next) / d) * d == start - next;
  }

  lemma OffsetFits(gap: real, i: nat, n: nat, width: real)
    requires gap > 0.0 && i < n && Offset(gap, n) == width
    ensures 0.0 < Offset(gap, i) < width
  {
    OffsetsAscend(gap, i, n);
  }

  lemma OffsetsAscend(gap: real, i: nat, j: nat)
    requires gap > 0.0 && i < j
    ensures 0.0 < Offset(gap, i) < Offset(gap, j)
  {
  }

  /** The items are in order beside the anchor, apart from one another, and nearer to it than any sibling
      that was on that side. */
  ghost predicate SpreadBeside(before: Orders, position: Position, items: seq<string>, anchor: string, after: Orders)
    requires anchor in before
  {
    && (forall i :: 0 <= i < |items| ==> items[i] in after && OnSide(position, after[items[i]], before[anchor]))
    && (forall i, j :: 0 <= i < j < |items| ==> after[items[i]] < after[items[j]])
    && (forall i, id :: 0 <= i < |items| && id in before && OnSide(position, before[id], before[anchor]) ==>
          Abs(after[items[i]] - before[anchor]) < Abs(before[id] - before[anchor]))
  }

  /** The items and the two ends of the gap are equally far apart. */
  ghost predicate EvenlySpread(before: Orders, position: Position, items: seq<string>, anchor: string, after: Orders)
    requires anchor in before
  {
    var spacing := Spacing(before, position, anchor, |items|);
    var low := if position.Before? then FarEnd(before, position, before[anchor]) else before[anchor];
    forall i :: 0 <= i < |items| ==> items[i] in after && after[items[i]] == low + spacing * ((i + 1) as real)
  }

  /** How wide the gap is: up to the nearest sibling on that side, or 1 where there is none. */
  lemma SpacingOfGap(orders: Orders, position: Position, anchor: string, next: Option<real>, n: nat)
    requires anchor in orders && IsNext(orders, position, orders[anchor], next)
    ensures Spacing(orders, position, anchor, n) * ((n + 1) as real)
         == if next.Some? then Abs(next.value - orders[anchor]) else 1.0
  {
    var start := orders[anchor];
    NextIsUnique(orders, position, start, next, Next(orders, position, start));
    GapFits(start, FarEnd(orders, position, start), n);
  }

  // ---------- the orders a move leaves ----------

  lemma {:induction false} NextExists(orders: Orders, position: Position, anchor: real, ids: set<string>)
    returns (next: Option<real>)
    requires ids <= orders.Keys
    ensures IsNext(map id | id in ids :: orders[id], position, anchor, next)
    decreases |ids|
  {
    if ids == {} {
      next := None;
    } else {
      var id :| id in ids;
      next := NextExists(orders, position, anchor, ids - {id});
      var rest := map k | k in ids - {id} :: orders[k];
      var all := map k | k in ids :: orders[k];
      assert all == rest[id := orders[id]];
      NextGrows(rest, position, anchor, next, id, orders[id]);
      next := Nearer(position, anchor, next, orders[id]);
    }
  }

  ghost function Next(orders: Orders, position: Position, anchor: real): (next: Option<real>)
    ensures IsNext(orders, position, anchor, next)
  {
    assert exists next :: IsNext(orders, position, anchor, next) by {
      var next := NextExists(orders, position, anchor, orders.Keys);
      assert orders == map id | id in orders.Keys :: orders[id];
    }
    var next :| IsNext(orders, position, anchor, next);
    next
  }

  /** The far end of the gap beside `anchor`. */
  ghost function FarEnd(orders: Orders, position: Position, anchor: real): (far: real)
    ensures OnSide(position, far, anchor)
    ensures forall id :: id in orders && OnSide(position, orders[id], anchor) ==>
        Abs(far - anchor) <= Abs(orders[id] - anchor)
  {
    NextOrder(position, anchor, Next(orders, position, anchor))
  }

  lemma NewOrdersAreEven(before: Orders, position: Position, items: seq<string>, anchor: string, after: Orders)
    requires anchor in before
    requires
      var newOrders := NewOrders(position, before[anchor], FarEnd(before, position, before[anchor]), |items|);
      forall i :: 0 <= i < |items| ==> items[i] in after && after[items[i]] == newOrders[i]
    ensures EvenlySpread(before, position, items, anchor, after)
  {
    hide Gap, FarEnd;
  }

  /** Items that have the new orders are spread evenly beside the anchor. */
  lemma NewOrdersSpread(before: Orders, position: Position, items: seq<string>, anchor: string, after: Orders)
    requires anchor in before
    requires
      var newOrders := NewOrders(position, before[anchor], FarEnd(before, position, before[anchor]), |items|);
      forall i :: 0 <= i < |items| ==> items[i] in after && after[items[i]] == newOrders[i]
    ensures SpreadBeside(before, position, items, anchor, after)
    ensures EvenlySpread(before, position, items, anchor, after)
  {
    var start := before[anchor];
    NewOrdersAreEven(before, position, items, anchor, after);
    NewOrdersFillGap(position, start, FarEnd(before, position, start), |items|);
    hide Abs, OnSide, NewOrders, FarEnd, Next, EvenlySpread;
  }

  /** How far apart `n` items would come to lie beside `anchor`. */
  ghost function Spacing(orders: Orders, position: Position, anchor: string, n: nat): real
    requires anchor in orders
  {
    Gap(orders[anchor], FarEnd(orders, position, orders[anchor]), n)
  }

  /** The orders after `item` is put beside `anchor`; `None` when the siblings must be renumbered first. */
  ghost function Place(orders: Orders, position: Position, item: string, anchor: string): Option<Orders>
    requires anchor in orders
  {
    var order := Target(position, orders[anchor], Next(orders, position, orders[anchor]));
    if TooClose(order, orders[anchor]) then None else Some(orders[item := order])
  }

  /** A move puts the item beside its anchor and touches no other sibling; orders stay distinct. */
  lemma MovePlacesItem(orders: Orders, position: Position, item: string, anchor: string)
    requires anchor in orders && Place(orders, position, item, anchor).Some?
    ensures
      var placed := Place(orders, position, item, anchor).value;
      && placed.Keys == orders.Keys + {item}
      && (forall id :: id in orders && id != item ==> placed[id] == orders[id])
      && (Distinct(orders) ==> Distinct(placed))
      && (item != anchor ==> Beside(placed, position, item, anchor))
  {
  }

  // ---------- the list the orders stand for ----------

  /** The siblings in order. */
  ghost predicate IsListing(orders: Orders, list: seq<string>) {
    && (forall id :: id in list <==> id in orders)
    && (forall i, j :: 0 <= i < j < |list| ==> orders[list[i]] < orders[list[j]])
  }

  /** The list with `item` taken out. */
  function Without(list: seq<string>, item: string): (rest: seq<string>)
    ensures forall id :: id in rest <==> id in list && id != item
    decreases |list|
  {
    if list == [] then []
    else (if list[0] == item then [] else [list[0]]) + Without(list[1..], item)
  }

  /** `item` put beside `anchor`. */
  function InsertBeside(list: seq<string>, position: Position, item: string, anchor: string): (placed: seq<string>)
    ensures anchor in list ==> forall id :: id in placed <==> id in list || id == item
    decreases |list|
  {
    if list == [] then []
    else if list[0] == anchor then
      (if position.Before? then [item, anchor] else [anchor, item]) + list[1..]
    else [list[0]] + InsertBeside(list[1..], position, item, anchor)
  }

  ghost predicate Ascending(orders: Orders, list: seq<string>) {
    && (forall id :: id in list ==> id in orders)
    && (forall i, j :: 0 <= i < j < |list| ==> orders[list[i]] < orders[list[j]])
  }

  lemma AscendsFrom(orders: Orders, first: string, list: seq<string>)
    requires first in orders && Ascending(orders, list)
    requires forall id :: id in list ==> orders[first] < orders[id]
    ensures Ascending(orders, [first] + list)
  {
  }

  lemma AscendingTail(orders: Orders, list: seq<string>)
    requires list != [] && Ascending(orders, list)
    ensures Ascending(orders, list[1..]) && list[0] in orders
    ensures forall id :: id in list[1..] ==> id in orders && orders[list[0]] < orders[id]
  {
    forall id | id in list[1..] ensures id in list && orders[list[0]] < orders[id] {
      var i :| 0 <= i < |list[1..]| && list[1..][i] == id;
      assert list[i + 1] == id;
    }
  }

  lemma {:induction false} WithoutAscends(orders: Orders, list: seq<string>, item: string)
    requires Ascending(orders, list)
    ensures Ascending(orders, Without(list, item))
    decreases |list|
  {
    if list != [] {
      AscendingTail(orders, list);
      WithoutAscends(orders, list[1..], item);
      if list[0] != item {
        AscendsFrom(orders, list[0], Without(list[1..], item));
      }
    }
  }

  lemma BesideIsOnSide(orders: Orders, position: Position, item: string, anchor: string)
    requires Beside(orders, position, item, anchor)
    ensures item in orders && anchor in orders && OnSide(position, orders[item], orders[anchor])
  {
  }

  /** The item is on the same side of any other sibling as the anchor is. */
  lemma BesideIsNearest(orders: Orders, position: Position, item: string, anchor: string, other: string)
    requires Beside(orders, position, item, anchor) && other in orders && other != item
    ensures orders[other] < orders[anchor] ==> orders[other] < orders[item]
    ensures orders[other] > orders[anchor] ==> orders[other] > orders[item]
  {
  }

  lemma InsertAtAnchor(orders: Orders, position: Position, rest: seq<string>, item: string, anchor: string)
    requires Ascending(orders, rest) && item !in rest && anchor in orders
    requires forall id :: id in rest ==> id in orders && orders[anchor] < orders[id]
    requires Beside(orders, position, item, anchor)
    ensures Ascending(orders, (if position.Before? then [item, anchor] else [anchor, item]) + rest)
  {
    hide Ascending, Beside;
    BesideIsOnSide(orders, position, item, anchor);
    forall id | id in rest ensures orders[item] < orders[id] {
      BesideIsNearest(orders, position, item, anchor, id);
    }
    if position.Before? {
      AscendsFrom(orders, anchor, rest);
      AscendsFrom(orders, item, [anchor] + rest);
      assert [item, anchor] + rest == [item] + ([anchor] + rest);
    } else {
      AscendsFrom(orders, item, rest);
      AscendsFrom(orders, anchor, [item] + rest);
      assert [anchor, item] + rest == [anchor] + ([item] + rest);
    }
  }

  lemma {:induction false} InsertAscends(orders: Orders, position: Position, list: seq<string>, item: string,
      anchor: string)
    requires Ascending(orders, list) && item !in list && anchor in list
    requires Beside(orders, position, item, anchor)
    ensures Ascending(orders, InsertBeside(list, position, item, anchor))
    decreases |list|
  {
    hide Ascending, Beside;
    var rest := list[1..];
    AscendingTail(orders, list);
    assert list == [list[0]] + rest;
    if list[0] == anchor {
      InsertAtAnchor(orders, position, rest, item, anchor);
    } else {
      InsertAscends(orders, position, rest, item, anchor);
      BesideIsNearest(orders, position, item, anchor, list[0]);
      AscendsFrom(orders, list[0], InsertBeside(rest, position, item, anchor));
    }
  }

  /** On the list of siblings, a move takes the item out and puts it back beside the anchor. */
  lemma MoveMovesInList(orders: Orders, list: seq<string>, position: Position, item: string, anchor: string)
    requires anchor in orders && item != anchor && IsListing(orders, list)
    requires Place(orders, position, item, anchor).Some?
    ensures IsListing(Place(orders, position, item, anchor).value,
        InsertBeside(Without(list, item), position, item, anchor))
  {
    var placed := Place(orders, position, item, anchor).value;
    var rest := Without(list, item);
    MovePlacesItem(orders, position, item, anchor);
    WithoutAscends(orders, list, item);
    assert Ascending(placed, rest);
    InsertAscends(placed, position, rest, item, anchor);
  }

  // ---------- how often one anchor can be used ----------

  /** Moves beside one anchor, one after the other. */
  ghost function PlaceAll(orders: Orders, position: Position, items: seq<string>, anchor: string)
    : (placed: Option<Orders>)
    requires anchor in orders && anchor !in items
    ensures placed.Some? ==> anchor in placed.value && placed.value[anchor] == orders[anchor]
    decreases |items|
  {
    if items == [] then Some(orders)
    else
      var before := PlaceAll(orders, position, items[..|items| - 1], anchor);
      if before.None? then None else Place(before.value, position, items[|items| - 1], anchor)
  }

  function Halved(gap: real, times: nat): real {
    if times == 0 then gap else Halved(gap, times - 1) / 2.0
  }

  /** A move halves the gap beside the anchor, if half the gap is wide enough. */
  lemma MoveHalvesGap(orders: Orders, position: Position, item: string, anchor: string)
    requires anchor in orders && item != anchor && Next(orders, position, orders[anchor]).Some?
    ensures
      var gap := Abs(Next(orders, position, orders[anchor]).value - orders[anchor]);
      var placed := Place(orders, position, item, anchor);
      && (placed.Some? <==> gap / 2.0 >= TWO_EPSILON)
      && (placed.Some? ==>
            var next := Next(placed.value, position, orders[anchor]);
            next.Some? && Abs(next.value - orders[anchor]) == gap / 2.0)
  {
    var next := Next(orders, position, orders[anchor]);
    var order := Target(position, orders[anchor], next);
    var placed := Place(orders, position, item, anchor);
    if placed.Some? {
      MovePlacesItem(orders, position, item, anchor);
      assert placed.value[item] == order;
      assert IsNext(placed.value, position, orders[anchor], Some(order));
      NextIsUnique(placed.value, position, orders[anchor], Some(order), Next(placed.value, position, orders[anchor]));
    }
  }

  /** All of a series of moves go through exactly when the gap, halved once for each, stays wide enough. */
  lemma {:induction false} MovesHalveGap(orders: Orders, position: Position, items: seq<string>, anchor: string)
    requires anchor in orders && anchor !in items && items != [] && Next(orders, position, orders[anchor]).Some?
    ensures
      var gap := Abs(Next(orders, position, orders[anchor]).value - orders[anchor]);
      var placed := PlaceAll(orders, position, items, anchor);
      && (placed.Some? <==> Halved(gap, |items|) >= TWO_EPSILON)
      && (placed.Some? ==>
            var next := Next(placed.value, position, orders[anchor]);
            next.Some? && Abs(next.value - orders[anchor]) == Halved(gap, |items|))
    decreases |items|
  {
    hide Next, Place;
    var n := |items| - 1;
    var before := PlaceAll(orders, position, items[..n], anchor);
    if n > 0 {
      MovesHalveGap(orders, position, items[..n], anchor);
    }
    if before.Some? {
      MoveHalvesGap(before.value, position, items[n], anchor);
    }
  }

  function Pow2(n: nat): (p: nat)
    ensures p > 0
  {
    if n == 0 then 1 else 2 * Pow2(n - 1)
  }

  lemma {:induction false} Pow2Adds(m: nat, n: nat)
    ensures Pow2(m + n) == Pow2(m) * Pow2(n)
  {
    if n > 0 { Pow2Adds(m, n - 1); }
  }

  lemma Pow2Of51()
    ensures Pow2(51) == 2251799813685248
  {
    assert Pow2(3) == 8 && Pow2(6) == 64;
    Pow2Adds(6, 6);
    Pow2Adds(12, 12);
    Pow2Adds(24, 24);
    Pow2Adds(48, 3);
  }

  lemma {:induction false} HalvedOne(times: nat)
    ensures Halved(1.0, times) * (Pow2(times) as real) == 1.0
  {
    if times > 0 { HalvedOne(times - 1); }
  }

  lemma {:induction false} Pow2Ascends(m: nat, n: nat)
    requires m < n
    ensures Pow2(m) < Pow2(n)
  {
    if m + 1 < n { Pow2Ascends(m, n - 1); }
  }

  lemma HalvedOneReaches(times: nat)
    ensures Halved(1.0, times) >= TWO_EPSILON <==> times <= 51
  {
    hide Pow2, Halved;
    HalvedOne(times);
    Pow2Of51();
    if times < 51 { Pow2Ascends(times, 51); }
    if times > 51 { Pow2Ascends(51, times); }
    Reciprocal(Halved(1.0, times), Pow2(times), 2251799813685248);
  }

  lemma SignOfProduct(x: real, y: real)
    requires y > 0.0
    ensures x * y >= 0.0 <==> x >= 0.0
  {
  }

  lemma Reciprocal(x: real, p: nat, q: nat)
    requires x * (p as real) == 1.0 && p > 0 && q > 0
    ensures x >= 1.0 / (q as real) <==> p <= q
  {
    var y := 1.0 / (q as real);
    assert y > 0.0 && y * (q as real) == 1.0;
    SignOfProduct(x - y, p as real);
    SignOfProduct(q as real - p as real, y);
    assert (x - y) * (p as real) == (q as real - p as real) * y;
  }

  /** From a gap of 1, exactly 51 moves beside one anchor go through before the siblings are renumbered;
      from an open side, one more. */
  lemma MovesBeforeShuffle(orders: Orders, position: Position, items: seq<string>, anchor: string)
    requires anchor in orders && anchor !in items
    ensures
      var next := Next(orders, position, orders[anchor]);
      && (next.Some? && Abs(next.value - orders[anchor]) == 1.0 ==>
            (PlaceAll(orders, position, items, anchor).Some? <==> |items| <= 51))
      && (next.None? ==> (PlaceAll(orders, position, items, anchor).Some? <==> |items| <= 52))
    decreases |items|
  {
    hide Next, Place;
    var next := Next(orders, position, orders[anchor]);
    if items != [] && next.Some? {
      MovesHalveGap(orders, position, items, anchor);
      HalvedOneReaches(|items|);
    } else if items != [] {
      OpenSide(orders, position, items[0], anchor);
      var first := Place(orders, position, items[0], anchor).value;
      PlaceFirst(orders, position, items, anchor);
      MovesBeforeShuffle(first, position, items[1..], anchor);
    }
  }

  lemma OpenSide(orders: Orders, position: Position, item: string, anchor: string)
    requires anchor in orders && item != anchor && Next(orders, position, orders[anchor]).None?
    ensures
      var placed := Place(orders, position, item, anchor);
      && placed.Some? && anchor in placed.value && placed.value[anchor] == orders[anchor]
      && var next := Next(placed.value, position, orders[anchor]); next.Some? && Abs(next.value - orders[anchor]) == 1.0
  {
    var order := Target(position, orders[anchor], None);
    var placed := Place(orders, position, item, anchor).value;
    assert placed[item] == order;
    assert IsNext(placed, position, orders[anchor], Some(order));
    NextIsUnique(placed, position, orders[anchor], Some(order), Next(placed, position, orders[anchor]));
  }

  lemma {:induction false} PlaceFirst(orders: Orders, position: Position, items: seq<string>, anchor: string)
    requires anchor in orders && items != [] && anchor !in items
    requires Place(orders, position, items[0], anchor).Some?
    ensures
      var first := Place(orders, position, items[0], anchor).value;
      anchor in first && PlaceAll(orders, position, items, anchor) == PlaceAll(first, position, items[1..], anchor)
    decreases |items|
  {
    var n := |items| - 1;
    if n > 0 {
      PlaceFirst(orders, position, items[..n], anchor);
      assert items[..n][1..] == items[1..][..n - 1];
    }
  }
}
