/** Rows of one ordering scope that keep a dense numbering in a nullable column. */
module SortableOrder {
  import opened Wrappers

  type Id = nat

  /** The sort_order column of the scope. */
  type Column = map<Id, Option<int>>

  // ----- what the column means -----

  /** The numbered rows, in order: the list the column stands for. */
  ghost predicate Numbers(col: Column, list: seq<Id>) {
    (forall i :: 0 <= i < |list| ==> list[i] in col && col[list[i]] == Some(i)) &&
    (forall id :: id in col && col[id].Some? ==> 0 <= col[id].value < |list| && list[col[id].value] == id)
  }

  /** The non-null sort orders are exactly 0, 1, ... without repeats. */
  ghost predicate Dense(col: Column) {
    exists list :: Numbers(col, list)
  }

  predicate HasNumber(col: Column, v: int) {
    exists id :: id in col && col[id] == Some(v)
  }

  predicate NoNumberRepeats(col: Column) {
    forall a, b :: a in col && b in col && col[a].Some? && col[a] == col[b] ==> a == b
  }

  /** Numbering spelled out without the list: no repeats, no gaps, starting at zero. */
  lemma NumbersIsDense(col: Column, list: seq<Id>)
    requires Numbers(col, list)
    ensures NoNumberRepeats(col) && forall v: int :: HasNumber(col, v) <==> 0 <= v < |list|
  {
    forall v: int ensures HasNumber(col, v) <==> 0 <= v < |list| {
      if 0 <= v < |list| {
        assert list[v] in col && col[list[v]] == Some(v);
      } else {
        forall id | id in col ensures col[id] != Some(v) {
          if col[id].Some? { assert 0 <= col[id].value < |list|; }
        }
      }
    }
    forall a, b | a in col && b in col && col[a].Some? && col[a] == col[b] ensures a == b {
      assert list[col[a].value] == a && list[col[b].value] == b;
    }
  }

  // ----- operations -----

  function MaxOrder(col: Column, ids: seq<Id>): Option<int> {
    if ids == [] then None else
      var rest := MaxOrder(col, ids[1..]);
      if ids[0] !in col || col[ids[0]].None? then rest
      else if rest.None? || rest.value < col[ids[0]].value then col[ids[0]]
      else rest
  }

  lemma {:induction false} MaxOrderFound(col: Column, ids: seq<Id>)
    ensures MaxOrder(col, ids).None? <==> forall id :: id in ids && id in col ==> col[id].None?
    ensures MaxOrder(col, ids).Some? ==> exists id :: id in ids && id in col && col[id] == MaxOrder(col, ids)
    ensures forall id :: id in ids && id in col && col[id].Some? ==>
      MaxOrder(col, ids).Some? && col[id].value <= MaxOrder(col, ids).value
  {
    if ids != [] {
      MaxOrderFound(col, ids[1..]);
      assert forall id :: id in ids <==> id == ids[0] || id in ids[1..];
    }
  }

  /** The row in the scope with this sort order, if any. */
  function At(col: Column, ids: seq<Id>, order: int): Option<Id> {
    if ids == [] then None
    else if ids[0] in col && col[ids[0]] == Some(order) then Some(ids[0])
    else At(col, ids[1..], order)
  }

  /** First row of the listing whose sort order is greater. */
  function FirstAfter(col: Column, listing: seq<Id>, order: int): Option<Id> {
    if listing == [] then None
    else if listing[0] in col && col[listing[0]].Some? && col[listing[0]].value > order then Some(listing[0])
    else FirstAfter(col, listing[1..], order)
  }

  /** Two rows exchange their sort orders. */
  function Swapped(col: Column, a: Id, b: Id): Column
    requires a in col && b in col
  {
    col[a := col[b]][b := col[a]]
  }

  function Decremented(col: Column, above: int): Column {
    map id | id in col ::
      if col[id].Some? && col[id].value > above then Some(col[id].value - 1) else col[id]
  }

  /** The listing names every row of the scope: the scope's rows in its default ordering. */
  ghost predicate Lists(col: Column, listing: seq<Id>) {
    forall id :: id in listing <==> id in col
  }

  /**
   * The scope's table. `list` is the list its column stands for. A `listing` argument is what a query over
   * the scope returns: all its rows, in the default ordering of the model.
   */
  class SortableScope {
    var column: Column
    ghost var list: seq<Id>

    ghost predicate Valid()
      reads this
    {
      Numbers(column, list)
    }

    constructor ()
      ensures Valid() && column == map[] && list == []
    {
      column, list := map[], [];
    }

    /** Saving a new instance gives it the next number. */
    method Create(id: Id, listing: seq<Id>)
      requires Valid() && id !in column && Lists(column, listing)
      modifies this
      ensures Valid() && list == old(list) + [id]
      ensures column == Step(old(column), Created(id), listing)
    {
      MaxOrderFound(column, listing);
      MaxOrderIsLast(column, list, listing);
      var max := MaxOrder(column, listing);
      var order := if max.None? then 0 else max.value + 1;
      column := column[id := Some(order)];
      list := list + [id];
    }

    method MoveUp(id: Id, listing: seq<Id>)
      requires Valid() && id in column && Lists(column, listing)
      modifies this
      ensures Valid()
      ensures column == Step(old(column), MovedUp(id), listing)
      ensures
        var k := old(column)[id];
        list == if k.Some? && k.value > 0 then Exchanged(old(list), k.value, k.value - 1) else old(list)
    {
      var order := column[id];
      if order.Some? && order.value > 0 {
        AtUnique(column, list, listing, order.value - 1);
        var prev := At(column, listing, order.value - 1);
        if prev.Some? {
          SwapNumbers(column, list, id, prev.value);
          column := Swapped(column, id, prev.value);
          list := Exchanged(list, order.value, order.value - 1);
        }
      }
    }

    method MoveDown(id: Id, listing: seq<Id>)
      requires Valid() && id in column && Lists(column, listing)
      modifies this
      ensures Valid()
      ensures column == Step(old(column), MovedDown(id), listing)
      ensures
        var k := old(column)[id];
        if k.Some? && k.value + 1 < |old(list)|
        then exists m :: k.value < m < |old(list)| && list == Exchanged(old(list), k.value, m)
        else list == old(list)
    {
      var order := column[id];
      if order.Some? {
        FirstAfterFound(column, listing, order.value);
        FirstAfterExists(column, list, listing, order.value);
        var next := FirstAfter(column, listing, order.value);
        if next.Some? {
          SwapNumbers(column, list, id, next.value);
          ghost var m := column[next.value].value;
          column := Swapped(column, id, next.value);
          list := Exchanged(list, order.value, m);
        }
      }
    }

    /** Deleting closes the gap: the rest keep their relative order. */
    method DeleteRow(id: Id)
      requires Valid() && id in column
      modifies this
      ensures Valid()
      ensures column == Step(old(column), Deleted(id), [])
      ensures
        var k := old(column)[id];
        list == if k.Some? then old(list)[..k.value] + old(list)[k.value + 1..] else old(list)
    {
      var order := column[id];
      if order.Some? {
        DeleteNumbers(column, list, id);
        column := Decremented(column, order.value);
        list := list[..order.value] + list[order.value + 1..];
      }
      column := column - {id};
    }
  }

  // ----- steps and runs -----

  datatype Action = Created(id: Id) | MovedUp(id: Id) | MovedDown(id: Id) | Deleted(id: Id)

  function Step(col: Column, a: Action, listing: seq<Id>): Column
    requires !a.Created? ==> a.id in col
  {
    match a
    case Created(id) =>
      var max := MaxOrder(col, listing);
      col[id := Some(if max.None? then 0 else max.value + 1)]
    case MovedUp(id) =>
      if col[id].None? || col[id].value <= 0 then col else
        var prev := At(col, listing, col[id].value - 1);
        if prev.None? || prev.value !in col then col else Swapped(col, id, prev.value)
    case MovedDown(id) =>
      if col[id].None? then col else
        var next := FirstAfter(col, listing, col[id].value);
        if next.None? || next.value !in col then col else Swapped(col, id, next.value)
    case Deleted(id) => (if col[id].Some? then Decremented(col, col[id].value) else col) - {id}
  }

  /** An action with the listing its query returns, if it makes one. */
  type Call = (Action, seq<Id>)

  ghost predicate Enabled(col: Column, c: Call) {
    Lists(col, c.1) && if c.0.Created? then c.0.id !in col else c.0.id in col
  }

  ghost predicate Legal(col: Column, calls: seq<Call>)
    decreases |calls|
  {
    calls == [] || (Enabled(col, calls[0]) && Legal(Step(col, calls[0].0, calls[0].1), calls[1..]))
  }

  ghost function Run(col: Column, calls: seq<Call>): Column
    requires Legal(col, calls)
    decreases |calls|
  {
    if calls == [] then col else Run(Step(col, calls[0].0, calls[0].1), calls[1..])
  }

  lemma UpKeepsDense(col: Column, list: seq<Id>, id: Id, listing: seq<Id>)
    requires Numbers(col, list) && Lists(col, listing) && id in col
    ensures Dense(Step(col, MovedUp(id), listing))
  {
    if col[id].Some? && col[id].value > 0 {
      AtUnique(col, list, listing, col[id].value - 1);
      SwapNumbers(col, list, id, list[col[id].value - 1]);
    }
  }

  lemma DownKeepsDense(col: Column, list: seq<Id>, id: Id, listing: seq<Id>)
    requires Numbers(col, list) && Lists(col, listing) && id in col
    ensures Dense(Step(col, MovedDown(id), listing))
  {
    if col[id].Some? {
      FirstAfterFound(col, listing, col[id].value);
      var next := FirstAfter(col, listing, col[id].value);
      if next.Some? {
        SwapNumbers(col, list, id, next.value);
      }
    }
  }

  lemma StepKeepsDense(col: Column, c: Call)
    requires Dense(col) && Enabled(col, c)
    ensures Dense(Step(col, c.0, c.1))
  {
    var list :| Numbers(col, list);
    var (a, listing) := c;
    var id := a.id;
    match a
    case Created(_) =>
      MaxOrderIsLast(col, list, listing);
      assert Numbers(Step(col, a, listing), list + [id]);
    case MovedUp(_) => UpKeepsDense(col, list, id, listing);
    case MovedDown(_) => DownKeepsDense(col, list, id, listing);
    case Deleted(_) =>
      if col[id].Some? {
        DeleteNumbers(col, list, id);
      } else {
        assert Numbers(Step(col, a, listing), list);
      }
  }

  /** Main result: in every run the non-null sort orders of the scope are exactly 0..k-1, each once. */
  lemma {:induction false} EveryRunIsDense(col: Column, calls: seq<Call>)
    requires Dense(col) && Legal(col, calls)
    ensures Dense(Run(col, calls))
    decreases |calls|
  {
    if calls != [] {
      StepKeepsDense(col, calls[0]);
      EveryRunIsDense(Step(col, calls[0].0, calls[0].1), calls[1..]);
    }
  }

  lemma EmptyScopeIsDense()
    ensures Dense(map[])
  {
    assert Numbers(map[], []);
  }

  /** Spelled out for runs from an empty scope: no number repeats, and the numbers are those below some k. */
  lemma RunsFromEmptyNumberRows(calls: seq<Call>) returns (k: nat)
    requires Legal(map[], calls)
    ensures
      var col := Run(map[], calls);
      NoNumberRepeats(col) && forall v: int :: HasNumber(col, v) <==> 0 <= v < k
  {
    EmptyScopeIsDense();
    EveryRunIsDense(map[], calls);
    var col := Run(map[], calls);
    var list :| Numbers(col, list);
    NumbersIsDense(col, list);
    k := |list|;
  }

  /** The state after moving down past a row with number m, and what moving up does to it. */
  lemma UpAfterSwap(col: Column, list: seq<Id>, id: Id, next: Id, listing: seq<Id>)
    requires Numbers(col, list) && id in col && next in col && Lists(Swapped(col, id, next), listing)
    requires col[id].Some? && col[next].Some? && col[id].value < col[next].value
    ensures
      var down := Swapped(col, id, next);
      Step(down, MovedUp(id), listing) == col <==> col[next].value == col[id].value + 1
  {
    var k, m := col[id].value, col[next].value;
    SwapNumbers(col, list, id, next);
    var down := Swapped(col, id, next);
    var prev := Exchanged(list, k, m)[m - 1];
    AtUnique(down, Exchanged(list, k, m), listing, m - 1);
    assert prev in down && down[prev] == Some(m - 1);
    if m == k + 1 {
      assert prev == next;
      assert Swapped(down, id, next) == col;
    } else {
      assert Swapped(down, id, prev)[id] == Some(m - 1);
    }
  }

  /** Moving up a row that is not the first changes its number. */
  lemma UpChanges(col: Column, list: seq<Id>, id: Id, listing: seq<Id>)
    requires Numbers(col, list) && Lists(col, listing) && id in col && col[id].Some? && col[id].value > 0
    ensures Step(col, MovedUp(id), listing) != col
  {
    var k := col[id].value;
    AtUnique(col, list, listing, k - 1);
    assert list[k - 1] in col && col[list[k - 1]] == Some(k - 1);
    assert Step(col, MovedUp(id), listing)[id] == Some(k - 1);
  }

  /** What moving down picks: the first row of the listing with a greater number. */
  function Successor(col: Column, id: Id, listing: seq<Id>): Option<Id>
    requires id in col
  {
    if col[id].Some? then FirstAfter(col, listing, col[id].value) else None
  }

  /**
   * Moving down and then up restores the scope exactly when the row has no number, or the row that moving
   * down picks is its neighbour in the numbering, or it is the only numbered row. The second query returns
   * its own listing.
   */
  lemma DownThenUpRestoresIff(col: Column, list: seq<Id>, id: Id, listing: seq<Id>, listing': seq<Id>)
    requires Numbers(col, list) && Lists(col, listing) && id in col
    requires Lists(Step(col, MovedDown(id), listing), listing')
    ensures id in Step(col, MovedDown(id), listing)
    ensures
      var next := Successor(col, id, listing);
      Step(Step(col, MovedDown(id), listing), MovedUp(id), listing') == col <==>
        col[id].None? || (if next.Some? then next.value in col && col[next.value] == Some(col[id].value + 1) else |list| == 1)
  {
    if col[id].Some? {
      var k := col[id].value;
      FirstAfterFound(col, listing, k);
      FirstAfterExists(col, list, listing, k);
      var next := FirstAfter(col, listing, k);
      if next.Some? {
        UpAfterSwap(col, list, id, next.value, listing');
      } else if k > 0 {
        UpChanges(col, list, id, listing');
      }
    }
  }

  /** A listing in the order of the numbers; rows without a number may stand anywhere. */
  predicate Sorted(col: Column, listing: seq<Id>) {
    forall i, j :: 0 <= i < j < |listing| && listing[i] in col && listing[j] in col &&
                   col[listing[i]].Some? && col[listing[j]].Some? ==>
      col[listing[i]].value <= col[listing[j]].value
  }

  /**
   * When rows are listed by their numbers, moving down and then up restores the scope for every row except
   * the last of several: that one cannot move down, but does move up.
   */
  lemma SortedDownThenUpRestoresIff(col: Column, list: seq<Id>, id: Id, listing: seq<Id>, listing': seq<Id>)
    requires Numbers(col, list) && Lists(col, listing) && Sorted(col, listing) && id in col
    requires Lists(Step(col, MovedDown(id), listing), listing')
    ensures id in Step(col, MovedDown(id), listing)
    ensures Step(Step(col, MovedDown(id), listing), MovedUp(id), listing') == col
      <==> !(col[id].Some? && col[id].value == |list| - 1 && |list| > 1)
  {
    DownThenUpRestoresIff(col, list, id, listing, listing');
    if col[id].Some? {
      SortedListingFindsNeighbour(col, list, id, listing);
    }
  }

  /** Three rows in the order of their ids, numbered otherwise: down then up ends in another order. */
  lemma DownThenUpScrambles()
    ensures
      var col: Column := map[1 := Some(0), 2 := Some(2), 3 := Some(1)];
      var listing := [1, 2, 3];
      var down := Step(col, MovedDown(1), listing);
      Lists(col, listing) && Lists(down, listing) && Numbers(col, [1, 3, 2]) &&
      Step(down, MovedUp(1), listing) == map[1 := Some(1), 2 := Some(0), 3 := Some(2)] != col
  {
    var col: Column := map[1 := Some(0), 2 := Some(2), 3 := Some(1)];
    assert [1, 2, 3][1..] == [2, 3] && [2, 3][1..] == [3];
    assert FirstAfter(col, [1, 2, 3], 0) == FirstAfter(col, [2, 3], 0) == Some(2);
    var down := Step(col, MovedDown(1), [1, 2, 3]);
    assert down == map[1 := Some(2), 2 := Some(0), 3 := Some(1)];
    assert At(down, [1, 2, 3], 1) == At(down, [2, 3], 1) == At(down, [3], 1) == Some(3);
    assert Step(down, MovedUp(1), [1, 2, 3])[3] == Some(2);
  }

  /** With the default ordering of most models, by sort order, the successor is the neighbour. */
  lemma SortedListingFindsNeighbour(col: Column, list: seq<Id>, id: Id, listing: seq<Id>)
    requires Numbers(col, list) && Lists(col, listing) && id in col && col[id].Some?
    requires Sorted(col, listing)
    ensures FirstAfter(col, listing, col[id].value)
      == if col[id].value + 1 < |list| then Some(list[col[id].value + 1]) else None
  {
    var k := col[id].value;
    FirstAfterFound(col, listing, k);
    FirstAfterExists(col, list, listing, k);
    if k + 1 < |list| {
      assert list[k + 1] in listing;
      var j :| 0 <= j < |listing| && listing[j] == list[k + 1];
      FirstAfterMinimal(col, listing, k, j);
    }
  }

  // ----- the operations on the list -----

  lemma {:induction false} AtFound(col: Column, ids: seq<Id>, order: int)
    ensures At(col, ids, order).Some? ==>
      At(col, ids, order).value in col && col[At(col, ids, order).value] == Some(order)
    ensures At(col, ids, order).None? ==> forall id :: id in ids && id in col ==> col[id] != Some(order)
  {
    if ids != [] {
      AtFound(col, ids[1..], order);
      assert forall id :: id in ids <==> id == ids[0] || id in ids[1..];
    }
  }

  lemma AtUnique(col: Column, list: seq<Id>, listing: seq<Id>, order: nat)
    requires Numbers(col, list) && Lists(col, listing) && order < |list|
    ensures At(col, listing, order) == Some(list[order])
  {
    AtFound(col, listing, order);
    assert col[list[order]] == Some(order);
  }

  lemma {:induction false} FirstAfterFound(col: Column, listing: seq<Id>, order: int)
    ensures FirstAfter(col, listing, order).Some? ==>
      var next := FirstAfter(col, listing, order).value;
      next in listing && next in col && col[next].Some? && col[next].value > order
    ensures FirstAfter(col, listing, order).None? ==>
      forall id :: id in listing && id in col && col[id].Some? ==> col[id].value <= order
  {
    if listing != [] {
      FirstAfterFound(col, listing[1..], order);
      assert forall id :: id in listing <==> id == listing[0] || id in listing[1..];
    }
  }

  lemma FirstAfterExists(col: Column, list: seq<Id>, listing: seq<Id>, order: nat)
    requires Numbers(col, list) && Lists(col, listing)
    ensures FirstAfter(col, listing, order).Some? <==> order + 1 < |list|
  {
    FirstAfterFound(col, listing, order);
    if order + 1 < |list| {
      assert list[order + 1] in listing;
    }
  }

  /** Nothing earlier in the listing qualifies. */
  lemma {:induction false} FirstAfterMinimal(col: Column, listing: seq<Id>, order: int, j: nat)
    requires j < |listing| && listing[j] in col && col[listing[j]].Some? && col[listing[j]].value > order
    ensures FirstAfter(col, listing, order).Some?
    ensures exists i :: 0 <= i <= j && FirstAfter(col, listing, order) == Some(listing[i])
  {
    if !(listing[0] in col && col[listing[0]].Some? && col[listing[0]].value > order) {
      FirstAfterMinimal(col, listing[1..], order, j - 1);
      var i :| 0 <= i <= j - 1 && FirstAfter(col, listing[1..], order) == Some(listing[1..][i]);
      assert listing[1..][i] == listing[i + 1];
    }
  }

  lemma MaxOrderIsLast(col: Column, list: seq<Id>, listing: seq<Id>)
    requires Numbers(col, list) && Lists(col, listing)
    ensures MaxOrder(col, listing) == if list == [] then None else Some(|list| - 1)
  {
    MaxOrderFound(col, listing);
    if list != [] {
      var last := list[|list| - 1];
      assert last in listing && col[last] == Some(|list| - 1);
    }
  }

  function Exchanged(list: seq<Id>, i: int, j: int): seq<Id>
    requires 0 <= i < |list| && 0 <= j < |list|
  {
    list[i := list[j]][j := list[i]]
  }

  lemma SwapNumbers(col: Column, list: seq<Id>, a: Id, b: Id)
    requires Numbers(col, list) && a in col && b in col && a != b && col[a].Some? && col[b].Some?
    ensures 0 <= col[a].value < |list| && 0 <= col[b].value < |list|
    ensures Numbers(Swapped(col, a, b), Exchanged(list, col[a].value, col[b].value))
  {
  }

  /** The column after the deletion, entry by entry. */
  lemma DeletedAt(col: Column, id: Id, k: int, j: Id)
    ensures
      var after := Decremented(col, k) - {id};
      (j in after <==> j in col && j != id) &&
      (j in after ==> after[j] == if col[j].Some? && col[j].value > k then Some(col[j].value - 1) else col[j])
  {
  }

  lemma DeleteNumbersForward(col: Column, list: seq<Id>, id: Id, k: nat, i: nat)
    requires Numbers(col, list) && id in col && col[id] == Some(k) && k < |list| && i < |list| - 1
    ensures
      var after := Decremented(col, k) - {id};
      var rest := list[..k] + list[k + 1..];
      rest[i] in after && after[rest[i]] == Some(i)
  {
    var from := if i < k then i else i + 1;
    assert (list[..k] + list[k + 1..])[i] == list[from];
    assert list[from] in col && col[list[from]] == Some(from);
    DeletedAt(col, id, k, list[from]);
  }

  lemma DeleteNumbersBackward(col: Column, list: seq<Id>, id: Id, k: nat, j: Id)
    requires Numbers(col, list) && id in col && col[id] == Some(k) && k < |list|
    ensures
      var after := Decremented(col, k) - {id};
      var rest := list[..k] + list[k + 1..];
      j in after && after[j].Some? ==> 0 <= after[j].value < |rest| && rest[after[j].value] == j
  {
    DeletedAt(col, id, k, j);
    if j in col && j != id && col[j].Some? {
      var v := col[j].value;
      assert 0 <= v < |list| && list[v] == j && list[k] == id;
      var rest := list[..k] + list[k + 1..];
      if v < k {
        assert rest[v] == list[v];
      } else {
        assert rest[v - 1] == list[v];
      }
    }
  }

  lemma DeleteNumbers(col: Column, list: seq<Id>, id: Id)
    requires Numbers(col, list) && id in col && col[id].Some?
    ensures 0 <= col[id].value < |list|
    ensures Numbers(Decremented(col, col[id].value) - {id}, list[..col[id].value] + list[col[id].value + 1..])
  {
    var k := col[id].value;
    var rest := list[..k] + list[k + 1..];
    var after := Decremented(col, k) - {id};
    forall i | 0 <= i < |rest| ensures rest[i] in after && after[rest[i]] == Some(i) {
      DeleteNumbersForward(col, list, id, k, i);
    }
    forall j | j in after && after[j].Some? ensures 0 <= after[j].value < |rest| && rest[after[j].value] == j {
      DeleteNumbersBackward(col, list, id, k, j);
    }
  }
}
