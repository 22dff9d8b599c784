/** The cart service of one request, over the cart tables. */
module CartService {
  import opened Wrappers
  import opened CartMerge

  /** Who asks, and which guest cart the request names. */
  datatype Request = Request(user: Option<nat>, cartId: Option<string>)

  datatype CartError = CartNotSet

  ghost predicate IsCart(t: Tables, c: nat, user: Option<nat>) {
    c in t.carts && t.carts[c].user == user
  }

  /** The guest cart with this uuid. */
  ghost function GuestCart(t: Tables, uuid: string): Option<nat> {
    if c :| c in t.carts && IsCart(t, c, None) && t.carts[c].uuid == uuid then Some(c) else None
  }

  ghost function UserCart(t: Tables, user: nat): Option<nat> {
    if c :| c in t.carts && IsCart(t, c, Some(user)) then Some(c) else None
  }

  /** The guest cart that the request names, if it exists. */
  ghost function NamedGuest(t: Tables, r: Request): Option<nat> {
    if r.cartId.Some? then GuestCart(t, r.cartId.value) else None
  }

  ghost function Created(t: Tables, user: Option<nat>, newId: nat, newUuid: string): Tables {
    t.(carts := t.carts[newId := Cart(user, newUuid)])
  }

  /** The tables after get-or-create, and the cart it returns. */
  ghost function Obtained(t: Tables, r: Request, newId: nat, newUuid: string, stock: nat -> int): (Tables, nat) {
    var guest := NamedGuest(t, r);
    if r.user.None? then
      if guest.Some? then (t, guest.value) else (Created(t, None, newId, newUuid), newId)
    else
      var mine := UserCart(t, r.user.value);
      var (base, c) := if mine.Some? then (t, mine.value) else (Created(t, r.user, newId, newUuid), newId);
      (if guest.Some? then MergedTables(base, guest.value, c, stock) else base, c)
  }

  /** The tables and the current cart after the service has been set up for a request. */
  ghost function SetUp(t: Tables, r: Request, newId: nat, newUuid: string, stock: nat -> int): (Tables, Option<nat>) {
    var guest := NamedGuest(t, r);
    if r.user.None? then (t, guest)
    else if guest.None? then (t, UserCart(t, r.user.value))
    else
      var (after, c) := Obtained(t, r, newId, newUuid, stock);
      (after, Some(c))
  }

  // ----- what a caller can expect, in terms of the tables -----

  /** The request names this guest cart by its uuid. */
  ghost predicate Names(t: Tables, r: Request, g: nat) {
    IsCart(t, g, None) && r.cartId == Some(t.carts[g].uuid)
  }

  ghost predicate NamesSome(t: Tables, r: Request) {
    exists g :: Names(t, r, g)
  }

  /** The cart belongs to the user who asks. */
  ghost predicate Owns(t: Tables, r: Request, c: nat) {
    r.user.Some? && IsCart(t, c, r.user)
  }

  ghost predicate OwnsSome(t: Tables, r: Request) {
    exists c :: Owns(t, r, c)
  }

  /** The named guest cart is gone, its lines have been merged into cart c, and every other cart is as it was. */
  ghost predicate TookOver(before: Tables, after: Tables, g: nat, c: nat, stock: nat -> int) {
    g !in after.carts && c in after.carts &&
    (forall product :: MergedFor(before.lines, after.lines, g, c, stock(product), product)) &&
    forall d :: d in before.carts && d != g ==> d in after.carts && after.carts[d] == before.carts[d]
  }

  /**
   * The set-up of a request: an anonymous caller has the guest cart they name, or none, and nothing changes. A
   * user has the cart they own; without one they get a new cart exactly when they name a guest cart. A guest
   * cart that a user names is taken over; without one nothing changes.
   */
  ghost predicate SetUpRight(
    before: Tables, r: Request, newId: nat, after: Tables, current: Option<nat>, stock: nat -> int
  ) {
    (r.user.None? ==> after == before) &&
    (r.user.None? ==> forall g: nat :: Names(before, r, g) ==> current == Some(g)) &&
    (r.user.None? && !NamesSome(before, r) ==> current.None?) &&
    (forall c: nat :: Owns(before, r, c) ==> current == Some(c)) &&
    (r.user.Some? && !OwnsSome(before, r) ==> current == if NamesSome(before, r) then Some(newId) else None) &&
    (r.user.Some? && current.Some? ==> Owns(after, r, current.value)) &&
    (r.user.Some? && !NamesSome(before, r) ==> after == before) &&
    (r.user.Some? ==> forall g: nat :: Names(before, r, g) ==>
      current.Some? && TookOver(before, after, g, current.value, stock))
  }

  class CartService {
    var carts: map<nat, Cart>
    var lines: Lines
    var current: Option<nat>

    ghost function View(): Tables
      reads this
    {
      Tables(carts, lines)
    }

    ghost predicate Valid()
      reads this
    {
      Sound(View())
    }

    /**
     * Merge one cart into another (by default into the current one). The source lines are processed in an
     * arbitrary order; the result does not depend on it.
     */
    method MergeCarts(source: Option<nat>, target: Option<nat>, stock: nat -> int)
      returns (moved: nat, combined: nat, capped: nat)
      requires Valid() && (source.Some? ==> source.value in carts)
      requires var t := if target.None? then current else target; t.Some? ==> t.value in carts
      modifies this`carts, this`lines
      ensures Valid()
      ensures
        var t := if target.None? then current else target;
        if t.None? || source.None? || t == source
        then View() == old(View()) && moved == combined == capped == 0
        else
          var from := SourceLines(old(lines), source.value);
          View() == MergedTables(old(View()), source.value, t.value, stock) &&
          moved + combined == |from| &&
          combined == |CombinedAmong(old(lines), t.value, from)| &&
          capped == |CappedAmong(old(lines), t.value, stock, from)|
    {
      moved, combined, capped := 0, 0, 0;
      var t := if target.None? then current else target;
      if t.None? || source.None? || t.value == source.value {
        return;
      }
      ghost var before := View();
      var src, tgt := source.value, t.value;
      moved, combined, capped := MergeLines(src, tgt, stock);
      carts := carts - {src};
      MergedTablesSound(before, src, tgt, stock);
    }

    /** The loop over the source lines. */
    method MergeLines(src: nat, tgt: nat, stock: nat -> int) returns (moved: nat, combined: nat, capped: nat)
      requires OneLinePerProduct(lines) && src != tgt
      modifies this`lines
      ensures lines == MergedLines(old(lines), src, tgt, stock)
      ensures
        var from := SourceLines(old(lines), src);
        moved + combined == |from| &&
        combined == |CombinedAmong(old(lines), tgt, from)| && capped == |CappedAmong(old(lines), tgt, stock, from)|
    {
      moved, combined, capped := 0, 0, 0;
      ghost var before := lines;
      var from := SourceLines(lines, src);
      var rest := from;
      ProgressStarts(lines, src, tgt, stock, from - rest);
      while rest != {}
        invariant rest <= from
        invariant Progress(before, lines, src, tgt, stock, from - rest, moved, combined, capped)
        decreases |rest|
      {
        var i :| i in rest;
        moved, combined, capped := MergeRound(src, tgt, stock, i, moved, combined, capped, before, from - rest);
        TakeOne(from, rest, i);
        rest := rest - {i};
      }
      assert from - rest == from;
    }

    /** The body of the loop: merge one source line and count it. */
    method MergeRound(
      src: nat, tgt: nat, stock: nat -> int, i: nat, moved: nat, combined: nat, capped: nat,
      ghost before: Lines, ghost done: set<nat>
    )
      returns (moved': nat, combined': nat, capped': nat)
      requires OneLinePerProduct(before) && src != tgt && done <= SourceLines(before, src)
      requires i in SourceLines(before, src) && i !in done
      requires Progress(before, lines, src, tgt, stock, done, moved, combined, capped)
      modifies this`lines
      ensures Progress(before, lines, src, tgt, stock, done + {i}, moved', combined', capped')
    {
      CountedStep(before, tgt, stock, done, i, moved, combined, capped);
      moved', combined', capped' := moved, combined, capped;
      var met, cut := MergeLine(src, tgt, stock, i, before, done);
      if met {
        combined' := combined + 1;
        if cut { capped' := capped + 1; }
      } else {
        moved' := moved + 1;
      }
    }

    /** One source line: `met` says whether the target had a line for the product, `cut` whether the cap applied. */
    method MergeLine(src: nat, tgt: nat, stock: nat -> int, i: nat, ghost before: Lines, ghost done: set<nat>)
      returns (met: bool, cut: bool)
      requires OneLinePerProduct(before) && src != tgt && done <= SourceLines(before, src)
      requires i in SourceLines(before, src) && i !in done && lines == MergedPart(before, src, tgt, stock, done)
      modifies this`lines
      ensures lines == MergedPart(before, src, tgt, stock, done + {i})
      ensures met <==> HasLine(before, tgt, before[i].product)
      ensures cut ==> met
      ensures cut <==> Excess(before, tgt, stock)(i) > 0
    {
      PartHasLine(before, lines, src, tgt, stock, done, i);
      var product := lines[i].product;
      cut := false;
      if e :| e in lines && IsLine(lines, e, tgt, product) {
        met := true;
        CombineRound(before, lines, src, tgt, stock, done, i, e);
        cut := CombineLine(stock, i, e);
      } else {
        met := false;
        MoveRound(before, lines, src, tgt, stock, done, i);
        lines := lines[i := lines[i].(cart := tgt)];
      }
    }

    /** The quantities of two lines of one product are added, up to a positive stock, and one line goes. */
    method CombineLine(stock: nat -> int, i: nat, e: nat) returns (cut: bool)
      requires i in lines && e in lines
      modifies this`lines
      ensures lines == Combined(old(lines), stock, i, e)
      ensures cut <==> 0 < stock(old(lines)[i].product) < old(lines)[e].quantity + old(lines)[i].quantity
    {
      var available := stock(lines[i].product);
      var quantity := lines[e].quantity + lines[i].quantity;
      cut := available > 0 && quantity > available;
      if cut {
        quantity := available;
      }
      lines := lines[e := lines[e].(quantity := quantity)] - {i};
    }

    method FindGuestCart(uuid: string) returns (c: Option<nat>)
      requires Valid()
      ensures c == GuestCart(View(), uuid)
      ensures c.Some? ==> IsCart(View(), c.value, None)
    {
      if g :| g in carts && carts[g].user.None? && carts[g].uuid == uuid {
        assert IsCart(View(), g, None);
        return Some(g);
      }
      return None;
    }

    method FindUserCart(user: nat) returns (c: Option<nat>)
      requires Valid()
      ensures c == UserCart(View(), user)
      ensures c.Some? ==> IsCart(View(), c.value, Some(user))
    {
      if g :| g in carts && carts[g].user == Some(user) {
        assert IsCart(View(), g, Some(user));
        return Some(g);
      }
      return None;
    }

    method GetExistingCart(r: Request, stock: nat -> int) returns (c: Option<nat>)
      requires Valid()
      modifies this`carts, this`lines
      ensures Valid()
      ensures
        var guest := if r.cartId.Some? then GuestCart(old(View()), r.cartId.value) else None;
        if r.user.None? then View() == old(View()) && c == guest
        else
          c == UserCart(old(View()), r.user.value) &&
          View() == if c.Some? && guest.Some? then MergedTables(old(View()), guest.value, c.value, stock) else old(View())
    {
      if r.user.Some? {
        c := FindUserCart(r.user.value);
        if c.Some? && r.cartId.Some? {
          var guest := FindGuestCart(r.cartId.value);
          if guest.Some? {
            var _, _, _ := MergeCarts(guest, c, stock);
          }
        }
      } else if r.cartId.Some? {
        c := FindGuestCart(r.cartId.value);
      } else {
        c := None;
      }
    }

    /**
     * A user gets their cart, created if needed, with the guest cart they name merged in; an anonymous caller
     * gets the guest cart they name, or a new one.
     */
    method GetOrCreateCart(r: Request, newId: nat, newUuid: string, stock: nat -> int) returns (c: nat)
      requires Valid() && newId !in carts && forall g :: g in carts ==> carts[g].uuid != newUuid
      modifies this`carts, this`lines
      ensures Valid() && c in carts
      ensures (View(), c) == Obtained(old(View()), r, newId, newUuid, stock)
    {
      if r.user.Some? {
        ghost var before := View();
        c := FindOrCreateUserCart(r.user.value, newId, newUuid);
        if r.cartId.Some? {
          CreationKeepsGuests(before, View(), r.cartId.value);
          var guest := FindGuestCart(r.cartId.value);
          if guest.Some? {
            var _, _, _ := MergeCarts(guest, Some(c), stock);
          }
        }
      } else {
        if r.cartId.Some? {
          var guest := FindGuestCart(r.cartId.value);
          if guest.Some? {
            return guest.value;
          }
        }
        CreatedSound(View(), None, newId, newUuid);
        carts := carts[newId := Cart(None, newUuid)];
        c := newId;
      }
    }

    method FindOrCreateUserCart(user: nat, newId: nat, newUuid: string) returns (c: nat)
      requires Valid() && newId !in carts && forall g :: g in carts ==> carts[g].uuid != newUuid
      modifies this`carts
      ensures Valid() && IsCart(View(), c, Some(user))
      ensures
        var mine := UserCart(old(View()), user);
        if mine.Some? then View() == old(View()) && c == mine.value
        else View() == Created(old(View()), Some(user), newId, newUuid) && c == newId
    {
      var mine := FindUserCart(user);
      if mine.Some? {
        return mine.value;
      }
      CreatedSound(View(), Some(user), newId, newUuid);
      carts := carts[newId := Cart(Some(user), newUuid)];
      c := newId;
    }

    /** Add a product to the current cart; without one this is an error. */
    method CreateCartItem(product: nat, quantity: nat, newId: nat) returns (r: Result<nat, CartError>)
      requires Valid() && newId !in lines && (current.Some? ==> current.value in carts)
      modifies this`lines
      ensures Valid() && (r.Err? <==> current.None?)
      ensures r.Err? ==> lines == old(lines)
      ensures r.Ok? ==>
        lines == Added(old(lines), current.value, product, quantity, newId) &&
        IsLine(lines, r.value, current.value, product)
    {
      if current.None? {
        return Err(CartNotSet);
      }
      AddedSound(View(), current.value, product, quantity, newId);
      AddedIs(lines, current.value, product, quantity, newId);
      if e :| e in lines && IsLine(lines, e, current.value, product) {
        lines := lines[e := lines[e].(quantity := lines[e].quantity + quantity)];
        return Ok(e);
      }
      lines := lines[newId := Line(current.value, product, quantity)];
      return Ok(newId);
    }

    method Initialize(r: Request, newId: nat, newUuid: string, stock: nat -> int)
      requires Valid() && newId !in carts && forall g :: g in carts ==> carts[g].uuid != newUuid
      modifies this
      ensures Valid()
      ensures SetUpRight(old(View()), r, newId, View(), current, stock)
      ensures (View(), current) == SetUp(old(View()), r, newId, newUuid, stock)
    {
      SetUpIsRight(View(), r, newId, newUuid, stock);
      if r.user.Some? && r.cartId.Some? {
        var guest := FindGuestCart(r.cartId.value);
        if guest.Some? {
          var c := GetOrCreateCart(r, newId, newUuid, stock);
          current := Some(c);
        } else {
          current := GetExistingCart(r, stock);
        }
      } else {
        current := GetExistingCart(r, stock);
      }
    }
  }

  // ----- helpers for the loop -----

  /** The lines among `some` that meet a line of the target. */
  ghost function CombinedAmong(lines: Lines, tgt: nat, some: set<nat>): set<nat> {
    set i | i in some && i in lines && HasLine(lines, tgt, lines[i].product)
  }

  /** The lines among `some` whose combination is capped. */
  ghost function CappedAmong(lines: Lines, tgt: nat, stock: nat -> int, some: set<nat>): set<nat> {
    set i | i in some && Excess(lines, tgt, stock)(i) > 0
  }

  /** The counts of a merge: source lines whose product the target has, and those of them whose sum exceeds a positive stock. */
  lemma CountsMean(lines: Lines, src: nat, tgt: nat, stock: nat -> int)
    requires OneLinePerProduct(lines)
    ensures CombinedAmong(lines, tgt, SourceLines(lines, src)) ==
      set i | i in lines && lines[i].cart == src && Quantity(lines, tgt, lines[i].product).Some?
    ensures CappedAmong(lines, tgt, stock, SourceLines(lines, src)) ==
      set i | i in lines && lines[i].cart == src && Quantity(lines, tgt, lines[i].product).Some? &&
        0 < stock(lines[i].product) < Quantity(lines, tgt, lines[i].product).value + lines[i].quantity
  {
  }

  lemma RoundCounts(lines: Lines, tgt: nat, stock: nat -> int, done: set<nat>, i: nat)
    requires i in lines && i !in done
    ensures |CombinedAmong(lines, tgt, done + {i})|
      == |CombinedAmong(lines, tgt, done)| + if HasLine(lines, tgt, lines[i].product) then 1 else 0
    ensures |CappedAmong(lines, tgt, stock, done + {i})|
      == |CappedAmong(lines, tgt, stock, done)| + if Excess(lines, tgt, stock)(i) > 0 then 1 else 0
  {
    assert CombinedAmong(lines, tgt, done + {i}) == CombinedAmong(lines, tgt, done) + CombinedAmong(lines, tgt, {i});
    assert CombinedAmong(lines, tgt, {i}) == if HasLine(lines, tgt, lines[i].product) then {i} else {};
    CappedCount(done, i, Excess(lines, tgt, stock));
    assert CappedAmong(lines, tgt, stock, done) == set j | j in done && Excess(lines, tgt, stock)(j) > 0;
    assert CappedAmong(lines, tgt, stock, done + {i}) == set j | j in done + {i} && Excess(lines, tgt, stock)(j) > 0;
  }

  lemma CappedCount(done: set<nat>, i: nat, excess: nat -> int)
    requires i !in done
    ensures |set j | j in done + {i} && excess(j) > 0|
      == |set j | j in done && excess(j) > 0| + if excess(i) > 0 then 1 else 0
  {
    var capped := set j | j in done && excess(j) > 0;
    assert (set j | j in done + {i} && excess(j) > 0) == if excess(i) > 0 then capped + {i} else capped;
  }

  ghost predicate Counted(
    lines: Lines, tgt: nat, stock: nat -> int, done: set<nat>, moved: nat, combined: nat, capped: nat
  ) {
    moved + combined == |done| && combined == |CombinedAmong(lines, tgt, done)| &&
    capped == |CappedAmong(lines, tgt, stock, done)|
  }

  /** The lines and the counters once the source lines in `done` have been merged. */
  ghost predicate Progress(
    before: Lines, lines: Lines, src: nat, tgt: nat, stock: nat -> int, done: set<nat>,
    moved: nat, combined: nat, capped: nat
  ) {
    lines == MergedPart(before, src, tgt, stock, done) && Counted(before, tgt, stock, done, moved, combined, capped)
  }

  lemma ProgressStarts(lines: Lines, src: nat, tgt: nat, stock: nat -> int, done: set<nat>)
    requires done == {}
    ensures Progress(lines, lines, src, tgt, stock, done, 0, 0, 0)
  {
    NothingMerged(lines, src, tgt, stock);
  }

  lemma TakeOne(from: set<nat>, rest: set<nat>, i: nat)
    requires i in rest && rest <= from
    ensures from - (rest - {i}) == from - rest + {i}
  {
  }

  lemma CountedStep(
    lines: Lines, tgt: nat, stock: nat -> int, done: set<nat>, i: nat, moved: nat, combined: nat, capped: nat
  )
    requires i in lines && i !in done && Counted(lines, tgt, stock, done, moved, combined, capped)
    ensures !HasLine(lines, tgt, lines[i].product) && Excess(lines, tgt, stock)(i) <= 0
      ==> Counted(lines, tgt, stock, done + {i}, moved + 1, combined, capped)
    ensures HasLine(lines, tgt, lines[i].product) && Excess(lines, tgt, stock)(i) <= 0
      ==> Counted(lines, tgt, stock, done + {i}, moved, combined + 1, capped)
    ensures HasLine(lines, tgt, lines[i].product) && Excess(lines, tgt, stock)(i) > 0
      ==> Counted(lines, tgt, stock, done + {i}, moved, combined + 1, capped + 1)
  {
    RoundCounts(lines, tgt, stock, done, i);
  }

  /** Combining with the target's line for the product, and when the cap bites. */
  lemma CombineRound(
    before: Lines, part: Lines, src: nat, tgt: nat, stock: nat -> int, done: set<nat>, i: nat, e: nat
  )
    requires OneLinePerProduct(before) && src != tgt && done <= SourceLines(before, src)
    requires i in SourceLines(before, src) && i !in done && part == MergedPart(before, src, tgt, stock, done)
    requires IsLine(part, e, tgt, before[i].product)
    ensures i in part && Combined(part, stock, i, e) == MergedPart(before, src, tgt, stock, done + {i})
    ensures HasLine(before, tgt, before[i].product)
    ensures Excess(before, tgt, stock)(i) > 0 <==>
      0 < stock(before[i].product) < part[e].quantity + before[i].quantity
  {
    PartKeepsLookups(before, src, tgt, stock, done, i);
    assert IsLine(before, e, tgt, before[i].product);
    CombinedExtendsPart(before, src, tgt, stock, done, i, e);
    QuantityAt(before, e);
  }

  /** A moved line is never capped. */
  lemma MoveRound(before: Lines, part: Lines, src: nat, tgt: nat, stock: nat -> int, done: set<nat>, i: nat)
    requires OneLinePerProduct(before) && src != tgt && done <= SourceLines(before, src)
    requires i in SourceLines(before, src) && i !in done && part == MergedPart(before, src, tgt, stock, done)
    requires forall e :: e in part ==> !IsLine(part, e, tgt, before[i].product)
    ensures i in part && Moved(part, tgt, i) == MergedPart(before, src, tgt, stock, done + {i})
    ensures !HasLine(before, tgt, before[i].product) && Excess(before, tgt, stock)(i) == 0
  {
    PartKeepsLookups(before, src, tgt, stock, done, i);
    assert forall e :: !IsLine(before, e, tgt, before[i].product);
    MovedExtendsPart(before, src, tgt, stock, done, i);
  }

  lemma PartHasLine(before: Lines, part: Lines, src: nat, tgt: nat, stock: nat -> int, done: set<nat>, i: nat)
    requires OneLinePerProduct(before) && src != tgt && done <= SourceLines(before, src)
    requires i in SourceLines(before, src) && i !in done && part == MergedPart(before, src, tgt, stock, done)
    ensures i in part && part[i] == before[i]
  {
    PartKeepsLookups(before, src, tgt, stock, done, i);
  }

  // ----- soundness of the tables -----

  lemma MergedTablesSound(t: Tables, src: nat, tgt: nat, stock: nat -> int)
    requires Sound(t) && src != tgt && src in t.carts && tgt in t.carts
    ensures Sound(MergedTables(t, src, tgt, stock))
  {
    MergedKeepsOneLine(t.lines, src, tgt, stock);
    var merged := MergedTables(t, src, tgt, stock);
    forall i | i in merged.lines ensures merged.lines[i].cart in merged.carts {
      assert merged.lines[i].cart == t.lines[i].cart || merged.lines[i].cart == tgt;
    }
  }

  lemma AddedSound(t: Tables, c: nat, product: nat, quantity: nat, newId: nat)
    requires Sound(t) && c in t.carts && newId !in t.lines
    ensures Sound(t.(lines := Added(t.lines, c, product, quantity, newId)))
  {
    AddedQuantities(t.lines, c, product, quantity, newId);
  }

  lemma CreatedSound(t: Tables, user: Option<nat>, newId: nat, newUuid: string)
    requires Sound(t) && newId !in t.carts && (forall g :: g in t.carts ==> t.carts[g].uuid != newUuid)
    requires user.Some? ==> UserCart(t, user.value).None?
    ensures Sound(Created(t, user, newId, newUuid))
  {
    assert user.Some? ==> forall c :: c in t.carts ==> !IsCart(t, c, user);
  }

  lemma GuestCartIs(t: Tables, c: nat)
    requires Sound(t) && IsCart(t, c, None)
    ensures GuestCart(t, t.carts[c].uuid) == Some(c)
  {
  }

  lemma UserCartIs(t: Tables, c: nat, user: nat)
    requires Sound(t) && IsCart(t, c, Some(user))
    ensures UserCart(t, user) == Some(c)
  {
  }

  /** Creating a cart for a user does not change which guest cart a uuid names. */
  lemma CreationKeepsGuests(t: Tables, t': Tables, uuid: string)
    requires Sound(t) && Sound(t')
    requires forall c :: IsCart(t', c, None) <==> IsCart(t, c, None)
    requires forall c :: IsCart(t, c, None) ==> c in t'.carts && t'.carts[c] == t.carts[c]
    ensures GuestCart(t', uuid) == GuestCart(t, uuid)
  {
    if c :| c in t.carts && IsCart(t, c, None) && t.carts[c].uuid == uuid {
      GuestCartIs(t, c);
      assert IsCart(t', c, None);
      GuestCartIs(t', c);
    } else {
      forall c | IsCart(t', c, None) ensures t'.carts[c].uuid != uuid {
        assert IsCart(t, c, None);
      }
    }
  }

  // ----- results -----

  lemma NamedGuestIs(t: Tables, r: Request)
    requires Sound(t)
    ensures NamedGuest(t, r).Some? <==> NamesSome(t, r)
    ensures forall g: nat :: Names(t, r, g) ==> NamedGuest(t, r) == Some(g)
    ensures NamedGuest(t, r).Some? ==> Names(t, r, NamedGuest(t, r).value)
  {
    forall g: nat | Names(t, r, g) ensures NamedGuest(t, r) == Some(g) {
      GuestCartIs(t, g);
    }
    if NamedGuest(t, r).Some? {
      var g := NamedGuest(t, r).value;
      assert g in t.carts && IsCart(t, g, None) && t.carts[g].uuid == r.cartId.value;
      assert Names(t, r, g);
    }
  }

  lemma OwnCartIs(t: Tables, r: Request)
    requires Sound(t) && r.user.Some?
    ensures UserCart(t, r.user.value).Some? <==> OwnsSome(t, r)
    ensures forall c: nat :: Owns(t, r, c) ==> UserCart(t, r.user.value) == Some(c)
    ensures UserCart(t, r.user.value).Some? ==> Owns(t, r, UserCart(t, r.user.value).value)
  {
    forall c: nat | Owns(t, r, c) ensures UserCart(t, r.user.value) == Some(c) {
      UserCartIs(t, c, r.user.value);
    }
    if UserCart(t, r.user.value).Some? {
      var c := UserCart(t, r.user.value).value;
      assert c in t.carts && IsCart(t, c, Some(r.user.value));
      assert Owns(t, r, c);
    }
  }

  lemma TakesOver(t: Tables, base: Tables, g: nat, c: nat, stock: nat -> int)
    requires Sound(t) && base.lines == t.lines && IsCart(t, g, None) && c in base.carts && c != g
    requires forall d :: d in t.carts ==> d in base.carts && base.carts[d] == t.carts[d]
    ensures TookOver(t, MergedTables(base, g, c, stock), g, c, stock)
  {
    forall product
      ensures MergedFor(t.lines, MergedTables(base, g, c, stock).lines, g, c, stock(product), product)
    {
      MergedQuantities(t.lines, g, c, stock, product);
    }
  }

  /** What get-or-create does for a user, in terms of the tables. */
  lemma ObtainedForUser(t: Tables, r: Request, newId: nat, newUuid: string, stock: nat -> int)
    requires Sound(t) && newId !in t.carts && r.user.Some?
    ensures
      var (after, c) := Obtained(t, r, newId, newUuid, stock);
      (forall d: nat :: Owns(t, r, d) ==> c == d) && (!OwnsSome(t, r) ==> c == newId) && Owns(after, r, c) &&
      forall g: nat :: Names(t, r, g) ==> TookOver(t, after, g, c, stock)
  {
    NamedGuestIs(t, r);
    OwnCartIs(t, r);
    ObtainedIsOwn(t, r, newId, newUuid, stock);
    var base := if UserCart(t, r.user.value).Some? then t else Created(t, r.user, newId, newUuid);
    var c := Obtained(t, r, newId, newUuid, stock).1;
    if NamedGuest(t, r).Some? {
      TakesOver(t, base, NamedGuest(t, r).value, c, stock);
    }
  }

  /** What get-or-create does for an anonymous caller. */
  lemma ObtainedForGuest(t: Tables, r: Request, newId: nat, newUuid: string, stock: nat -> int)
    requires Sound(t) && newId !in t.carts && r.user.None?
    ensures
      var (after, c) := Obtained(t, r, newId, newUuid, stock);
      (forall g: nat :: Names(t, r, g) ==> c == g && after == t) &&
      (!NamesSome(t, r) ==> c == newId && after == t.(carts := t.carts[newId := Cart(None, newUuid)]))
  {
    NamedGuestIs(t, r);
  }

  lemma SetUpIsRight(t: Tables, r: Request, newId: nat, newUuid: string, stock: nat -> int)
    requires Sound(t) && newId !in t.carts
    ensures
      var (after, c) := SetUp(t, r, newId, newUuid, stock);
      SetUpRight(t, r, newId, after, c, stock)
  {
    NamedGuestIs(t, r);
    if r.user.Some? {
      OwnCartIs(t, r);
      ObtainedForUser(t, r, newId, newUuid, stock);
    }
  }

  /** Get-or-create always returns a cart of the caller's own: theirs, or a guest cart for an anonymous caller. */
  lemma ObtainedIsOwn(t: Tables, r: Request, newId: nat, newUuid: string, stock: nat -> int)
    requires Sound(t) && newId !in t.carts
    ensures
      var (after, c) := Obtained(t, r, newId, newUuid, stock);
      IsCart(after, c, r.user)
  {
    var guest := NamedGuest(t, r);
    if guest.Some? {
      assert IsCart(t, guest.value, None);
    }
    if r.user.Some? && UserCart(t, r.user.value).Some? {
      assert IsCart(t, UserCart(t, r.user.value).value, r.user);
    }
  }

  /** After get-or-create for a user, the guest cart they named is gone and their cart is the one returned. */
  lemma ObtainedSettles(t: Tables, r: Request, newId: nat, newUuid: string, stock: nat -> int)
    requires Sound(t) && newId !in t.carts && r.user.Some?
    requires forall g :: g in t.carts ==> t.carts[g].uuid != newUuid
    ensures
      var (after, c) := Obtained(t, r, newId, newUuid, stock);
      Sound(after) && NamedGuest(after, r).None? && UserCart(after, r.user.value) == Some(c)
  {
    var user := r.user.value;
    var guest := NamedGuest(t, r);
    var mine := UserCart(t, user);
    var base := if mine.Some? then t else Created(t, r.user, newId, newUuid);
    var (after, c) := Obtained(t, r, newId, newUuid, stock);
    if mine.None? {
      CreatedSound(t, r.user, newId, newUuid);
    }
    ObtainedIsOwn(t, r, newId, newUuid, stock);
    if guest.Some? {
      assert IsCart(t, guest.value, None) && IsCart(base, guest.value, None);
      MergedTablesSound(base, guest.value, c, stock);
    }
    UserCartIs(after, c, user);
    if r.cartId.Some? {
      forall d | d in after.carts ensures !(IsCart(after, d, None) && after.carts[d].uuid == r.cartId.value) {
        if IsCart(after, d, None) {
          assert IsCart(t, d, None) && Some(d) != guest;
          GuestCartIs(t, d);
        }
      }
    }
  }

  /**
   * Asking again returns the same cart and changes nothing more, exactly for users and for callers that name
   * an existing guest cart: any other anonymous call leaves one more cart behind.
   */
  lemma ObtainedAgainIff(
    t: Tables, r: Request, newId: nat, newUuid: string, newId': nat, newUuid': string, stock: nat -> int
  )
    requires Sound(t) && newId !in t.carts && forall g :: g in t.carts ==> t.carts[g].uuid != newUuid
    requires r.cartId != Some(newUuid) && newId' !in Obtained(t, r, newId, newUuid, stock).0.carts
    ensures
      var first := Obtained(t, r, newId, newUuid, stock);
      Obtained(first.0, r, newId', newUuid', stock) == first <==> r.user.Some? || NamedGuest(t, r).Some?
  {
    var (after, c) := Obtained(t, r, newId, newUuid, stock);
    if r.user.Some? {
      ObtainedSettles(t, r, newId, newUuid, stock);
    } else if NamedGuest(t, r).None? {
      if r.cartId.Some? {
        forall d | d in after.carts ensures !(IsCart(after, d, None) && after.carts[d].uuid == r.cartId.value) {
          if d in t.carts && IsCart(after, d, None) { assert IsCart(t, d, None); }
        }
      }
      assert Obtained(after, r, newId', newUuid', stock).1 == newId';
    }
  }

  /** Nobody is given another user's cart: a user gets a cart of their own, an anonymous caller a guest cart or none. */
  lemma SetUpGivesOwnCart(t: Tables, r: Request, newId: nat, newUuid: string, stock: nat -> int)
    requires Sound(t) && newId !in t.carts
    ensures
      var (after, c) := SetUp(t, r, newId, newUuid, stock);
      (c.Some? ==> IsCart(after, c.value, r.user)) && (r.user.None? ==> after == t)
  {
    ObtainedIsOwn(t, r, newId, newUuid, stock);
  }

  /**
   * Sending the same request again changes nothing: the guest cart is gone, so a repeated login does not
   * add its lines a second time, and the user keeps the cart of the first time.
   */
  lemma SetUpIdempotent(
    t: Tables, r: Request, newId: nat, newUuid: string, newId': nat, newUuid': string, stock: nat -> int
  )
    requires Sound(t) && newId !in t.carts && forall g :: g in t.carts ==> t.carts[g].uuid != newUuid
    ensures
      var (after, c) := SetUp(t, r, newId, newUuid, stock);
      SetUp(after, r, newId', newUuid', stock) == (after, c)
  {
    if r.user.Some? && NamedGuest(t, r).Some? {
      ObtainedSettles(t, r, newId, newUuid, stock);
    }
  }
}
